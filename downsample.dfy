/** Converting a normal-format image to 4:2:0 (I420, YV12, NV12 or NV21).  The source
    rectangle is walked in 2x2 blocks: block rows top to bottom, blocks left to right and,
    within a block, the upper-left, upper-right, lower-left and lower-right pixel.  Each
    pixel's Y byte is stored as soon as the pixel is read; after the fourth pixel the
    block's U and V bytes get the means of the four pixels' U and V values, rounded down.
    A source in YUV colour space is read with the codec of the RGB format with the same
    layout and its R, G, B values are taken as Y, U, V; any other source is converted from
    RGB.

    `PoolImage` is the memory this produces, defined block by block in the order the
    stores happen, each pixel read from memory as the stores before it left it. */
module Downsample420 {
  import opened Memory
  import opened BitmapFormats
  import opened SampleCodecs
  import opened SampleProcs
  import opened CodecLaws
  import opened NormalCopy
  import opened BitmapLayout
  import opened Upsample420

  // ----- The conversion, block by block -----

  /** The colour conversions, and whether the source holds its Y, U, V values in the R, G,
      B places (a source in YUV colour space). */
  datatype Sampling = Sampling(cv: Conversions, raw: bool)

  /** The Y, U and V values of a colour read from the source. */
  function YuvOf(sa: Sampling, col: Rgba): (Byte, Byte, Byte) {
    if sa.raw then (col.r, col.g, col.b) else sa.cv.rgbToYuv(col.r, col.g, col.b)
  }

  /** The Y, U and V values of the source pixel at cursors `c` of memory `m`. */
  function PixelYuv(tp: Proc, sa: Sampling, m: seq<Byte>, c: Quad): (Byte, Byte, Byte) {
    YuvOf(sa, tp.read(m, c))
  }

  /** The 32-bit sum of four bytes. */
  function Sum4(a: Byte, b: Byte, c: Byte, d: Byte): bv32 {
    a as bv32 + b as bv32 + c as bv32 + d as bv32
  }

  /** The mean of four bytes as the conversion computes it: their 32-bit sum shifted right
      by two. */
  function Mean4(a: Byte, b: Byte, c: Byte, d: Byte): Byte {
    (Sum4(a, b, c, d) >> 2) as Byte
  }

  /** The 32-bit sum cannot overflow, and shifting it by two is the mean rounded down;
      the mean of four equal bytes is that byte. */
  lemma Mean4IsFlooredMean(a: Byte, b: Byte, c: Byte, d: Byte)
    ensures Sum4(a, b, c, d) <= 1020
    ensures 4 * (Mean4(a, b, c, d) as bv32) <= Sum4(a, b, c, d) < 4 * (Mean4(a, b, c, d) as bv32) + 4
    ensures a == b == c == d ==> Mean4(a, b, c, d) == a
  {
  }

  /** Memory after pixels `k` to 3 of a block whose upper left source pixel is at `su` and
      lower left at `sd`, each pixel read and its Y byte stored into `b`, and then the
      block's U and V bytes stored; `us` and `vs` are the U and V values of the pixels
      before `k`. */
  function BlockFrom(tp: Proc, sa: Sampling, f: BitmapFormat, m: seq<Byte>, b: Block420, su: Quad, sd: Quad,
                     k: nat, us: seq<Byte>, vs: seq<Byte>): (r: seq<Byte>)
    requires f.IsNormal() && k <= 4 && |us| == k && |vs| == k
    ensures |r| == |m|
    decreases 4 - k
  {
    if k == 4 then Poke(Poke(m, b.u, Mean4(us[0], us[1], us[2], us[3])), b.v, Mean4(vs[0], vs[1], vs[2], vs[3]))
    else
      var p := PixelYuv(tp, sa, m, CornerOf(f, su, sd, k));
      BlockFrom(tp, sa, f, Poke(m, LumaOf(b, k), p.0), b, su, sd, k + 1, us + [p.1], vs + [p.2])
  }

  /** Memory after converting one block: upper left, upper right, lower left, lower
      right pixel, then the means of their U and V values. */
  function PoolBlock(tp: Proc, sa: Sampling, f: BitmapFormat, m: seq<Byte>, b: Block420, su: Quad, sd: Quad): (r: seq<Byte>)
    requires f.IsNormal()
    ensures |r| == |m|
  {
    BlockFrom(tp, sa, f, m, b, su, sd, 0, [], [])
  }

  /** Memory after the rest of `n` consecutive blocks of a block row, from pixel `k` of the
      first of them on, one store at a time in the order the stores happen; `us` and `vs`
      are the U and V values of that block's pixels before `k`. */
  function PoolFrom(tp: Proc, sa: Sampling, f: BitmapFormat, m: seq<Byte>, b: Block420, stride: int, su: Quad, sd: Quad,
                    n: nat, k: nat, us: seq<Byte>, vs: seq<Byte>): (r: seq<Byte>)
    requires f.IsNormal() && k <= 4 && |us| == k && |vs| == k
    ensures |r| == |m|
    decreases n, 4 - k
  {
    if n == 0 then m
    else if k == 4 then
      var m' := Poke(Poke(m, b.u, Mean4(us[0], us[1], us[2], us[3])), b.v, Mean4(vs[0], vs[1], vs[2], vs[3]));
      PoolFrom(tp, sa, f, m', b.Next(stride), stride, Advance(f, Advance(f, su)), Advance(f, Advance(f, sd)), n - 1, 0, [], [])
    else
      var p := PixelYuv(tp, sa, m, CornerOf(f, su, sd, k));
      PoolFrom(tp, sa, f, Poke(m, LumaOf(b, k), p.0), b, stride, su, sd, n, k + 1, us + [p.1], vs + [p.2])
  }

  /** Memory after converting `n` consecutive blocks of a block row. */
  function PoolRow(tp: Proc, sa: Sampling, f: BitmapFormat, m: seq<Byte>, b: Block420, stride: int, su: Quad, sd: Quad, n: nat): (r: seq<Byte>)
    requires f.IsNormal()
    ensures |r| == |m|
  {
    PoolFrom(tp, sa, f, m, b, stride, su, sd, n, 0, [], [])
  }

  /** The rest of a row is the rest of its first block followed by the other blocks. */
  lemma {:induction false} PoolFromSplit(tp: Proc, sa: Sampling, f: BitmapFormat, m: seq<Byte>, b: Block420, stride: int, su: Quad, sd: Quad,
                                         n: nat, k: nat, us: seq<Byte>, vs: seq<Byte>)
    requires f.IsNormal() && k <= 4 && |us| == k && |vs| == k && n > 0
    ensures PoolFrom(tp, sa, f, m, b, stride, su, sd, n, k, us, vs)
            == PoolRow(tp, sa, f, BlockFrom(tp, sa, f, m, b, su, sd, k, us, vs), b.Next(stride), stride,
                       Advance(f, Advance(f, su)), Advance(f, Advance(f, sd)), n - 1)
    decreases 4 - k
  {
    if k < 4 {
      var p := PixelYuv(tp, sa, m, CornerOf(f, su, sd, k));
      PoolFromSplit(tp, sa, f, Poke(m, LumaOf(b, k), p.0), b, stride, su, sd, n, k + 1, us + [p.1], vs + [p.2]);
    }
  }

  /** Converting a row of blocks is converting its first block, then the rest of the row. */
  lemma PoolRowStep(tp: Proc, sa: Sampling, f: BitmapFormat, m: seq<Byte>, b: Block420, stride: int, su: Quad, sd: Quad, n: nat)
    requires f.IsNormal() && n > 0
    ensures PoolRow(tp, sa, f, m, b, stride, su, sd, n)
            == PoolRow(tp, sa, f, PoolBlock(tp, sa, f, m, b, su, sd), b.Next(stride), stride,
                       Advance(f, Advance(f, su)), Advance(f, Advance(f, sd)), n - 1)
  {
    PoolFromSplit(tp, sa, f, m, b, stride, su, sd, n, 0, [], []);
  }

  /** Memory after converting the `2*w2` by `2*h2` rectangle of `src` into a `w2` by `h2`
      grid of blocks, block row by block row. */
  function PoolImage(tp: Proc, sa: Sampling, m: seq<Byte>, src: Image, s: Planes420, w2: nat, h2: nat): (r: seq<Byte>)
    requires src.format.IsNormal()
    ensures |r| == |m|
    decreases h2
  {
    if h2 == 0 then m
    else
      var m1 := PoolRow(tp, sa, src.format, m, s.First(), s.stride, src.rows, src.Below().rows, w2);
      PoolImage(tp, sa, m1, src.Below().Below(), s.Below(), w2, h2 - 1)
  }

  // ----- The loops -----

  /** `_YUVToYUV420_Step1` and `_OtherToYUV420_Step1`: block rows outside, blocks inside,
      four pixels per block. */
  method Downsample(mem: array<Byte>, sa: Sampling, src: Image, s: Planes420, w2: nat, h2: nat, ghost tp: Proc)
    requires src.format.IsNormal() && src.format.ColorSpaceOf() != SpaceYUV && Implements(tp, sa.cv, src.format)
    requires ImageIn(mem.Length, src, 2 * w2, 2 * h2) && PlanesReadable(mem.Length, s, w2, h2)
    modifies mem
    ensures mem[..] == PoolImage(tp, sa, old(mem[..]), src, s, w2, h2)
  {
    var sr, dr := src, s;
    var i := 0;
    while i < h2
      invariant 0 <= i <= h2 && sr.format == src.format
      invariant ImageIn(mem.Length, sr, 2 * w2, 2 * (h2 - i)) && PlanesReadable(mem.Length, dr, w2, h2 - i)
      invariant PoolImage(tp, sa, old(mem[..]), src, s, w2, h2) == PoolImage(tp, sa, mem[..], sr, dr, w2, h2 - i)
    {
      ImageInTwoRows(mem.Length, sr, 2 * w2, h2 - i);
      DownsampleRow(mem, sa, src.format, dr.First(), dr.stride, sr.rows, sr.Below().rows, w2, tp);
      sr, dr := sr.Below().Below(), dr.Below();
      i := i + 1;
    }
  }

  /** The blocks of one block row, from the two source rows' cursors. */
  method DownsampleRow(mem: array<Byte>, sa: Sampling, f: BitmapFormat, b: Block420, stride: int, su: Quad, sd: Quad, n: nat, ghost tp: Proc)
    requires f.IsNormal() && f.ColorSpaceOf() != SpaceYUV && Implements(tp, sa.cv, f)
    requires RowReadable(mem.Length, b, stride, n) && RowIn(mem.Length, f, su, 2 * n) && RowIn(mem.Length, f, sd, 2 * n)
    modifies mem
    ensures mem[..] == PoolRow(tp, sa, f, old(mem[..]), b, stride, su, sd, n)
  {
    var sb, cu, cd := b, su, sd;
    var k := n;
    while k > 0
      invariant RowReadable(mem.Length, sb, stride, k)
      invariant RowIn(mem.Length, f, cu, 2 * k) && RowIn(mem.Length, f, cd, 2 * k)
      invariant PoolRow(tp, sa, f, old(mem[..]), b, stride, su, sd, n) == PoolFrom(tp, sa, f, mem[..], sb, stride, cu, cd, k, 0, [], [])
    {
      sb, cu, cd := DownsampleRowStep(mem, sa, f, sb, stride, cu, cd, k, tp);
      k := k - 1;
    }
  }

  /** One pass of the block loop: the block at `b`, then the source cursors and target
      pointers of the next block, with the rest of the row still in memory. */
  method DownsampleRowStep(mem: array<Byte>, sa: Sampling, f: BitmapFormat, b: Block420, stride: int, su: Quad, sd: Quad,
                           ghost k: nat, ghost tp: Proc)
    returns (b': Block420, su': Quad, sd': Quad)
    requires f.IsNormal() && f.ColorSpaceOf() != SpaceYUV && Implements(tp, sa.cv, f) && k > 0
    requires RowReadable(mem.Length, b, stride, k) && RowIn(mem.Length, f, su, 2 * k) && RowIn(mem.Length, f, sd, 2 * k)
    modifies mem
    ensures RowReadable(mem.Length, b', stride, k - 1)
    ensures RowIn(mem.Length, f, su', 2 * (k - 1)) && RowIn(mem.Length, f, sd', 2 * (k - 1))
    ensures PoolFrom(tp, sa, f, old(mem[..]), b, stride, su, sd, k, 0, [], [])
            == PoolFrom(tp, sa, f, mem[..], b', stride, su', sd', k - 1, 0, [], [])
  {
    RowInTwo(mem.Length, f, su, k);
    RowInTwo(mem.Length, f, sd, k);
    su', sd' := DownsampleBlock(mem, sa, f, b, stride, su, sd, k, tp);
    b' := b.Next(stride);
  }

  /** The four pixels of one block, each read and its Y byte stored, with running sums of
      their U and V values; then the block's U and V bytes.  Returns both source rows'
      cursors past the block. */
  method DownsampleBlock(mem: array<Byte>, sa: Sampling, f: BitmapFormat, b: Block420, stride: int, su: Quad, sd: Quad,
                         ghost n: nat, ghost tp: Proc)
    returns (su': Quad, sd': Quad)
    requires f.IsNormal() && f.ColorSpaceOf() != SpaceYUV && Implements(tp, sa.cv, f) && n > 0
    requires BlockReadable(mem.Length, b) && RowIn(mem.Length, f, su, 2) && RowIn(mem.Length, f, sd, 2)
    modifies mem
    ensures PoolFrom(tp, sa, f, old(mem[..]), b, stride, su, sd, n, 0, [], [])
            == PoolFrom(tp, sa, f, mem[..], b.Next(stride), stride, su', sd', n - 1, 0, [], [])
    ensures su' == Advance(f, Advance(f, su)) && sd' == Advance(f, Advance(f, sd))
  {
    ghost var m := mem[..];
    var p0, p1, p2, p3;
    p0, su' := DownsamplePixel(mem, sa, f, su, b.yu, tp);
    p1, su' := DownsamplePixel(mem, sa, f, su', b.yu + 1, tp);
    p2, sd' := DownsamplePixel(mem, sa, f, sd, b.yd, tp);
    p3, sd' := DownsamplePixel(mem, sa, f, sd', b.yd + 1, tp);
    mem[b.u] := Mean4(p0.1, p1.1, p2.1, p3.1);
    mem[b.v] := Mean4(p0.2, p1.2, p2.2, p3.2);
    PoolFromBlock(tp, sa, f, m, b, stride, su, sd, n);
  }

  /** The first block of a row, written out: its four pixels, each read from the memory
      the stores before it left and its Y byte stored, then its U and V bytes. */
  lemma PoolFromBlock(tp: Proc, sa: Sampling, f: BitmapFormat, m: seq<Byte>, b: Block420, stride: int, su: Quad, sd: Quad, n: nat)
    requires f.IsNormal() && n > 0
    ensures var p0 := PixelYuv(tp, sa, m, su);
      var m0 := Poke(m, b.yu, p0.0);
      var p1 := PixelYuv(tp, sa, m0, Advance(f, su));
      var m1 := Poke(m0, b.yu + 1, p1.0);
      var p2 := PixelYuv(tp, sa, m1, sd);
      var m2 := Poke(m1, b.yd, p2.0);
      var p3 := PixelYuv(tp, sa, m2, Advance(f, sd));
      var m3 := Poke(m2, b.yd + 1, p3.0);
      PoolFrom(tp, sa, f, m, b, stride, su, sd, n, 0, [], [])
      == PoolFrom(tp, sa, f, Poke(Poke(m3, b.u, Mean4(p0.1, p1.1, p2.1, p3.1)), b.v, Mean4(p0.2, p1.2, p2.2, p3.2)),
                  b.Next(stride), stride, Advance(f, Advance(f, su)), Advance(f, Advance(f, sd)), n - 1, 0, [], [])
  {
    var p0 := PixelYuv(tp, sa, m, su);
    var m0, u0, v0 := Poke(m, b.yu, p0.0), [] + [p0.1], [] + [p0.2];
    assert PoolFrom(tp, sa, f, m, b, stride, su, sd, n, 0, [], []) == PoolFrom(tp, sa, f, m0, b, stride, su, sd, n, 1, u0, v0);
    var p1 := PixelYuv(tp, sa, m0, Advance(f, su));
    var m1, u1, v1 := Poke(m0, b.yu + 1, p1.0), u0 + [p1.1], v0 + [p1.2];
    assert PoolFrom(tp, sa, f, m0, b, stride, su, sd, n, 1, u0, v0) == PoolFrom(tp, sa, f, m1, b, stride, su, sd, n, 2, u1, v1);
    var p2 := PixelYuv(tp, sa, m1, sd);
    var m2, u2, v2 := Poke(m1, b.yd, p2.0), u1 + [p2.1], v1 + [p2.2];
    assert PoolFrom(tp, sa, f, m1, b, stride, su, sd, n, 2, u1, v1) == PoolFrom(tp, sa, f, m2, b, stride, su, sd, n, 3, u2, v2);
    var p3 := PixelYuv(tp, sa, m2, Advance(f, sd));
    var m3, u3, v3 := Poke(m2, b.yd + 1, p3.0), u2 + [p3.1], v2 + [p3.2];
    assert PoolFrom(tp, sa, f, m2, b, stride, su, sd, n, 3, u2, v2) == PoolFrom(tp, sa, f, m3, b, stride, su, sd, n, 4, u3, v3);
    assert u3 == [p0.1, p1.1, p2.1, p3.1] && v3 == [p0.2, p1.2, p2.2, p3.2];
  }

  /** One source pixel: read it, convert it to Y, U, V unless the source is in YUV space,
      store its Y byte; returns its Y, U, V values and the cursors past it. */
  method DownsamplePixel(mem: array<Byte>, sa: Sampling, f: BitmapFormat, c: Quad, ya: Ptr, ghost tp: Proc)
    returns (p: (Byte, Byte, Byte), c': Quad)
    requires f.IsNormal() && f.ColorSpaceOf() != SpaceYUV && Implements(tp, sa.cv, f)
    requires SampleIn(mem.Length, f, c) && Addressable(mem.Length, ya)
    modifies mem
    ensures p == PixelYuv(tp, sa, old(mem[..]), c) && c' == Advance(f, c)
    ensures mem[..] == Poke(old(mem[..]), ya, p.0)
  {
    var col;
    col, c' := ReadSample(mem, sa.cv, f, c);
    p := YuvOf(sa, col);
    mem[ya] := p.0;
  }

  // ----- Which bytes the conversion stores to -----

  /** `a` is one of the six bytes a block stores to. */
  predicate BlockCovers(b: Block420, a: Ptr) {
    a == b.yu || a == b.yu + 1 || a == b.yd || a == b.yd + 1 || a == b.u || a == b.v
  }

  /** `a` is one of the bytes the `n` consecutive blocks of a row starting at `b` store to. */
  predicate RowBlocksCover(b: Block420, stride: int, n: nat, a: Ptr)
    decreases n
  {
    n > 0 && (BlockCovers(b, a) || RowBlocksCover(b.Next(stride), stride, n - 1, a))
  }

  /** `a` is one of the bytes a `w2` by `h2` grid of blocks stores to. */
  predicate PlanesCover(s: Planes420, w2: nat, h2: nat, a: Ptr)
    decreases h2
  {
    h2 > 0 && (RowBlocksCover(s.First(), s.stride, w2, a) || PlanesCover(s.Below(), w2, h2 - 1, a))
  }

  /** The six bytes of the block are different bytes. */
  predicate BlockSeparated(b: Block420) {
    b.yd != b.yu - 1 && b.yd != b.yu && b.yd != b.yu + 1
    && b.u != b.yu && b.u != b.yu + 1 && b.u != b.yd && b.u != b.yd + 1
    && b.v != b.yu && b.v != b.yu + 1 && b.v != b.yd && b.v != b.yd + 1 && b.v != b.u
  }

  /** No two blocks of the row share a byte, and each block's six bytes are different. */
  predicate RowBlocksSeparated(b: Block420, stride: int, n: nat)
    decreases n
  {
    n == 0
    || (BlockSeparated(b)
        && !RowBlocksCover(b.Next(stride), stride, n - 1, b.yu) && !RowBlocksCover(b.Next(stride), stride, n - 1, b.yu + 1)
        && !RowBlocksCover(b.Next(stride), stride, n - 1, b.yd) && !RowBlocksCover(b.Next(stride), stride, n - 1, b.yd + 1)
        && !RowBlocksCover(b.Next(stride), stride, n - 1, b.u) && !RowBlocksCover(b.Next(stride), stride, n - 1, b.v)
        && RowBlocksSeparated(b.Next(stride), stride, n - 1))
  }

  /** No byte of the four source pixels of a block is a byte the block stores to. */
  ghost predicate BlockReadsApart(f: BitmapFormat, b: Block420, su: Quad, sd: Quad)
    requires f.IsNormal()
  {
    forall a :: (Covers(f, su, a) || Covers(f, Advance(f, su), a) || Covers(f, sd, a) || Covers(f, Advance(f, sd), a))
      ==> !BlockCovers(b, a)
  }

  /** No byte of the two source rows of `2*n` pixels is a byte the row of `n` blocks stores to. */
  ghost predicate RowReadsApart(f: BitmapFormat, b: Block420, stride: int, su: Quad, sd: Quad, n: nat)
    requires f.IsNormal()
  {
    forall a :: (RowCovers(f, su, 2 * n, a) || RowCovers(f, sd, 2 * n, a)) ==> !RowBlocksCover(b, stride, n, a)
  }

  /** No byte of the source rectangle is a byte the grid of blocks stores to. */
  ghost predicate ImageReadsApart(src: Image, s: Planes420, w2: nat, h2: nat)
    requires src.format.IsNormal()
  {
    forall a :: ImageCovers(src, 2 * w2, 2 * h2, a) ==> !PlanesCover(s, w2, h2, a)
  }

  // ----- What the conversion leaves alone -----

  /** Converting a block stores to its six bytes only. */
  lemma PoolBlockFrame(tp: Proc, sa: Sampling, f: BitmapFormat, m: seq<Byte>, b: Block420, su: Quad, sd: Quad, a: Ptr)
    requires f.IsNormal() && !BlockCovers(b, a)
    ensures Peek(PoolBlock(tp, sa, f, m, b, su, sd), a) == Peek(m, a)
  {
  }

  /** Converting a row of blocks stores to the blocks' bytes only. */
  lemma {:induction false} PoolRowFrame(tp: Proc, sa: Sampling, f: BitmapFormat, m: seq<Byte>, b: Block420, stride: int, su: Quad, sd: Quad, n: nat, a: Ptr)
    requires f.IsNormal() && !RowBlocksCover(b, stride, n, a)
    ensures Peek(PoolRow(tp, sa, f, m, b, stride, su, sd, n), a) == Peek(m, a)
    decreases n
  {
    if n > 0 {
      PoolRowStep(tp, sa, f, m, b, stride, su, sd, n);
      PoolBlockFrame(tp, sa, f, m, b, su, sd, a);
      PoolRowFrame(tp, sa, f, PoolBlock(tp, sa, f, m, b, su, sd), b.Next(stride), stride,
                   Advance(f, Advance(f, su)), Advance(f, Advance(f, sd)), n - 1, a);
    }
  }

  /** Converting a rectangle changes no byte outside the grid's Y, U and V bytes: the
      source, row padding and the rest of memory keep their values. */
  lemma {:induction false} PoolImageFrame(tp: Proc, sa: Sampling, m: seq<Byte>, src: Image, s: Planes420, w2: nat, h2: nat, a: Ptr)
    requires src.format.IsNormal() && !PlanesCover(s, w2, h2, a)
    ensures Peek(PoolImage(tp, sa, m, src, s, w2, h2), a) == Peek(m, a)
    decreases h2
  {
    if h2 > 0 {
      var m1 := PoolRow(tp, sa, src.format, m, s.First(), s.stride, src.rows, src.Below().rows, w2);
      PoolRowFrame(tp, sa, src.format, m, s.First(), s.stride, src.rows, src.Below().rows, w2, a);
      PoolImageFrame(tp, sa, m1, src.Below().Below(), s.Below(), w2, h2 - 1, a);
    }
  }

  // ----- What one block stores -----

  /** The six bytes of block `b` in `r` are the Y values of the four source pixels as
      they are in `m` and the means of their U and V values. */
  predicate BlockHolds(tp: Proc, sa: Sampling, f: BitmapFormat, m: seq<Byte>, su: Quad, sd: Quad, b: Block420, r: seq<Byte>)
    requires f.IsNormal()
  {
    var p0, p1 := PixelYuv(tp, sa, m, su), PixelYuv(tp, sa, m, Advance(f, su));
    var p2, p3 := PixelYuv(tp, sa, m, sd), PixelYuv(tp, sa, m, Advance(f, sd));
    Peek(r, b.yu) == p0.0 && Peek(r, b.yu + 1) == p1.0 && Peek(r, b.yd) == p2.0 && Peek(r, b.yd + 1) == p3.0
    && Peek(r, b.u) == Mean4(p0.1, p1.1, p2.1, p3.1) && Peek(r, b.v) == Mean4(p0.2, p1.2, p2.2, p3.2)
  }

  /** A block whose six bytes are different bytes of memory, none of them a byte of its
      source pixels, ends up holding its pixels' Y values and chroma means. */
  lemma PoolBlockContent(tp: Proc, sa: Sampling, f: BitmapFormat, m: seq<Byte>, b: Block420, su: Quad, sd: Quad)
    requires f.IsNormal() && Lawful(tp, f)
    requires BlockReadable(|m|, b) && BlockSeparated(b) && BlockReadsApart(f, b, su, sd)
    ensures BlockHolds(tp, sa, f, m, su, sd, b, PoolBlock(tp, sa, f, m, b, su, sd))
  {
    BlockFromContent(tp, sa, f, m, m, b, su, sd, 0, [], []);
    var r := PoolBlock(tp, sa, f, m, b, su, sd);
    assert LumaOf(b, 0) == b.yu && LumaOf(b, 1) == b.yu + 1 && LumaOf(b, 2) == b.yd && LumaOf(b, 3) == b.yd + 1;
    assert Peek(r, LumaOf(b, 0)) == PixelYuv(tp, sa, m, CornerOf(f, su, sd, 0)).0;
    assert Peek(r, LumaOf(b, 1)) == PixelYuv(tp, sa, m, CornerOf(f, su, sd, 1)).0;
    assert Peek(r, LumaOf(b, 2)) == PixelYuv(tp, sa, m, CornerOf(f, su, sd, 2)).0;
    assert Peek(r, LumaOf(b, 3)) == PixelYuv(tp, sa, m, CornerOf(f, su, sd, 3)).0;
  }

  /** Midway through a block, before pixel `k`: memory `m` agrees with the memory `m0`
      before the block on the source pixels still to be read, and `us` and `vs` hold the
      U and V values the pixels before `k` have in `m0`. */
  ghost predicate Pending(tp: Proc, sa: Sampling, f: BitmapFormat, m0: seq<Byte>, m: seq<Byte>, su: Quad, sd: Quad,
                          k: nat, us: seq<Byte>, vs: seq<Byte>)
    requires f.IsNormal() && k <= 4 && |us| == k && |vs| == k
  {
    (forall i :: k <= i < 4 ==> SameSample(f, CornerOf(f, su, sd, i), m, m0))
    && (forall i :: 0 <= i < k ==> us[i] == PixelYuv(tp, sa, m0, CornerOf(f, su, sd, i)).1)
    && (forall i :: 0 <= i < k ==> vs[i] == PixelYuv(tp, sa, m0, CornerOf(f, su, sd, i)).2)
  }

  /** Pixel `k` of a block reads as it did before the block, and storing its Y byte keeps
      the block pending. */
  lemma PendingStep(tp: Proc, sa: Sampling, f: BitmapFormat, m0: seq<Byte>, m: seq<Byte>, b: Block420,
                    su: Quad, sd: Quad, k: nat, us: seq<Byte>, vs: seq<Byte>)
    requires f.IsNormal() && Lawful(tp, f) && k < 4 && |us| == k && |vs| == k
    requires BlockSeparated(b) && BlockReadsApart(f, b, su, sd) && Pending(tp, sa, f, m0, m, su, sd, k, us, vs)
    ensures var p := PixelYuv(tp, sa, m, CornerOf(f, su, sd, k));
      p == PixelYuv(tp, sa, m0, CornerOf(f, su, sd, k))
      && Pending(tp, sa, f, m0, Poke(m, LumaOf(b, k), p.0), su, sd, k + 1, us + [p.1], vs + [p.2])
  {
    var c := CornerOf(f, su, sd, k);
    var p := PixelYuv(tp, sa, m, c);
    assert SameSample(f, c, m, m0);
    assert tp.read(m, c) == tp.read(m0, c);
    var ya := LumaOf(b, k);
    assert BlockCovers(b, ya);
    forall i | k + 1 <= i < 4 ensures SameSample(f, CornerOf(f, su, sd, i), Poke(m, ya, p.0), m0) {
      PokeSpares(f, m, ya, p.0, CornerOf(f, su, sd, i), m0);
    }
  }

  /** The rest of a pending block from pixel `k` on leaves the Y bytes of the pixels before
      `k` as they are in `m`, gives the others the Y values their pixels have in `m0`, and
      the U and V bytes the means of all four pixels' U and V values in `m0`. */
  lemma {:induction false} BlockFromContent(tp: Proc, sa: Sampling, f: BitmapFormat, m0: seq<Byte>, m: seq<Byte>, b: Block420,
                                            su: Quad, sd: Quad, k: nat, us: seq<Byte>, vs: seq<Byte>)
    requires f.IsNormal() && Lawful(tp, f) && k <= 4 && |us| == k && |vs| == k
    requires BlockReadable(|m|, b) && BlockSeparated(b) && BlockReadsApart(f, b, su, sd)
    requires Pending(tp, sa, f, m0, m, su, sd, k, us, vs)
    ensures var r := BlockFrom(tp, sa, f, m, b, su, sd, k, us, vs);
      (forall i :: 0 <= i < 4 ==>
         Peek(r, LumaOf(b, i)) == if i < k then Peek(m, LumaOf(b, i)) else PixelYuv(tp, sa, m0, CornerOf(f, su, sd, i)).0)
      && Peek(r, b.u) == Mean4(PixelYuv(tp, sa, m0, su).1, PixelYuv(tp, sa, m0, Advance(f, su)).1,
                               PixelYuv(tp, sa, m0, sd).1, PixelYuv(tp, sa, m0, Advance(f, sd)).1)
      && Peek(r, b.v) == Mean4(PixelYuv(tp, sa, m0, su).2, PixelYuv(tp, sa, m0, Advance(f, su)).2,
                               PixelYuv(tp, sa, m0, sd).2, PixelYuv(tp, sa, m0, Advance(f, sd)).2)
    decreases 4 - k, 1
  {
    if k < 4 {
      BlockFromContentStep(tp, sa, f, m0, m, b, su, sd, k, us, vs);
    } else {
      BlockFromContentEnd(tp, sa, f, m0, m, b, su, sd, us, vs);
    }
  }

  /** `BlockFromContent` before the fourth pixel: one pixel, then the rest. */
  lemma {:induction false} BlockFromContentStep(tp: Proc, sa: Sampling, f: BitmapFormat, m0: seq<Byte>, m: seq<Byte>, b: Block420,
                                            su: Quad, sd: Quad, k: nat, us: seq<Byte>, vs: seq<Byte>)
    requires f.IsNormal() && Lawful(tp, f) && k < 4 && |us| == k && |vs| == k
    requires BlockReadable(|m|, b) && BlockSeparated(b) && BlockReadsApart(f, b, su, sd)
    requires Pending(tp, sa, f, m0, m, su, sd, k, us, vs)
    ensures var r := BlockFrom(tp, sa, f, m, b, su, sd, k, us, vs);
      (forall i :: 0 <= i < 4 ==>
         Peek(r, LumaOf(b, i)) == if i < k then Peek(m, LumaOf(b, i)) else PixelYuv(tp, sa, m0, CornerOf(f, su, sd, i)).0)
      && Peek(r, b.u) == Mean4(PixelYuv(tp, sa, m0, su).1, PixelYuv(tp, sa, m0, Advance(f, su)).1,
                               PixelYuv(tp, sa, m0, sd).1, PixelYuv(tp, sa, m0, Advance(f, sd)).1)
      && Peek(r, b.v) == Mean4(PixelYuv(tp, sa, m0, su).2, PixelYuv(tp, sa, m0, Advance(f, su)).2,
                               PixelYuv(tp, sa, m0, sd).2, PixelYuv(tp, sa, m0, Advance(f, sd)).2)
    decreases 4 - k, 0
  {
    var p := PixelYuv(tp, sa, m, CornerOf(f, su, sd, k));
    var m' := Poke(m, LumaOf(b, k), p.0);
    PendingStep(tp, sa, f, m0, m, b, su, sd, k, us, vs);
    BlockFromContent(tp, sa, f, m0, m', b, su, sd, k + 1, us + [p.1], vs + [p.2]);
    forall i | 0 <= i < k ensures Peek(m', LumaOf(b, i)) == Peek(m, LumaOf(b, i)) {
      LumaApart(b, i, k);
    }
  }

  /** `BlockFromContent` after the fourth pixel: the U and V bytes. */
  lemma BlockFromContentEnd(tp: Proc, sa: Sampling, f: BitmapFormat, m0: seq<Byte>, m: seq<Byte>, b: Block420,
                            su: Quad, sd: Quad, us: seq<Byte>, vs: seq<Byte>)
    requires f.IsNormal() && |us| == 4 && |vs| == 4
    requires BlockReadable(|m|, b) && BlockSeparated(b)
    requires Pending(tp, sa, f, m0, m, su, sd, 4, us, vs)
    ensures var r := BlockFrom(tp, sa, f, m, b, su, sd, 4, us, vs);
      (forall i :: 0 <= i < 4 ==> Peek(r, LumaOf(b, i)) == Peek(m, LumaOf(b, i)))
      && Peek(r, b.u) == Mean4(PixelYuv(tp, sa, m0, su).1, PixelYuv(tp, sa, m0, Advance(f, su)).1,
                               PixelYuv(tp, sa, m0, sd).1, PixelYuv(tp, sa, m0, Advance(f, sd)).1)
      && Peek(r, b.v) == Mean4(PixelYuv(tp, sa, m0, su).2, PixelYuv(tp, sa, m0, Advance(f, su)).2,
                               PixelYuv(tp, sa, m0, sd).2, PixelYuv(tp, sa, m0, Advance(f, sd)).2)
  {
    assert us[0] == PixelYuv(tp, sa, m0, CornerOf(f, su, sd, 0)).1 && us[1] == PixelYuv(tp, sa, m0, CornerOf(f, su, sd, 1)).1;
    assert us[2] == PixelYuv(tp, sa, m0, CornerOf(f, su, sd, 2)).1 && us[3] == PixelYuv(tp, sa, m0, CornerOf(f, su, sd, 3)).1;
    assert vs[0] == PixelYuv(tp, sa, m0, CornerOf(f, su, sd, 0)).2 && vs[1] == PixelYuv(tp, sa, m0, CornerOf(f, su, sd, 1)).2;
    assert vs[2] == PixelYuv(tp, sa, m0, CornerOf(f, su, sd, 2)).2 && vs[3] == PixelYuv(tp, sa, m0, CornerOf(f, su, sd, 3)).2;
  }

  /** Different pixels of a block have different Y bytes when its bytes are separated. */
  lemma LumaApart(b: Block420, i: nat, k: nat)
    requires BlockSeparated(b) && i < k < 4
    ensures LumaOf(b, i) != LumaOf(b, k)
  {
  }

  /** A store to a byte sample `c` does not cover leaves the sample as it is in `m0`. */
  lemma PokeSpares(f: BitmapFormat, m: seq<Byte>, a: Ptr, v: Byte, c: Quad, m0: seq<Byte>)
    requires f.IsNormal() && !Covers(f, c, a) && SameSample(f, c, m, m0)
    ensures SameSample(f, c, Poke(m, a, v), m0)
  {
    var r := Poke(m, a, v);
    forall x | Covers(f, c, x) && 0 <= x < |r| ensures r[x] == m0[x] {
      assert Peek(r, x) == Peek(m, x);
    }
  }

  /** A block's bytes stay as they are when a later memory agrees on them. */
  lemma BlockHoldsAfter(tp: Proc, sa: Sampling, f: BitmapFormat, m: seq<Byte>, su: Quad, sd: Quad, b: Block420, r: seq<Byte>, r': seq<Byte>)
    requires f.IsNormal() && BlockHolds(tp, sa, f, m, su, sd, b, r)
    requires forall a :: BlockCovers(b, a) ==> Peek(r', a) == Peek(r, a)
    ensures BlockHolds(tp, sa, f, m, su, sd, b, r')
  {
    assert BlockCovers(b, b.yu) && BlockCovers(b, b.yu + 1) && BlockCovers(b, b.yd) && BlockCovers(b, b.yd + 1);
    assert BlockCovers(b, b.u) && BlockCovers(b, b.v);
  }

  /** What a block holds is stated equally from an earlier memory that agrees on the four
      source pixels. */
  lemma BlockHoldsBefore(tp: Proc, sa: Sampling, f: BitmapFormat, m: seq<Byte>, m': seq<Byte>, su: Quad, sd: Quad, b: Block420, r: seq<Byte>)
    requires f.IsNormal() && Lawful(tp, f) && BlockHolds(tp, sa, f, m', su, sd, b, r)
    requires SameSample(f, su, m, m') && SameSample(f, Advance(f, su), m, m')
    requires SameSample(f, sd, m, m') && SameSample(f, Advance(f, sd), m, m')
    ensures BlockHolds(tp, sa, f, m, su, sd, b, r)
  {
    assert tp.read(m, su) == tp.read(m', su) && tp.read(m, Advance(f, su)) == tp.read(m', Advance(f, su));
    assert tp.read(m, sd) == tp.read(m', sd) && tp.read(m, Advance(f, sd)) == tp.read(m', Advance(f, sd));
  }

  // ----- What a row of blocks stores -----

  /** Block `jj` of the row that starts at block `b`. */
  function BlockAt(b: Block420, stride: int, jj: nat): Block420
    decreases jj
  {
    if jj == 0 then b else BlockAt(b.Next(stride), stride, jj - 1)
  }

  /** The bytes of each block of a row are bytes of the row. */
  lemma {:induction false} BlockAtCovered(b: Block420, stride: int, n: nat, jj: nat, a: Ptr)
    requires jj < n && BlockCovers(BlockAt(b, stride, jj), a)
    ensures RowBlocksCover(b, stride, n, a)
    decreases jj
  {
    if jj > 0 {
      BlockAtCovered(b.Next(stride), stride, n - 1, jj - 1, a);
    }
  }

  /** The first block of a row reads only bytes no block of the row stores to. */
  lemma RowFirstApart(f: BitmapFormat, b: Block420, stride: int, su: Quad, sd: Quad, n: nat)
    requires f.IsNormal() && n > 0 && RowReadsApart(f, b, stride, su, sd, n)
    ensures BlockReadsApart(f, b, su, sd)
  {
    forall a | Covers(f, su, a) || Covers(f, Advance(f, su), a) || Covers(f, sd, a) || Covers(f, Advance(f, sd), a)
      ensures !BlockCovers(b, a)
    {
      assert RowCovers(f, su, 2 * n, a) || RowCovers(f, sd, 2 * n, a) by {
        assert RowCovers(f, Advance(f, su), 2 * n - 1, a) || RowCovers(f, Advance(f, sd), 2 * n - 1, a) || Covers(f, su, a) || Covers(f, sd, a);
      }
    }
  }

  /** The rest of a row after its first block reads only bytes the rest stores nothing to. */
  lemma RowRestApart(f: BitmapFormat, b: Block420, stride: int, su: Quad, sd: Quad, n: nat)
    requires f.IsNormal() && n > 0 && RowReadsApart(f, b, stride, su, sd, n)
    ensures RowReadsApart(f, b.Next(stride), stride, Advance(f, Advance(f, su)), Advance(f, Advance(f, sd)), n - 1)
  {
    var su2, sd2, w := Advance(f, Advance(f, su)), Advance(f, Advance(f, sd)), 2 * (n - 1);
    forall a | RowCovers(f, su2, w, a) ensures !RowBlocksCover(b.Next(stride), stride, n - 1, a) {
      assert RowCovers(f, Advance(f, su), 2 * n - 1, a);
      assert RowCovers(f, su, 2 * n, a);
    }
    forall a | RowCovers(f, sd2, w, a) ensures !RowBlocksCover(b.Next(stride), stride, n - 1, a) {
      assert RowCovers(f, Advance(f, sd), 2 * n - 1, a);
      assert RowCovers(f, sd, 2 * n, a);
    }
  }

  /** Converting the first block of a row leaves the source pixels of the row as they were. */
  lemma RowFirstSpares(tp: Proc, sa: Sampling, f: BitmapFormat, m: seq<Byte>, b: Block420, stride: int, su: Quad, sd: Quad, n: nat, k: nat)
    requires f.IsNormal() && n > 0 && k < 2 * n && RowReadsApart(f, b, stride, su, sd, n)
    ensures SameSample(f, Along(f, su, k), m, PoolBlock(tp, sa, f, m, b, su, sd))
    ensures SameSample(f, Along(f, sd, k), m, PoolBlock(tp, sa, f, m, b, su, sd))
  {
    var m1 := PoolBlock(tp, sa, f, m, b, su, sd);
    RowHolds(|m|, f, su, 2 * n, k);
    RowHolds(|m|, f, sd, 2 * n, k);
    forall a | (Covers(f, Along(f, su, k), a) || Covers(f, Along(f, sd, k), a)) && 0 <= a < |m| ensures m[a] == m1[a] {
      assert !RowBlocksCover(b, stride, n, a);
      PoolBlockFrame(tp, sa, f, m, b, su, sd, a);
    }
  }

  /** After a row of blocks is converted, each block holds its pixels' Y values and chroma
      means as they were before the row: no two blocks share a byte and no byte read is a
      byte stored to. */
  lemma {:induction false} PoolRowContent(tp: Proc, sa: Sampling, f: BitmapFormat, m: seq<Byte>, b: Block420, stride: int, su: Quad, sd: Quad, n: nat, jj: nat)
    requires f.IsNormal() && Lawful(tp, f) && jj < n
    requires RowReadable(|m|, b, stride, n) && RowBlocksSeparated(b, stride, n) && RowReadsApart(f, b, stride, su, sd, n)
    ensures BlockHolds(tp, sa, f, m, Along(f, su, 2 * jj), Along(f, sd, 2 * jj), BlockAt(b, stride, jj), PoolRow(tp, sa, f, m, b, stride, su, sd, n))
    decreases n, 2
  {
    if jj == 0 {
      PoolRowContentFirst(tp, sa, f, m, b, stride, su, sd, n);
    } else {
      PoolRowContentLater(tp, sa, f, m, b, stride, su, sd, n, jj);
    }
  }

  /** `PoolRowContent` for the first block of the row: later blocks store elsewhere. */
  lemma PoolRowContentFirst(tp: Proc, sa: Sampling, f: BitmapFormat, m: seq<Byte>, b: Block420, stride: int, su: Quad, sd: Quad, n: nat)
    requires f.IsNormal() && Lawful(tp, f) && 0 < n
    requires RowReadable(|m|, b, stride, n) && RowBlocksSeparated(b, stride, n) && RowReadsApart(f, b, stride, su, sd, n)
    ensures BlockHolds(tp, sa, f, m, su, sd, b, PoolRow(tp, sa, f, m, b, stride, su, sd, n))
  {
    var m1 := PoolBlock(tp, sa, f, m, b, su, sd);
    var b', su2, sd2 := b.Next(stride), Advance(f, Advance(f, su)), Advance(f, Advance(f, sd));
    var r := PoolRow(tp, sa, f, m1, b', stride, su2, sd2, n - 1);
    PoolRowStep(tp, sa, f, m, b, stride, su, sd, n);
    RowFirstApart(f, b, stride, su, sd, n);
    PoolBlockContent(tp, sa, f, m, b, su, sd);
    forall a | BlockCovers(b, a) ensures Peek(r, a) == Peek(m1, a) {
      RowFirstOwn(b, stride, n, a);
      PoolRowFrame(tp, sa, f, m1, b', stride, su2, sd2, n - 1, a);
    }
    BlockHoldsAfter(tp, sa, f, m, su, sd, b, m1, r);
  }

  /** No later block of a separated row stores to a byte of its first block. */
  lemma RowFirstOwn(b: Block420, stride: int, n: nat, a: Ptr)
    requires n > 0 && RowBlocksSeparated(b, stride, n) && BlockCovers(b, a)
    ensures !RowBlocksCover(b.Next(stride), stride, n - 1, a)
  {
  }

  /** `PoolRowContent` for a later block of the row: the first block stores no byte that
      block reads. */
  lemma {:induction false} PoolRowContentLater(tp: Proc, sa: Sampling, f: BitmapFormat, m: seq<Byte>, b: Block420, stride: int, su: Quad, sd: Quad, n: nat, jj: nat)
    requires f.IsNormal() && Lawful(tp, f) && 0 < jj < n
    requires RowReadable(|m|, b, stride, n) && RowBlocksSeparated(b, stride, n) && RowReadsApart(f, b, stride, su, sd, n)
    ensures BlockHolds(tp, sa, f, m, Along(f, su, 2 * jj), Along(f, sd, 2 * jj), BlockAt(b, stride, jj), PoolRow(tp, sa, f, m, b, stride, su, sd, n))
    decreases n, 1
  {
    var m1 := PoolBlock(tp, sa, f, m, b, su, sd);
    var r := PoolRow(tp, sa, f, m1, b.Next(stride), stride, Advance(f, Advance(f, su)), Advance(f, Advance(f, sd)), n - 1);
    assert PoolRow(tp, sa, f, m, b, stride, su, sd, n) == r by {
      PoolRowStep(tp, sa, f, m, b, stride, su, sd, n);
    }
    assert SameSample(f, Along(f, su, 2 * jj), m, m1) && SameSample(f, Along(f, su, 2 * jj + 1), m, m1)
        && SameSample(f, Along(f, sd, 2 * jj), m, m1) && SameSample(f, Along(f, sd, 2 * jj + 1), m, m1) by {
      RowFirstSpares(tp, sa, f, m, b, stride, su, sd, n, 2 * jj);
      RowFirstSpares(tp, sa, f, m, b, stride, su, sd, n, 2 * jj + 1);
    }
    PoolRowRestContent(tp, sa, f, m1, b, stride, su, sd, n, jj);
    RowLaterCarry(tp, sa, f, m, m1, r, b, stride, su, sd, jj);
  }

  /** The blocks of a row after the first, converted over any memory `m1` (the memory the
      first block leaves), hold their pixels' values as they are in `m1`. */
  lemma {:induction false} PoolRowRestContent(tp: Proc, sa: Sampling, f: BitmapFormat, m1: seq<Byte>, b: Block420, stride: int, su: Quad, sd: Quad, n: nat, jj: nat)
    requires f.IsNormal() && Lawful(tp, f) && 0 < jj < n
    requires RowReadable(|m1|, b, stride, n) && RowBlocksSeparated(b, stride, n) && RowReadsApart(f, b, stride, su, sd, n)
    ensures var su2, sd2 := Advance(f, Advance(f, su)), Advance(f, Advance(f, sd));
      BlockHolds(tp, sa, f, m1, Along(f, su2, 2 * (jj - 1)), Along(f, sd2, 2 * (jj - 1)), BlockAt(b.Next(stride), stride, jj - 1),
                 PoolRow(tp, sa, f, m1, b.Next(stride), stride, su2, sd2, n - 1))
    decreases n, 0
  {
    RowRestApart(f, b, stride, su, sd, n);
    PoolRowContent(tp, sa, f, m1, b.Next(stride), stride, Advance(f, Advance(f, su)), Advance(f, Advance(f, sd)), n - 1, jj - 1);
  }

  /** What block `jj - 1` of the row after the first block holds, stated from the memory
      after the first block, is what block `jj` of the row holds, stated from the memory
      before it, when the first block left the pixels of block `jj` alone. */
  lemma RowLaterCarry(tp: Proc, sa: Sampling, f: BitmapFormat, m: seq<Byte>, m1: seq<Byte>, r: seq<Byte>,
                      b: Block420, stride: int, su: Quad, sd: Quad, jj: nat)
    requires f.IsNormal() && Lawful(tp, f) && 0 < jj
    requires BlockHolds(tp, sa, f, m1, Along(f, Advance(f, Advance(f, su)), 2 * (jj - 1)), Along(f, Advance(f, Advance(f, sd)), 2 * (jj - 1)),
                        BlockAt(b.Next(stride), stride, jj - 1), r)
    requires SameSample(f, Along(f, su, 2 * jj), m, m1) && SameSample(f, Along(f, su, 2 * jj + 1), m, m1)
    requires SameSample(f, Along(f, sd, 2 * jj), m, m1) && SameSample(f, Along(f, sd, 2 * jj + 1), m, m1)
    ensures BlockHolds(tp, sa, f, m, Along(f, su, 2 * jj), Along(f, sd, 2 * jj), BlockAt(b, stride, jj), r)
  {
    var su2, sd2 := Advance(f, Advance(f, su)), Advance(f, Advance(f, sd));
    assert Along(f, su, 2 * jj) == Along(f, Advance(f, su), 2 * jj - 1) == Along(f, su2, 2 * (jj - 1));
    assert Along(f, sd, 2 * jj) == Along(f, Advance(f, sd), 2 * jj - 1) == Along(f, sd2, 2 * (jj - 1));
    AlongNext(f, su, 2 * jj);
    AlongNext(f, sd, 2 * jj);
    BlockHoldsBefore(tp, sa, f, m, m1, Along(f, su, 2 * jj), Along(f, sd, 2 * jj), BlockAt(b, stride, jj), r);
  }

  // ----- The grid of blocks -----

  /** Block `i` of block row `j`: the luma bytes of its upper and lower left pixels
      `(2i, 2j)` and `(2i, 2j+1)`, and its chroma bytes. */
  function GridBlock(s: Planes420, i: nat, j: nat): Block420 {
    Block420(LumaAt(s, 2 * i, 2 * j), LumaAt(s, 2 * i, 2 * j + 1), UAt(s, 2 * i, 2 * j), VAt(s, 2 * i, 2 * j))
  }

  /** No two blocks of the `w2` by `h2` grid share a byte, and each block's six bytes are
      different. */
  ghost predicate GridSeparated(s: Planes420, w2: nat, h2: nat) {
    (forall i: nat, j: nat :: i < w2 && j < h2 ==> BlockSeparated(GridBlock(s, i, j)))
    && (forall i: nat, j: nat, i': nat, j': nat, a ::
          i < w2 && j < h2 && i' < w2 && j' < h2 && (i != i' || j != j') && BlockCovers(GridBlock(s, i, j), a)
          ==> !BlockCovers(GridBlock(s, i', j'), a))
  }

  /** Block `jj` of a row is `jj` blocks along from its first block. */
  lemma {:induction false} BlockAtSteps(b: Block420, stride: int, jj: nat)
    ensures BlockAt(b, stride, jj) == Block420(b.yu + 2 * jj, b.yd + 2 * jj, Steps(b.u, stride, jj), Steps(b.v, stride, jj))
    decreases jj
  {
    if jj > 0 {
      BlockAtSteps(b.Next(stride), stride, jj - 1);
      StepsShift(b.u, stride, jj - 1);
      StepsShift(b.v, stride, jj - 1);
    }
  }

  /** Block `jj` of the row that starts at block `k` is block `k + jj`. */
  lemma {:induction false} BlockAtAdd(b: Block420, stride: int, k: nat, jj: nat)
    ensures BlockAt(BlockAt(b, stride, k), stride, jj) == BlockAt(b, stride, k + jj)
    decreases k
  {
    if k > 0 {
      BlockAtAdd(b.Next(stride), stride, k - 1, jj);
    }
  }

  /** Block `i` of the first block row is block `(i, 0)` of the grid. */
  lemma FirstRowBlock(s: Planes420, i: nat)
    ensures BlockAt(s.First(), s.stride, i) == GridBlock(s, i, 0)
  {
    BlockAtSteps(s.First(), s.stride, i);
    assert Steps(s.y, s.yPitch, 1) == s.y + s.yPitch;
  }

  /** Block `(i, j)` of the planes from the next block row on is block `(i, j + 1)`. */
  lemma GridBelow(s: Planes420, i: nat, j: nat)
    ensures GridBlock(s.Below(), i, j) == GridBlock(s, i, j + 1)
  {
    PlanesBelow(s, 2 * i, 2 * j);
    PlanesBelow(s, 2 * i, 2 * j + 1);
  }

  /** A byte of a row of blocks is a byte of one of its blocks. */
  lemma {:induction false} RowCoverWhich(b: Block420, stride: int, n: nat, a: Ptr) returns (jj: nat)
    requires RowBlocksCover(b, stride, n, a)
    ensures jj < n && BlockCovers(BlockAt(b, stride, jj), a)
    decreases n
  {
    if BlockCovers(b, a) {
      jj := 0;
    } else {
      var k := RowCoverWhich(b.Next(stride), stride, n - 1, a);
      jj := k + 1;
    }
  }

  /** A byte the grid stores to is a byte of one of its blocks. */
  lemma {:induction false} PlanesCoverWhich(s: Planes420, w2: nat, h2: nat, a: Ptr) returns (i: nat, j: nat)
    requires PlanesCover(s, w2, h2, a)
    ensures i < w2 && j < h2 && BlockCovers(GridBlock(s, i, j), a)
    decreases h2
  {
    if RowBlocksCover(s.First(), s.stride, w2, a) {
      i := RowCoverWhich(s.First(), s.stride, w2, a);
      j := 0;
      FirstRowBlock(s, i);
    } else {
      var j';
      i, j' := PlanesCoverWhich(s.Below(), w2, h2 - 1, a);
      j := j' + 1;
      GridBelow(s, i, j');
    }
  }

  /** Each byte of each block of the grid is a byte the grid stores to. */
  lemma {:induction false} GridCovered(s: Planes420, w2: nat, h2: nat, i: nat, j: nat, a: Ptr)
    requires i < w2 && j < h2 && BlockCovers(GridBlock(s, i, j), a)
    ensures PlanesCover(s, w2, h2, a)
    decreases j
  {
    if j == 0 {
      FirstRowBlock(s, i);
      BlockAtCovered(s.First(), s.stride, w2, i, a);
    } else {
      GridBelow(s, i, j - 1);
      GridCovered(s.Below(), w2, h2 - 1, i, j - 1, a);
    }
  }

  /** Block `i + 1` on of the first block row store to no byte of block `i`. */
  lemma RowLaterAvoid(s: Planes420, w2: nat, h2: nat, k: nat, a: Ptr)
    requires k < w2 && 0 < h2 && GridSeparated(s, w2, h2) && BlockCovers(GridBlock(s, k, 0), a)
    ensures !RowBlocksCover(BlockAt(s.First(), s.stride, k + 1), s.stride, w2 - k - 1, a)
  {
    if RowBlocksCover(BlockAt(s.First(), s.stride, k + 1), s.stride, w2 - k - 1, a) {
      var jj := RowCoverWhich(BlockAt(s.First(), s.stride, k + 1), s.stride, w2 - k - 1, a);
      BlockAtAdd(s.First(), s.stride, k + 1, jj);
      FirstRowBlock(s, k + 1 + jj);
      assert false;
    }
  }

  /** The first block row of a separated grid, from its block `k` on, is separated. */
  lemma {:induction false} RowSeparatedFrom(s: Planes420, w2: nat, h2: nat, k: nat)
    requires k <= w2 && 0 < h2 && GridSeparated(s, w2, h2)
    ensures RowBlocksSeparated(BlockAt(s.First(), s.stride, k), s.stride, w2 - k)
    decreases w2 - k
  {
    if k < w2 {
      var b := BlockAt(s.First(), s.stride, k);
      FirstRowBlock(s, k);
      BlockAtAdd(s.First(), s.stride, k, 1);
      assert b.Next(s.stride) == BlockAt(s.First(), s.stride, k + 1);
      assert BlockCovers(b, b.yu) && BlockCovers(b, b.yu + 1) && BlockCovers(b, b.yd) && BlockCovers(b, b.yd + 1);
      assert BlockCovers(b, b.u) && BlockCovers(b, b.v);
      RowLaterAvoid(s, w2, h2, k, b.yu);
      RowLaterAvoid(s, w2, h2, k, b.yu + 1);
      RowLaterAvoid(s, w2, h2, k, b.yd);
      RowLaterAvoid(s, w2, h2, k, b.yd + 1);
      RowLaterAvoid(s, w2, h2, k, b.u);
      RowLaterAvoid(s, w2, h2, k, b.v);
      RowSeparatedFrom(s, w2, h2, k + 1);
    }
  }

  /** The grid from the next block row on is separated when the grid is. */
  lemma GridBelowSeparated(s: Planes420, w2: nat, h2: nat)
    requires 0 < h2 && GridSeparated(s, w2, h2)
    ensures GridSeparated(s.Below(), w2, h2 - 1)
  {
    forall i: nat, j: nat | i < w2 && j < h2 - 1 ensures BlockSeparated(GridBlock(s.Below(), i, j)) {
      GridBelow(s, i, j);
    }
    forall i: nat, j: nat, i': nat, j': nat, a |
      i < w2 && j < h2 - 1 && i' < w2 && j' < h2 - 1 && (i != i' || j != j') && BlockCovers(GridBlock(s.Below(), i, j), a)
      ensures !BlockCovers(GridBlock(s.Below(), i', j'), a)
    {
      GridBelow(s, i, j);
      GridBelow(s, i', j');
    }
  }

  /** No block row below the first stores to a byte of the first. */
  lemma FirstRowOwn(s: Planes420, w2: nat, h2: nat, a: Ptr)
    requires 0 < h2 && GridSeparated(s, w2, h2) && RowBlocksCover(s.First(), s.stride, w2, a)
    ensures !PlanesCover(s.Below(), w2, h2 - 1, a)
  {
    var i := RowCoverWhich(s.First(), s.stride, w2, a);
    FirstRowBlock(s, i);
    if PlanesCover(s.Below(), w2, h2 - 1, a) {
      var i', j' := PlanesCoverWhich(s.Below(), w2, h2 - 1, a);
      GridBelow(s, i', j');
      assert false;
    }
  }

  // ----- What the whole rectangle stores -----

  /** The first two source rows read nothing the first block row stores to. */
  lemma FirstRowReadsApart(src: Image, s: Planes420, w2: nat, h2: nat)
    requires src.format.IsNormal() && 0 < h2 && ImageReadsApart(src, s, w2, h2)
    ensures RowReadsApart(src.format, s.First(), s.stride, src.rows, src.Below().rows, w2)
  {
    forall a | RowCovers(src.format, src.rows, 2 * w2, a) || RowCovers(src.format, src.Below().rows, 2 * w2, a)
      ensures !RowBlocksCover(s.First(), s.stride, w2, a)
    {
      if RowCovers(src.format, src.Below().rows, 2 * w2, a) {
        assert ImageCovers(src.Below(), 2 * w2, 2 * h2 - 1, a);
      }
      assert ImageCovers(src, 2 * w2, 2 * h2, a);
      assert RowBlocksCover(s.First(), s.stride, w2, a) ==> PlanesCover(s, w2, h2, a);
    }
  }

  /** The rest of the rectangle reads nothing the rest of the grid stores to. */
  lemma RestReadsApart(src: Image, s: Planes420, w2: nat, h2: nat)
    requires src.format.IsNormal() && 0 < h2 && ImageReadsApart(src, s, w2, h2)
    ensures ImageReadsApart(src.Below().Below(), s.Below(), w2, h2 - 1)
  {
    var h := 2 * (h2 - 1);
    forall a | ImageCovers(src.Below().Below(), 2 * w2, h, a) ensures !PlanesCover(s.Below(), w2, h2 - 1, a) {
      ImageCoversRest(src, 2 * w2, h2, a);
    }
  }

  /** The first block row leaves the source pixels of the rectangle as they are. */
  lemma FirstRowSpares(tp: Proc, sa: Sampling, m: seq<Byte>, src: Image, s: Planes420, w2: nat, h2: nat, x: nat, y: nat)
    requires src.format.IsNormal() && 0 < h2 && x < 2 * w2 && y < 2 * h2 && ImageReadsApart(src, s, w2, h2)
    ensures SameSample(src.format, PixelAt(src, x, y), m,
                       PoolRow(tp, sa, src.format, m, s.First(), s.stride, src.rows, src.Below().rows, w2))
  {
    var f := src.format;
    var m1 := PoolRow(tp, sa, f, m, s.First(), s.stride, src.rows, src.Below().rows, w2);
    PixelHolds(0, src, 2 * w2, 2 * h2, x, y);
    forall a | Covers(f, PixelAt(src, x, y), a) && 0 <= a < |m| ensures m[a] == m1[a] {
      PoolRowFrame(tp, sa, f, m, s.First(), s.stride, src.rows, src.Below().rows, w2, a);
    }
  }

  /** After the rectangle is converted, each block of the grid holds the Y values of its
      four source pixels and the means of their U and V values, as the pixels were before:
      no two blocks share a byte and no byte read is a byte stored to. */
  lemma {:induction false} PoolImageContent(tp: Proc, sa: Sampling, m: seq<Byte>, src: Image, s: Planes420, w2: nat, h2: nat, i: nat, j: nat)
    requires src.format.IsNormal() && Lawful(tp, src.format) && i < w2 && j < h2
    requires PlanesReadable(|m|, s, w2, h2) && GridSeparated(s, w2, h2) && ImageReadsApart(src, s, w2, h2)
    ensures BlockHolds(tp, sa, src.format, m, PixelAt(src, 2 * i, 2 * j), PixelAt(src, 2 * i, 2 * j + 1), GridBlock(s, i, j),
                       PoolImage(tp, sa, m, src, s, w2, h2))
    decreases h2, 2
  {
    if j == 0 {
      PoolImageContentFirst(tp, sa, m, src, s, w2, h2, i);
    } else {
      PoolImageContentLater(tp, sa, m, src, s, w2, h2, i, j);
    }
  }

  /** `PoolImageContent` for a block of the first block row. */
  lemma PoolImageContentFirst(tp: Proc, sa: Sampling, m: seq<Byte>, src: Image, s: Planes420, w2: nat, h2: nat, i: nat)
    requires src.format.IsNormal() && Lawful(tp, src.format) && i < w2 && 0 < h2
    requires PlanesReadable(|m|, s, w2, h2) && GridSeparated(s, w2, h2) && ImageReadsApart(src, s, w2, h2)
    ensures BlockHolds(tp, sa, src.format, m, PixelAt(src, 2 * i, 0), PixelAt(src, 2 * i, 1), GridBlock(s, i, 0),
                       PoolImage(tp, sa, m, src, s, w2, h2))
  {
    var f := src.format;
    var m1 := PoolRow(tp, sa, f, m, s.First(), s.stride, src.rows, src.Below().rows, w2);
    var r := PoolImage(tp, sa, m1, src.Below().Below(), s.Below(), w2, h2 - 1);
    assert r == PoolImage(tp, sa, m, src, s, w2, h2);
    FirstRowReadsApart(src, s, w2, h2);
    RowSeparatedFrom(s, w2, h2, 0);
    PoolRowContent(tp, sa, f, m, s.First(), s.stride, src.rows, src.Below().rows, w2, i);
    assert RowStart(src, 1) == src.Below().rows;
    FirstRowBlock(s, i);
    var b := GridBlock(s, i, 0);
    forall a | BlockCovers(b, a) ensures Peek(r, a) == Peek(m1, a) {
      BlockAtCovered(s.First(), s.stride, w2, i, a);
      FirstRowOwn(s, w2, h2, a);
      PoolImageFrame(tp, sa, m1, src.Below().Below(), s.Below(), w2, h2 - 1, a);
    }
    BlockHoldsAfter(tp, sa, f, m, PixelAt(src, 2 * i, 0), PixelAt(src, 2 * i, 1), b, m1, r);
  }

  /** `PoolImageContent` for a block below the first block row. */
  lemma {:induction false} PoolImageContentLater(tp: Proc, sa: Sampling, m: seq<Byte>, src: Image, s: Planes420, w2: nat, h2: nat, i: nat, j: nat)
    requires src.format.IsNormal() && Lawful(tp, src.format) && i < w2 && 0 < j < h2
    requires PlanesReadable(|m|, s, w2, h2) && GridSeparated(s, w2, h2) && ImageReadsApart(src, s, w2, h2)
    ensures BlockHolds(tp, sa, src.format, m, PixelAt(src, 2 * i, 2 * j), PixelAt(src, 2 * i, 2 * j + 1), GridBlock(s, i, j),
                       PoolImage(tp, sa, m, src, s, w2, h2))
    decreases h2, 1
  {
    var m1 := PoolRow(tp, sa, src.format, m, s.First(), s.stride, src.rows, src.Below().rows, w2);
    var r := PoolImage(tp, sa, m1, src.Below().Below(), s.Below(), w2, h2 - 1);
    assert r == PoolImage(tp, sa, m, src, s, w2, h2);
    PoolImageRestContent(tp, sa, m1, src, s, w2, h2, i, j);
    FirstRowSparesBlock(tp, sa, m, src, s, w2, h2, i, j);
    ImageLaterCarry(tp, sa, m, m1, r, src, s, i, j);
  }

  /** The block rows after the first, converted over any memory `m1` (the memory the first
      block row leaves), hold their pixels' values as they are in `m1`. */
  lemma {:induction false} PoolImageRestContent(tp: Proc, sa: Sampling, m1: seq<Byte>, src: Image, s: Planes420, w2: nat, h2: nat, i: nat, j: nat)
    requires src.format.IsNormal() && Lawful(tp, src.format) && i < w2 && 0 < j < h2
    requires PlanesReadable(|m1|, s, w2, h2) && GridSeparated(s, w2, h2) && ImageReadsApart(src, s, w2, h2)
    ensures BlockHolds(tp, sa, src.format, m1, PixelAt(src.Below().Below(), 2 * i, 2 * (j - 1)),
                       PixelAt(src.Below().Below(), 2 * i, 2 * (j - 1) + 1), GridBlock(s.Below(), i, j - 1),
                       PoolImage(tp, sa, m1, src.Below().Below(), s.Below(), w2, h2 - 1))
    decreases h2, 0
  {
    GridBelowSeparated(s, w2, h2);
    RestReadsApart(src, s, w2, h2);
    PoolImageContent(tp, sa, m1, src.Below().Below(), s.Below(), w2, h2 - 1, i, j - 1);
  }

  /** The first block row leaves the four source pixels of block `(i, j)` alone. */
  lemma FirstRowSparesBlock(tp: Proc, sa: Sampling, m: seq<Byte>, src: Image, s: Planes420, w2: nat, h2: nat, i: nat, j: nat)
    requires src.format.IsNormal() && i < w2 && j < h2 && ImageReadsApart(src, s, w2, h2)
    ensures var m1 := PoolRow(tp, sa, src.format, m, s.First(), s.stride, src.rows, src.Below().rows, w2);
      SameSample(src.format, PixelAt(src, 2 * i, 2 * j), m, m1) && SameSample(src.format, PixelAt(src, 2 * i + 1, 2 * j), m, m1)
      && SameSample(src.format, PixelAt(src, 2 * i, 2 * j + 1), m, m1) && SameSample(src.format, PixelAt(src, 2 * i + 1, 2 * j + 1), m, m1)
  {
    FirstRowSpares(tp, sa, m, src, s, w2, h2, 2 * i, 2 * j);
    FirstRowSpares(tp, sa, m, src, s, w2, h2, 2 * i + 1, 2 * j);
    FirstRowSpares(tp, sa, m, src, s, w2, h2, 2 * i, 2 * j + 1);
    FirstRowSpares(tp, sa, m, src, s, w2, h2, 2 * i + 1, 2 * j + 1);
  }

  /** What block `(i, j - 1)` of the grid below the first block row holds, stated from the
      memory after the first block row, is what block `(i, j)` holds, stated from the
      memory before it, when the first block row left its four pixels alone. */
  lemma ImageLaterCarry(tp: Proc, sa: Sampling, m: seq<Byte>, m1: seq<Byte>, r: seq<Byte>, src: Image, s: Planes420, i: nat, j: nat)
    requires src.format.IsNormal() && Lawful(tp, src.format) && 0 < j
    requires BlockHolds(tp, sa, src.format, m1, PixelAt(src.Below().Below(), 2 * i, 2 * (j - 1)),
                        PixelAt(src.Below().Below(), 2 * i, 2 * (j - 1) + 1), GridBlock(s.Below(), i, j - 1), r)
    requires SameSample(src.format, PixelAt(src, 2 * i, 2 * j), m, m1) && SameSample(src.format, PixelAt(src, 2 * i + 1, 2 * j), m, m1)
    requires SameSample(src.format, PixelAt(src, 2 * i, 2 * j + 1), m, m1) && SameSample(src.format, PixelAt(src, 2 * i + 1, 2 * j + 1), m, m1)
    ensures BlockHolds(tp, sa, src.format, m, PixelAt(src, 2 * i, 2 * j), PixelAt(src, 2 * i, 2 * j + 1), GridBlock(s, i, j), r)
  {
    var f := src.format;
    ImageBelow(src, 2 * i, 2 * (j - 1));
    ImageBelow(src, 2 * i, 2 * (j - 1) + 1);
    GridBelow(s, i, j - 1);
    AlongNext(f, RowStart(src, 2 * j), 2 * i);
    AlongNext(f, RowStart(src, 2 * j + 1), 2 * i);
    BlockHoldsBefore(tp, sa, f, m, m1, PixelAt(src, 2 * i, 2 * j), PixelAt(src, 2 * i, 2 * j + 1), GridBlock(s, i, j), r);
  }

  // ----- Pixel by pixel -----

  /** After the rectangle is converted, the Y byte of each pixel holds that pixel's Y
      value as the source held it. */
  lemma PoolImageLuma(tp: Proc, sa: Sampling, m: seq<Byte>, src: Image, s: Planes420, w2: nat, h2: nat, x: nat, y: nat)
    requires src.format.IsNormal() && Lawful(tp, src.format) && x < 2 * w2 && y < 2 * h2
    requires PlanesReadable(|m|, s, w2, h2) && GridSeparated(s, w2, h2) && ImageReadsApart(src, s, w2, h2)
    ensures Peek(PoolImage(tp, sa, m, src, s, w2, h2), LumaAt(s, x, y)) == PixelYuv(tp, sa, m, PixelAt(src, x, y)).0
  {
    var i, j := x / 2, y / 2;
    var r := PoolImage(tp, sa, m, src, s, w2, h2);
    PoolImageContent(tp, sa, m, src, s, w2, h2, i, j);
    var cu, cd := PixelAt(src, 2 * i, 2 * j), PixelAt(src, 2 * i, 2 * j + 1);
    BlockHoldsLuma(tp, sa, src.format, m, cu, cd, GridBlock(s, i, j), r);
    PixelCorner(src, s, x, y);
  }

  /** Pixel (`x`, `y`) is corner `2 * (y % 2) + x % 2` of block (`x / 2`, `y / 2`), in the
      source and in the target. */
  lemma PixelCorner(src: Image, s: Planes420, x: nat, y: nat)
    requires src.format.IsNormal()
    ensures var i, j, k := x / 2, y / 2, 2 * (y % 2) + x % 2;
      k < 4 && LumaAt(s, x, y) == LumaOf(GridBlock(s, i, j), k)
      && PixelAt(src, x, y) == CornerOf(src.format, PixelAt(src, 2 * i, 2 * j), PixelAt(src, 2 * i, 2 * j + 1), k)
  {
    var i, j, k := x / 2, y / 2, 2 * (y % 2) + x % 2;
    assert LumaAt(s, x, y) == LumaOf(GridBlock(s, i, j), k);
    AlongNext(src.format, RowStart(src, 2 * j), 2 * i);
    AlongNext(src.format, RowStart(src, 2 * j + 1), 2 * i);
  }

  /** What a block holds, pixel by pixel in visiting order. */
  lemma BlockHoldsLuma(tp: Proc, sa: Sampling, f: BitmapFormat, m: seq<Byte>, su: Quad, sd: Quad, b: Block420, r: seq<Byte>)
    requires f.IsNormal() && BlockHolds(tp, sa, f, m, su, sd, b, r)
    ensures forall k :: 0 <= k < 4 ==> Peek(r, LumaOf(b, k)) == PixelYuv(tp, sa, m, CornerOf(f, su, sd, k)).0
  {
  }

  /** After the rectangle is converted, the U and V bytes of each block hold the means,
      rounded down, of the U and V values of its four pixels as the source held them. */
  lemma PoolImageChroma(tp: Proc, sa: Sampling, m: seq<Byte>, src: Image, s: Planes420, w2: nat, h2: nat, i: nat, j: nat)
    requires src.format.IsNormal() && Lawful(tp, src.format) && i < w2 && j < h2
    requires PlanesReadable(|m|, s, w2, h2) && GridSeparated(s, w2, h2) && ImageReadsApart(src, s, w2, h2)
    ensures var r := PoolImage(tp, sa, m, src, s, w2, h2);
      var p0, p1 := PixelYuv(tp, sa, m, PixelAt(src, 2 * i, 2 * j)), PixelYuv(tp, sa, m, PixelAt(src, 2 * i + 1, 2 * j));
      var p2, p3 := PixelYuv(tp, sa, m, PixelAt(src, 2 * i, 2 * j + 1)), PixelYuv(tp, sa, m, PixelAt(src, 2 * i + 1, 2 * j + 1));
      Peek(r, UAt(s, 2 * i, 2 * j)) == Mean4(p0.1, p1.1, p2.1, p3.1) && Peek(r, VAt(s, 2 * i, 2 * j)) == Mean4(p0.2, p1.2, p2.2, p3.2)
  {
    PoolImageContent(tp, sa, m, src, s, w2, h2, i, j);
    AlongNext(src.format, RowStart(src, 2 * j), 2 * i);
    AlongNext(src.format, RowStart(src, 2 * j + 1), 2 * i);
  }

  // ----- Choosing the codec -----

  /** What a conversion of a normal-format rectangle into the Y, U, V views `cb` needs of
      memory: every source sample and the bytes of every block lie in it. */
  predicate DownsampleFits(mn: nat, src: Image, cb: seq<ColorComponentBuffer>, width: nat, height: nat) {
    |cb| == 3 && src.format.IsNormal() ==>
      PlanesReadable(mn, PlanesOf(cb), width / 2, height / 2)
      && ImageIn(mn, TwinImage(src), 2 * (width / 2), 2 * (height / 2))
  }

  /** How the source's colours are taken: as Y, U, V values for a source in YUV colour
      space, converted from RGB otherwise. */
  function SamplingOf(cv: Conversions, f: BitmapFormat): Sampling {
    Sampling(cv, f.ColorSpaceOf() == SpaceYUV)
  }

  /** Memory after the `width` by `height` rectangle of the normal-format source `src` is
      converted into the 4:2:0 image whose channel views are `cb`: nothing happens unless
      there are exactly the three Y, U, V views and the source has a codec. */
  function Downsampled(cv: Conversions, m: seq<Byte>, src: Image, cb: seq<ColorComponentBuffer>, width: nat, height: nat): (r: seq<Byte>)
    ensures |r| == |m|
  {
    if |cb| != 3 || !src.format.IsNormal() then m
    else
      PoolImage(ProcOf(cv, TwinFormat(src.format)), SamplingOf(cv, src.format), m, TwinImage(src), PlanesOf(cb),
                width / 2, height / 2)
  }

  /** `_BitmapData_copyPixels_YUVToYUV420` and `_BitmapData_copyPixels_OtherToYUV420` with
      their `Step1`: the source format chooses the codec, and the target's Y, U, V views
      give the planes. */
  method CopyToYUV420(mem: array<Byte>, cv: Conversions, width: nat, height: nat, src: Image, dst: BitmapData)
    requires dst.format.IsYUV420() && DownsampleFits(mem.Length, src, ComponentBuffers(dst), width, height)
    modifies mem
    ensures mem[..] == Downsampled(cv, old(mem[..]), src, ComponentBuffers(dst), width, height)
  {
    if !src.format.IsNormal() {
      return;
    }
    var cb := new ColorComponentBuffer[3](_ => ColorComponentBuffer(0, 0, 0, NullPtr, 0));
    var n := GetColorComponentBuffers(dst, cb);
    if n != 3 {
      return;
    }
    assert cb[..] == cb[..n] == ComponentBuffers(dst);
    var raw := src.format.ColorSpaceOf() == SpaceYUV;
    var f := if raw then src.format.CompatibleRGBFormat() else src.format;
    assert f == TwinFormat(src.format);
    Downsample(mem, Sampling(cv, raw), src.(format := f), PlanesOf(cb[..]), width / 2, height / 2, ProcOf(cv, f));
  }

  // ----- What the conversion stores -----

  /** Converting into 4:2:0 views changes no byte outside the blocks' Y, U and V bytes:
      the source, row padding and the rest of memory keep their values; and nothing at
      all changes without exactly three views. */
  lemma DownsampledFrame(cv: Conversions, m: seq<Byte>, src: Image, cb: seq<ColorComponentBuffer>, width: nat, height: nat, a: Ptr)
    requires src.format.IsNormal() && (|cb| == 3 ==> !PlanesCover(PlanesOf(cb), width / 2, height / 2, a))
    ensures Peek(Downsampled(cv, m, src, cb, width, height), a) == Peek(m, a)
  {
    if |cb| == 3 {
      PoolImageFrame(ProcOf(cv, TwinFormat(src.format)), SamplingOf(cv, src.format), m, TwinImage(src), PlanesOf(cb),
                     width / 2, height / 2, a);
    }
  }

  /** The hypotheses of the content lemmas: the blocks lie in memory, no two of them share
      a byte, and no byte of the source rectangle is a byte they store to. */
  ghost predicate DownsampleApart(mn: nat, src: Image, cb: seq<ColorComponentBuffer>, width: nat, height: nat)
    requires |cb| == 3 && src.format.IsNormal()
  {
    var s, w2, h2 := PlanesOf(cb), width / 2, height / 2;
    PlanesReadable(mn, s, w2, h2) && GridSeparated(s, w2, h2) && ImageReadsApart(TwinImage(src), s, w2, h2)
  }

  /** Each pixel's Y byte is the Y value of that source pixel, read through the chosen
      codec. */
  lemma DownsampledLuma(cv: Conversions, m: seq<Byte>, src: Image, cb: seq<ColorComponentBuffer>, width: nat, height: nat, x: nat, y: nat)
    requires src.format.IsNormal() && |cb| == 3 && x < 2 * (width / 2) && y < 2 * (height / 2)
    requires DownsampleApart(|m|, src, cb, width, height)
    ensures Peek(Downsampled(cv, m, src, cb, width, height), LumaAt(PlanesOf(cb), x, y))
            == YuvOf(SamplingOf(cv, src.format), Load(cv, TwinFormat(src.format), m, PixelAt(TwinImage(src), x, y))).0
  {
    var tp := ProcOf(cv, TwinFormat(src.format));
    ImplementsLawful(tp, cv, TwinFormat(src.format));
    PoolImageLuma(tp, SamplingOf(cv, src.format), m, TwinImage(src), PlanesOf(cb), width / 2, height / 2, x, y);
  }

  /** Each block's U and V bytes are the means, rounded down, of the U and V values of its
      four source pixels, read through the chosen codec. */
  lemma DownsampledChroma(cv: Conversions, m: seq<Byte>, src: Image, cb: seq<ColorComponentBuffer>, width: nat, height: nat, i: nat, j: nat)
    requires src.format.IsNormal() && |cb| == 3 && i < width / 2 && j < height / 2
    requires DownsampleApart(|m|, src, cb, width, height)
    ensures var r, s, img, f := Downsampled(cv, m, src, cb, width, height), PlanesOf(cb), TwinImage(src), TwinFormat(src.format);
      var sa := SamplingOf(cv, src.format);
      var p0, p1 := YuvOf(sa, Load(cv, f, m, PixelAt(img, 2 * i, 2 * j))), YuvOf(sa, Load(cv, f, m, PixelAt(img, 2 * i + 1, 2 * j)));
      var p2, p3 := YuvOf(sa, Load(cv, f, m, PixelAt(img, 2 * i, 2 * j + 1))), YuvOf(sa, Load(cv, f, m, PixelAt(img, 2 * i + 1, 2 * j + 1)));
      Peek(r, UAt(s, 2 * i, 2 * j)) == Mean4(p0.1, p1.1, p2.1, p3.1) && Peek(r, VAt(s, 2 * i, 2 * j)) == Mean4(p0.2, p1.2, p2.2, p3.2)
  {
    var tp := ProcOf(cv, TwinFormat(src.format));
    ImplementsLawful(tp, cv, TwinFormat(src.format));
    PoolImageChroma(tp, SamplingOf(cv, src.format), m, TwinImage(src), PlanesOf(cb), width / 2, height / 2, i, j);
  }

  /** A source in RGB or gray colour space is read through its own codec and each pixel's
      Y byte is the Y value of the colour read. */
  lemma DownsampledRgbConverts(cv: Conversions, m: seq<Byte>, src: Image, cb: seq<ColorComponentBuffer>, width: nat, height: nat, x: nat, y: nat)
    requires src.format.IsNormal() && src.format.ColorSpaceOf() != SpaceYUV && |cb| == 3
    requires x < 2 * (width / 2) && y < 2 * (height / 2) && DownsampleApart(|m|, src, cb, width, height)
    ensures var col := Load(cv, src.format, m, PixelAt(src, x, y));
      Peek(Downsampled(cv, m, src, cb, width, height), LumaAt(PlanesOf(cb), x, y)) == cv.rgbToYuv(col.r, col.g, col.b).0
  {
    assert TwinImage(src) == src;
    DownsampledLuma(cv, m, src, cb, width, height, x, y);
  }

  /** A source in YUV colour space with straight alpha has its Y bytes copied unchanged:
      each pixel's Y byte is the first byte of its source sample. */
  lemma DownsampledYuvKeepsLuma(cv: Conversions, m: seq<Byte>, src: Image, cb: seq<ColorComponentBuffer>, width: nat, height: nat, x: nat, y: nat)
    requires src.format.IsNormal() && src.format.ColorSpaceOf() == SpaceYUV && !src.format.IsPrecomputedAlpha() && |cb| == 3
    requires x < 2 * (width / 2) && y < 2 * (height / 2) && DownsampleApart(|m|, src, cb, width, height)
    ensures Peek(Downsampled(cv, m, src, cb, width, height), LumaAt(PlanesOf(cb), x, y)) == Peek(m, PixelAt(TwinImage(src), x, y).p0)
  {
    DownsampledLuma(cv, m, src, cb, width, height, x, y);
    TwinLoadsFirstByte(cv, src.format, m, PixelAt(TwinImage(src), x, y));
  }

  /** The RGB twin of a straight-alpha YUV format reads the first byte of a sample as its
      red channel. */
  lemma TwinLoadsFirstByte(cv: Conversions, f: BitmapFormat, m: seq<Byte>, c: Quad)
    requires f.IsNormal() && f.ColorSpaceOf() == SpaceYUV && !f.IsPrecomputedAlpha()
    ensures Load(cv, TwinFormat(f), m, c).r == Peek(m, c.p0)
  {
    var g := TwinFormat(f);
    assert g == f.CompatibleRGBFormat();
    assert SampleAddrs(g, c)[0] == c.p0;
  }
}
