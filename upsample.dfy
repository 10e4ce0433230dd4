/** Converting a 4:2:0 image (I420, YV12, NV12 or NV21) to a normal format.  The source
    rectangle is walked in 2x2 blocks: block rows top to bottom, blocks left to right and,
    within a block, the upper-left, upper-right, lower-left and lower-right pixel.  Each
    target pixel gets its own luma byte and its block's one pair of chroma bytes, with
    alpha 255.  A target in YUV colour space takes the three bytes as they are, through
    the codec of the RGB format with the same layout; any other target takes them
    converted to RGB.

    `SpreadImage` is the memory this produces, defined step by step in the order the
    stores happen, each pixel's bytes read from memory as the stores before it left it. */
module Upsample420 {
  import opened Memory
  import opened BitmapFormats
  import opened SampleCodecs
  import opened SampleProcs
  import opened CodecLaws
  import opened NormalCopy
  import opened BitmapLayout

  /** The three planes of a 4:2:0 image from a block row on: the luma byte of its first
      pixel with luma rows `yPitch` apart, and the first chroma bytes with chroma rows
      `uPitch` and `vPitch` apart and samples `stride` bytes apart along a row (1 for
      I420 and YV12, 2 for the interleaved NV12 and NV21). */
  datatype Planes420 = Planes420(y: Ptr, yPitch: int, u: Ptr, uPitch: int, v: Ptr, vPitch: int, stride: int) {
    /** The planes from the next block row on: two luma rows and one chroma row down. */
    function Below(): Planes420 {
      this.(y := y + yPitch + yPitch, u := u + uPitch, v := v + vPitch)
    }

    /** The source bytes of the first block of the block row. */
    function First(): Block420 {
      Block420(y, y + yPitch, u, v)
    }
  }

  /** The source bytes of one 2x2 block: the luma bytes of its upper and lower left
      pixels (each right pixel's is the byte after) and its two chroma bytes. */
  datatype Block420 = Block420(yu: Ptr, yd: Ptr, u: Ptr, v: Ptr) {
    /** The next block of the row. */
    function Next(stride: int): Block420 {
      Block420(yu + 2, yd + 2, u + stride, v + stride)
    }
  }

  /** The planes of the Y, U, V channel views: rows and data pointers of each view, and the
      U view's sample stride for both chroma planes. */
  function PlanesOf(cb: seq<ColorComponentBuffer>): (s: Planes420)
    requires |cb| == 3
    ensures s.y == cb[0].data && s.u == cb[1].data && s.v == cb[2].data && s.stride == cb[1].sampleStride
  {
    Planes420(cb[0].data, cb[0].pitch, cb[1].data, cb[1].pitch, cb[2].data, cb[2].pitch, cb[1].sampleStride)
  }

  // ----- Where each pixel's bytes are -----

  /** The address `k` steps of `d` bytes on from `p`. */
  function Steps(p: Ptr, d: int, k: nat): Ptr
    decreases k
  {
    if k == 0 then p else Steps(p, d, k - 1) + d
  }

  /** The luma byte of pixel (x, y). */
  function LumaAt(s: Planes420, x: nat, y: nat): Ptr {
    Steps(s.y, s.yPitch, y) + x
  }

  /** The U byte of the block that holds pixel (x, y). */
  function UAt(s: Planes420, x: nat, y: nat): Ptr {
    Steps(Steps(s.u, s.uPitch, y / 2), s.stride, x / 2)
  }

  /** The V byte of the block that holds pixel (x, y). */
  function VAt(s: Planes420, x: nat, y: nat): Ptr {
    Steps(Steps(s.v, s.vPitch, y / 2), s.stride, x / 2)
  }

  // ----- What the conversion reads -----

  /** The six bytes of a block lie in a memory of `n` bytes. */
  predicate BlockReadable(n: nat, b: Block420) {
    Addressable(n, b.yu) && Addressable(n, b.yu + 1) && Addressable(n, b.yd) && Addressable(n, b.yd + 1)
    && Addressable(n, b.u) && Addressable(n, b.v)
  }

  /** The bytes of `k` consecutive blocks of a row lie in a memory of `n` bytes. */
  predicate RowReadable(n: nat, b: Block420, stride: int, k: nat)
    decreases k
  {
    k == 0 || (BlockReadable(n, b) && RowReadable(n, b.Next(stride), stride, k - 1))
  }

  /** The bytes of a `w2` by `h2` grid of blocks lie in a memory of `n` bytes. */
  predicate PlanesReadable(n: nat, s: Planes420, w2: nat, h2: nat)
    decreases h2
  {
    h2 == 0 || (RowReadable(n, s.First(), s.stride, w2) && PlanesReadable(n, s.Below(), w2, h2 - 1))
  }

  // ----- The conversion, step by step -----

  /** The colour conversions, and whether the target keeps the bytes as they are (a target
      in YUV colour space). */
  datatype Spread = Spread(cv: Conversions, raw: bool)

  /** The colour a target pixel is written with, from its luma and chroma bytes. */
  function Colour(sp: Spread, y: Byte, u: Byte, v: Byte): (r: Rgba)
    ensures r.a == 255
    ensures sp.raw ==> r == Rgba(y, u, v, 255)
    ensures !sp.raw ==> r == FromYuv(sp.cv, y, u, v, 255)
  {
    if sp.raw then Rgba(y, u, v, 255) else FromYuv(sp.cv, y, u, v, 255)
  }

  /** Memory after writing the target sample at `dc` from the bytes at `ya`, `ua`, `va`. */
  function SpreadPixel(tp: Proc, sp: Spread, m: seq<Byte>, ya: Ptr, ua: Ptr, va: Ptr, dc: Quad): (r: seq<Byte>)
    ensures |r| == |m|
  {
    Apply(m, tp.write(dc, Colour(sp, Peek(m, ya), Peek(m, ua), Peek(m, va))))
  }

  /** The luma byte of pixel `k` of block `b`, in visiting order: upper left, upper
      right, lower left, lower right. */
  function LumaOf(b: Block420, k: nat): Ptr {
    if k == 0 then b.yu else if k == 1 then b.yu + 1 else if k == 2 then b.yd else b.yd + 1
  }

  /** The cursors of pixel `k` of a block of a normal-format image whose upper left pixel
      is at `du` and lower left at `dd`, in visiting order. */
  function CornerOf(f: BitmapFormat, du: Quad, dd: Quad, k: nat): Quad
    requires f.IsNormal()
  {
    if k == 0 then du else if k == 1 then Advance(f, du) else if k == 2 then dd else Advance(f, dd)
  }

  /** Memory after writing the rest of `n` consecutive blocks of a row, from pixel `k` of
      the first of them on; `du` and `dd` are that block's upper and lower left target
      cursors.  One pixel is written per step, in the order the stores happen. */
  function SpreadFrom(tp: Proc, sp: Spread, f: BitmapFormat, m: seq<Byte>, b: Block420, stride: int, du: Quad, dd: Quad, n: nat, k: nat): (r: seq<Byte>)
    requires f.IsNormal() && k < 4
    ensures |r| == |m|
    decreases n, 4 - k
  {
    if n == 0 then m
    else
      var m' := SpreadPixel(tp, sp, m, LumaOf(b, k), b.u, b.v, CornerOf(f, du, dd, k));
      if k < 3 then SpreadFrom(tp, sp, f, m', b, stride, du, dd, n, k + 1)
      else SpreadFrom(tp, sp, f, m', b.Next(stride), stride, Advance(f, Advance(f, du)), Advance(f, Advance(f, dd)), n - 1, 0)
  }

  /** Memory after writing `n` consecutive blocks of a row. */
  function SpreadRow(tp: Proc, sp: Spread, f: BitmapFormat, m: seq<Byte>, b: Block420, stride: int, du: Quad, dd: Quad, n: nat): (r: seq<Byte>)
    requires f.IsNormal()
    ensures |r| == |m|
  {
    SpreadFrom(tp, sp, f, m, b, stride, du, dd, n, 0)
  }

  /** Memory after converting a `w2` by `h2` grid of blocks into the `2*w2` by `2*h2`
      rectangle of `dst`, block row by block row. */
  function SpreadImage(tp: Proc, sp: Spread, m: seq<Byte>, s: Planes420, dst: Image, w2: nat, h2: nat): (r: seq<Byte>)
    requires dst.format.IsNormal()
    ensures |r| == |m|
    decreases h2
  {
    if h2 == 0 then m
    else
      var m1 := SpreadRow(tp, sp, dst.format, m, s.First(), s.stride, dst.rows, dst.Below().rows, w2);
      SpreadImage(tp, sp, m1, s.Below(), dst.Below().Below(), w2, h2 - 1)
  }

  // ----- The loops -----

  /** `_YUV420ToYUV_Step1` and `_YUV420ToOther_Step1`: block rows outside, blocks inside,
      four pixels per block. */
  method Upsample(mem: array<Byte>, sp: Spread, s: Planes420, dst: Image, w2: nat, h2: nat, ghost tp: Proc)
    requires dst.format.IsNormal() && Implements(tp, sp.cv, dst.format)
    requires PlanesReadable(mem.Length, s, w2, h2) && ImageIn(mem.Length, dst, 2 * w2, 2 * h2)
    modifies mem
    ensures mem[..] == SpreadImage(tp, sp, old(mem[..]), s, dst, w2, h2)
  {
    var sr, dr := s, dst;
    var i := 0;
    while i < h2
      invariant 0 <= i <= h2 && dr.format == dst.format
      invariant PlanesReadable(mem.Length, sr, w2, h2 - i) && ImageIn(mem.Length, dr, 2 * w2, 2 * (h2 - i))
      invariant SpreadImage(tp, sp, old(mem[..]), s, dst, w2, h2) == SpreadImage(tp, sp, mem[..], sr, dr, w2, h2 - i)
    {
      ImageInTwoRows(mem.Length, dr, 2 * w2, h2 - i);
      UpsampleRow(mem, sp, dst.format, sr.First(), sr.stride, dr.rows, dr.Below().rows, w2, tp);
      sr, dr := sr.Below(), dr.Below().Below();
      i := i + 1;
    }
  }

  /** The first two rows of a rectangle lie in memory with it, and so does the rest. */
  lemma ImageInTwoRows(mn: nat, img: Image, w: nat, k: nat)
    requires img.format.IsNormal() && k > 0 && ImageIn(mn, img, w, 2 * k)
    ensures RowIn(mn, img.format, img.rows, w) && RowIn(mn, img.format, img.Below().rows, w)
    ensures ImageIn(mn, img.Below().Below(), w, 2 * (k - 1))
  {
    assert ImageIn(mn, img.Below(), w, 2 * k - 1);
  }

  /** The blocks of one block row, from the two rows' target cursors. */
  method UpsampleRow(mem: array<Byte>, sp: Spread, f: BitmapFormat, b: Block420, stride: int, du: Quad, dd: Quad, n: nat, ghost tp: Proc)
    requires f.IsNormal() && Implements(tp, sp.cv, f)
    requires RowReadable(mem.Length, b, stride, n) && RowIn(mem.Length, f, du, 2 * n) && RowIn(mem.Length, f, dd, 2 * n)
    modifies mem
    ensures mem[..] == SpreadRow(tp, sp, f, old(mem[..]), b, stride, du, dd, n)
  {
    var sb, su, sd := b, du, dd;
    var k := n;
    while k > 0
      invariant RowReadable(mem.Length, sb, stride, k)
      invariant RowIn(mem.Length, f, su, 2 * k) && RowIn(mem.Length, f, sd, 2 * k)
      invariant SpreadRow(tp, sp, f, old(mem[..]), b, stride, du, dd, n) == SpreadFrom(tp, sp, f, mem[..], sb, stride, su, sd, k, 0)
    {
      sb, su, sd := UpsampleRowStep(mem, sp, f, sb, stride, su, sd, k, tp);
      k := k - 1;
    }
  }

  /** One pass of the block loop: the block at `b`, then the cursors and source pointers
      of the next block, with the rest of the row still in memory. */
  method UpsampleRowStep(mem: array<Byte>, sp: Spread, f: BitmapFormat, b: Block420, stride: int, du: Quad, dd: Quad,
                         ghost k: nat, ghost tp: Proc)
    returns (b': Block420, du': Quad, dd': Quad)
    requires f.IsNormal() && Implements(tp, sp.cv, f) && k > 0
    requires RowReadable(mem.Length, b, stride, k) && RowIn(mem.Length, f, du, 2 * k) && RowIn(mem.Length, f, dd, 2 * k)
    modifies mem
    ensures RowReadable(mem.Length, b', stride, k - 1)
    ensures RowIn(mem.Length, f, du', 2 * (k - 1)) && RowIn(mem.Length, f, dd', 2 * (k - 1))
    ensures SpreadFrom(tp, sp, f, old(mem[..]), b, stride, du, dd, k, 0) == SpreadFrom(tp, sp, f, mem[..], b', stride, du', dd', k - 1, 0)
  {
    RowInTwo(mem.Length, f, du, k);
    RowInTwo(mem.Length, f, dd, k);
    du', dd' := UpsampleBlock(mem, sp, f, b, stride, du, dd, k, tp);
    b' := b.Next(stride);
  }

  /** The first two samples of a row lie in memory with it, and so does the rest. */
  lemma RowInTwo(mn: nat, f: BitmapFormat, c: Quad, k: nat)
    requires f.IsNormal() && k > 0 && RowIn(mn, f, c, 2 * k)
    ensures RowIn(mn, f, c, 2) && RowIn(mn, f, Advance(f, Advance(f, c)), 2 * (k - 1))
  {
    assert RowIn(mn, f, Advance(f, c), 2 * k - 1);
  }

  /** The four pixels of one block: upper row left then right, lower row left then right;
      returns both rows' target cursors past the block. */
  method UpsampleBlock(mem: array<Byte>, sp: Spread, f: BitmapFormat, b: Block420, stride: int, du: Quad, dd: Quad,
                       ghost n: nat, ghost tp: Proc)
    returns (du': Quad, dd': Quad)
    requires f.IsNormal() && Implements(tp, sp.cv, f) && n > 0
    requires BlockReadable(mem.Length, b) && RowIn(mem.Length, f, du, 2) && RowIn(mem.Length, f, dd, 2)
    modifies mem
    ensures SpreadFrom(tp, sp, f, old(mem[..]), b, stride, du, dd, n, 0)
            == SpreadFrom(tp, sp, f, mem[..], b.Next(stride), stride, du', dd', n - 1, 0)
    ensures du' == Advance(f, Advance(f, du)) && dd' == Advance(f, Advance(f, dd))
  {
    ghost var m0 := mem[..];
    du' := UpsamplePixel(mem, sp, f, b.yu, b.u, b.v, du, tp);
    ghost var m1 := mem[..];
    assert SpreadFrom(tp, sp, f, m0, b, stride, du, dd, n, 0) == SpreadFrom(tp, sp, f, m1, b, stride, du, dd, n, 1);
    du' := UpsamplePixel(mem, sp, f, b.yu + 1, b.u, b.v, du', tp);
    ghost var m2 := mem[..];
    assert SpreadFrom(tp, sp, f, m1, b, stride, du, dd, n, 1) == SpreadFrom(tp, sp, f, m2, b, stride, du, dd, n, 2);
    dd' := UpsamplePixel(mem, sp, f, b.yd, b.u, b.v, dd, tp);
    ghost var m3 := mem[..];
    assert SpreadFrom(tp, sp, f, m2, b, stride, du, dd, n, 2) == SpreadFrom(tp, sp, f, m3, b, stride, du, dd, n, 3);
    dd' := UpsamplePixel(mem, sp, f, b.yd + 1, b.u, b.v, dd', tp);
    assert SpreadFrom(tp, sp, f, m3, b, stride, du, dd, n, 3) == SpreadFrom(tp, sp, f, mem[..], b.Next(stride), stride, du', dd', n - 1, 0);
  }

  /** One target pixel: read its luma and chroma bytes, convert them when the target is
      not in YUV space, write the sample with alpha 255. */
  method UpsamplePixel(mem: array<Byte>, sp: Spread, f: BitmapFormat, ya: Ptr, ua: Ptr, va: Ptr, dc: Quad, ghost tp: Proc)
    returns (dc': Quad)
    requires f.IsNormal() && Implements(tp, sp.cv, f)
    requires Addressable(mem.Length, ya) && Addressable(mem.Length, ua) && Addressable(mem.Length, va)
    requires SampleIn(mem.Length, f, dc)
    modifies mem
    ensures mem[..] == SpreadPixel(tp, sp, old(mem[..]), ya, ua, va, dc)
    ensures dc' == Advance(f, dc)
  {
    var y, u, v := mem[ya], mem[ua], mem[va];
    var col;
    if sp.raw {
      col := Rgba(y, u, v, 255);
    } else {
      var t := sp.cv.yuvToRgb(y, u, v);
      col := Rgba(t.0, t.1, t.2, 255);
    }
    dc' := WriteSample(mem, sp.cv, f, dc, col);
  }

  // ----- Where each pixel of a row run lies -----

  /** The target cursors of pixel `kk` of block `jj` of a run whose first block's left
      pixels are at `du` (upper) and `dd` (lower). */
  function RunTarget(f: BitmapFormat, du: Quad, dd: Quad, jj: nat, kk: nat): Quad
    requires f.IsNormal()
  {
    Along(f, if kk < 2 then du else dd, 2 * jj + kk % 2)
  }

  /** The luma byte of pixel `kk` of block `jj` of a run starting at block `b`. */
  function RunLuma(b: Block420, jj: nat, kk: nat): Ptr {
    LumaOf(b, kk) + 2 * jj
  }

  /** Pixel `kk` of block `jj` is one a run of `n` blocks writes when it starts at pixel
      `k` of its first block. */
  predicate InRun(n: nat, k: nat, jj: nat, kk: nat) {
    jj < n && kk < 4 && (jj > 0 || kk >= k)
  }

  /** Every pixel of the run lies in a memory of `mn` bytes, its planes apart. */
  ghost predicate RunFits(mn: nat, f: BitmapFormat, du: Quad, dd: Quad, n: nat, k: nat)
    requires f.IsNormal()
  {
    forall jj: nat, kk: nat :: InRun(n, k, jj, kk) ==>
      SampleIn(mn, f, RunTarget(f, du, dd, jj, kk)) && PlanesApart(f, RunTarget(f, du, dd, jj, kk))
  }

  /** Two different pixels of the run share no byte. */
  ghost predicate RunSeparated(f: BitmapFormat, du: Quad, dd: Quad, n: nat, k: nat)
    requires f.IsNormal()
  {
    forall jj: nat, kk: nat, jj': nat, kk': nat, a ::
      InRun(n, k, jj, kk) && InRun(n, k, jj', kk') && (jj != jj' || kk != kk') && Covers(f, RunTarget(f, du, dd, jj, kk), a)
      ==> !Covers(f, RunTarget(f, du, dd, jj', kk'), a)
  }

  /** No byte the run reads is a byte of a pixel it writes. */
  ghost predicate RunReadsApart(f: BitmapFormat, b: Block420, stride: int, du: Quad, dd: Quad, n: nat, k: nat)
    requires f.IsNormal()
  {
    forall jj: nat, kk: nat, jj': nat, kk': nat :: InRun(n, k, jj, kk) && InRun(n, k, jj', kk') ==>
      var t := RunTarget(f, du, dd, jj', kk');
      !Covers(f, t, RunLuma(b, jj, kk)) && !Covers(f, t, Steps(b.u, stride, jj)) && !Covers(f, t, Steps(b.v, stride, jj))
  }

  /** `k + 1` steps of `d` from `p` are `k` steps from `p + d`. */
  lemma {:induction false} StepsShift(p: Ptr, d: int, k: nat)
    ensures Steps(p + d, d, k) == Steps(p, d, k + 1)
    decreases k
  {
    if k > 0 {
      StepsShift(p, d, k - 1);
    }
  }

  /** The first pixel of a block is its pixel `kk` of column 0. */
  lemma RunFirst(f: BitmapFormat, b: Block420, stride: int, du: Quad, dd: Quad, kk: nat)
    requires f.IsNormal() && kk < 4
    ensures RunTarget(f, du, dd, 0, kk) == CornerOf(f, du, dd, kk)
    ensures RunLuma(b, 0, kk) == LumaOf(b, kk) && Steps(b.u, stride, 0) == b.u && Steps(b.v, stride, 0) == b.v
  {
  }

  /** Block `jj + 1` of a run is block `jj` of the run that starts one block later. */
  lemma RunShift(f: BitmapFormat, b: Block420, stride: int, du: Quad, dd: Quad, jj: nat, kk: nat)
    requires f.IsNormal()
    ensures RunTarget(f, Advance(f, Advance(f, du)), Advance(f, Advance(f, dd)), jj, kk) == RunTarget(f, du, dd, jj + 1, kk)
    ensures RunLuma(b.Next(stride), jj, kk) == RunLuma(b, jj + 1, kk)
    ensures Steps(b.Next(stride).u, stride, jj) == Steps(b.u, stride, jj + 1)
    ensures Steps(b.Next(stride).v, stride, jj) == Steps(b.v, stride, jj + 1)
  {
    var c := if kk < 2 then du else dd;
    assert Along(f, c, 2 * (jj + 1) + kk % 2) == Along(f, Advance(f, c), 2 * jj + 1 + kk % 2);
    StepsShift(b.u, stride, jj);
    StepsShift(b.v, stride, jj);
  }

  /** The run that starts with the next block holds the pixels of this run after its
      first block. */
  lemma RunShiftAll(f: BitmapFormat, b: Block420, stride: int, du: Quad, dd: Quad, n: nat)
    requires f.IsNormal() && n > 0
    ensures forall jj: nat, kk: nat | InRun(n - 1, 0, jj, kk) ::
      RunTarget(f, Advance(f, Advance(f, du)), Advance(f, Advance(f, dd)), jj, kk) == RunTarget(f, du, dd, jj + 1, kk)
      && RunLuma(b.Next(stride), jj, kk) == RunLuma(b, jj + 1, kk)
      && Steps(b.Next(stride).u, stride, jj) == Steps(b.u, stride, jj + 1)
      && Steps(b.Next(stride).v, stride, jj) == Steps(b.v, stride, jj + 1)
      && InRun(n, 3, jj + 1, kk)
  {
    forall jj: nat, kk: nat | InRun(n - 1, 0, jj, kk)
      ensures RunTarget(f, Advance(f, Advance(f, du)), Advance(f, Advance(f, dd)), jj, kk) == RunTarget(f, du, dd, jj + 1, kk)
      ensures RunLuma(b.Next(stride), jj, kk) == RunLuma(b, jj + 1, kk)
      ensures Steps(b.Next(stride).u, stride, jj) == Steps(b.u, stride, jj + 1)
      ensures Steps(b.Next(stride).v, stride, jj) == Steps(b.v, stride, jj + 1)
      ensures InRun(n, 3, jj + 1, kk)
    {
      RunShift(f, b, stride, du, dd, jj, kk);
    }
  }

  /** The run that starts with the next block fits in memory when this one does. */
  lemma RunNextFits(mn: nat, f: BitmapFormat, b: Block420, stride: int, du: Quad, dd: Quad, n: nat)
    requires f.IsNormal() && n > 0 && RunFits(mn, f, du, dd, n, 3)
    ensures RunFits(mn, f, Advance(f, Advance(f, du)), Advance(f, Advance(f, dd)), n - 1, 0)
  {
    RunShiftAll(f, b, stride, du, dd, n);
  }

  /** The run that starts with the next block is separated when this one is. */
  lemma RunNextSeparated(f: BitmapFormat, b: Block420, stride: int, du: Quad, dd: Quad, n: nat)
    requires f.IsNormal() && n > 0 && RunSeparated(f, du, dd, n, 3)
    ensures RunSeparated(f, Advance(f, Advance(f, du)), Advance(f, Advance(f, dd)), n - 1, 0)
  {
    RunShiftAll(f, b, stride, du, dd, n);
  }

  /** The run that starts with the next block reads no byte it writes when this one
      does not. */
  lemma RunNextReadsApart(f: BitmapFormat, b: Block420, stride: int, du: Quad, dd: Quad, n: nat)
    requires f.IsNormal() && n > 0 && RunReadsApart(f, b, stride, du, dd, n, 3)
    ensures RunReadsApart(f, b.Next(stride), stride, Advance(f, Advance(f, du)), Advance(f, Advance(f, dd)), n - 1, 0)
  {
    RunShiftAll(f, b, stride, du, dd, n);
  }

  // ----- What the conversion writes -----

  /** Writing one pixel stores only to the bytes of its target sample. */
  lemma SpreadPixelFrame(tp: Proc, sp: Spread, f: BitmapFormat, m: seq<Byte>, ya: Ptr, ua: Ptr, va: Ptr, dc: Quad, a: Ptr)
    requires f.IsNormal() && Lawful(tp, f) && !Covers(f, dc, a)
    ensures Peek(SpreadPixel(tp, sp, m, ya, ua, va, dc), a) == Peek(m, a)
  {
    if 0 <= a < |m| {
      ApplyOutside(m, tp.write(dc, Colour(sp, Peek(m, ya), Peek(m, ua), Peek(m, va))), a);
    }
  }

  /** The rest of a row run stores only to the bytes of its pixels. */
  lemma {:induction false} SpreadFromFrame(tp: Proc, sp: Spread, f: BitmapFormat, m: seq<Byte>, b: Block420, stride: int,
                                           du: Quad, dd: Quad, n: nat, k: nat, a: Ptr)
    requires f.IsNormal() && k < 4 && Lawful(tp, f)
    requires forall jj: nat, kk: nat :: InRun(n, k, jj, kk) ==> !Covers(f, RunTarget(f, du, dd, jj, kk), a)
    ensures Peek(SpreadFrom(tp, sp, f, m, b, stride, du, dd, n, k), a) == Peek(m, a)
    decreases n, 4 - k
  {
    if n > 0 {
      var m' := SpreadPixel(tp, sp, m, LumaOf(b, k), b.u, b.v, CornerOf(f, du, dd, k));
      RunFirst(f, b, stride, du, dd, k);
      assert InRun(n, k, 0, k);
      SpreadPixelFrame(tp, sp, f, m, LumaOf(b, k), b.u, b.v, CornerOf(f, du, dd, k), a);
      if k < 3 {
        SpreadFromFrame(tp, sp, f, m', b, stride, du, dd, n, k + 1, a);
      } else {
        var du', dd' := Advance(f, Advance(f, du)), Advance(f, Advance(f, dd));
        RunShiftAll(f, b, stride, du, dd, n);
        SpreadFromFrame(tp, sp, f, m', b.Next(stride), stride, du', dd', n - 1, 0, a);
      }
    }
  }

  /** After the first pixel of a run is written, the rest of the run leaves what any
      lawful codec reads there as it was. */
  lemma SpreadFromKeepsFirst(tp: Proc, sp: Spread, f: BitmapFormat, m: seq<Byte>, b: Block420, stride: int,
                             du: Quad, dd: Quad, n: nat, k: nat)
    requires f.IsNormal() && k < 4 && n > 0 && Lawful(tp, f) && RunSeparated(f, du, dd, n, k)
    ensures var t := CornerOf(f, du, dd, k);
      var r := if k < 3 then SpreadFrom(tp, sp, f, m, b, stride, du, dd, n, k + 1)
               else SpreadFrom(tp, sp, f, m, b.Next(stride), stride, Advance(f, Advance(f, du)), Advance(f, Advance(f, dd)), n - 1, 0);
      tp.read(r, t) == tp.read(m, t)
  {
    var t := CornerOf(f, du, dd, k);
    var du', dd' := Advance(f, Advance(f, du)), Advance(f, Advance(f, dd));
    var r := if k < 3 then SpreadFrom(tp, sp, f, m, b, stride, du, dd, n, k + 1)
             else SpreadFrom(tp, sp, f, m, b.Next(stride), stride, du', dd', n - 1, 0);
    RunFirst(f, b, stride, du, dd, k);
    assert InRun(n, k, 0, k);
    forall a | Covers(f, t, a) && 0 <= a < |m| ensures r[a] == m[a] {
      if k < 3 {
        SpreadFromFrame(tp, sp, f, m, b, stride, du, dd, n, k + 1, a);
      } else {
        RunShiftAll(f, b, stride, du, dd, n);
        SpreadFromFrame(tp, sp, f, m, b.Next(stride), stride, du', dd', n - 1, 0, a);
      }
    }
    assert SameSample(f, t, r, m);
  }

  // ----- What the conversion stores -----

  /** The first pixel a run writes holds the echo of its colour once the run is done. */
  lemma SpreadFromFirst(tp: Proc, sp: Spread, f: BitmapFormat, m: seq<Byte>, b: Block420, stride: int,
                        du: Quad, dd: Quad, n: nat, k: nat)
    requires f.IsNormal() && k < 4 && n > 0 && Lawful(tp, f)
    requires RunFits(|m|, f, du, dd, n, k) && RunSeparated(f, du, dd, n, k)
    ensures tp.read(SpreadFrom(tp, sp, f, m, b, stride, du, dd, n, k), CornerOf(f, du, dd, k))
            == tp.echo(Colour(sp, Peek(m, LumaOf(b, k)), Peek(m, b.u), Peek(m, b.v)))
  {
    var t := CornerOf(f, du, dd, k);
    var m' := SpreadPixel(tp, sp, m, LumaOf(b, k), b.u, b.v, t);
    RunFirst(f, b, stride, du, dd, k);
    assert InRun(n, k, 0, k);
    SpreadFromKeepsFirst(tp, sp, f, m', b, stride, du, dd, n, k);
    assert SampleIn(|m|, f, t) && PlanesApart(f, t);
  }

  /** The bytes a later pixel of a run reads survive the run's first store. */
  lemma SpreadFromSparesReads(tp: Proc, sp: Spread, f: BitmapFormat, m: seq<Byte>, b: Block420, stride: int,
                              du: Quad, dd: Quad, n: nat, k: nat, jj: nat, kk: nat)
    requires f.IsNormal() && k < 4 && Lawful(tp, f) && InRun(n, k, jj, kk)
    requires RunReadsApart(f, b, stride, du, dd, n, k)
    ensures var m' := SpreadPixel(tp, sp, m, LumaOf(b, k), b.u, b.v, CornerOf(f, du, dd, k));
      Peek(m', RunLuma(b, jj, kk)) == Peek(m, RunLuma(b, jj, kk))
      && Peek(m', Steps(b.u, stride, jj)) == Peek(m, Steps(b.u, stride, jj))
      && Peek(m', Steps(b.v, stride, jj)) == Peek(m, Steps(b.v, stride, jj))
  {
    var t := CornerOf(f, du, dd, k);
    RunFirst(f, b, stride, du, dd, k);
    assert InRun(n, k, 0, k);
    SpreadPixelFrame(tp, sp, f, m, LumaOf(b, k), b.u, b.v, t, RunLuma(b, jj, kk));
    SpreadPixelFrame(tp, sp, f, m, LumaOf(b, k), b.u, b.v, t, Steps(b.u, stride, jj));
    SpreadPixelFrame(tp, sp, f, m, LumaOf(b, k), b.u, b.v, t, Steps(b.v, stride, jj));
  }

  /** The rest of a run after its first pixel keeps the run's properties. */
  lemma RunLater(mn: nat, f: BitmapFormat, b: Block420, stride: int, du: Quad, dd: Quad, n: nat, k: nat)
    requires f.IsNormal() && k < 3
    requires RunFits(mn, f, du, dd, n, k) && RunSeparated(f, du, dd, n, k) && RunReadsApart(f, b, stride, du, dd, n, k)
    ensures RunFits(mn, f, du, dd, n, k + 1) && RunSeparated(f, du, dd, n, k + 1) && RunReadsApart(f, b, stride, du, dd, n, k + 1)
  {
    RunLaterFits(mn, f, du, dd, n, k);
    RunLaterSeparated(f, du, dd, n, k);
    RunLaterReadsApart(f, b, stride, du, dd, n, k);
  }

  lemma RunLaterFits(mn: nat, f: BitmapFormat, du: Quad, dd: Quad, n: nat, k: nat)
    requires f.IsNormal() && k < 3 && RunFits(mn, f, du, dd, n, k)
    ensures RunFits(mn, f, du, dd, n, k + 1)
  {
    forall jj: nat, kk: nat | InRun(n, k + 1, jj, kk)
      ensures SampleIn(mn, f, RunTarget(f, du, dd, jj, kk)) && PlanesApart(f, RunTarget(f, du, dd, jj, kk))
    {
      assert InRun(n, k, jj, kk);
    }
  }

  lemma RunLaterSeparated(f: BitmapFormat, du: Quad, dd: Quad, n: nat, k: nat)
    requires f.IsNormal() && k < 3 && RunSeparated(f, du, dd, n, k)
    ensures RunSeparated(f, du, dd, n, k + 1)
  {
    forall jj: nat, kk: nat, jj': nat, kk': nat, a |
      InRun(n, k + 1, jj, kk) && InRun(n, k + 1, jj', kk') && (jj != jj' || kk != kk') && Covers(f, RunTarget(f, du, dd, jj, kk), a)
      ensures !Covers(f, RunTarget(f, du, dd, jj', kk'), a)
    {
      assert InRun(n, k, jj, kk) && InRun(n, k, jj', kk');
    }
  }

  lemma RunLaterReadsApart(f: BitmapFormat, b: Block420, stride: int, du: Quad, dd: Quad, n: nat, k: nat)
    requires f.IsNormal() && k < 3 && RunReadsApart(f, b, stride, du, dd, n, k)
    ensures RunReadsApart(f, b, stride, du, dd, n, k + 1)
  {
    forall jj: nat, kk: nat, jj': nat, kk': nat | InRun(n, k + 1, jj, kk) && InRun(n, k + 1, jj', kk')
      ensures var t := RunTarget(f, du, dd, jj', kk');
        !Covers(f, t, RunLuma(b, jj, kk)) && !Covers(f, t, Steps(b.u, stride, jj)) && !Covers(f, t, Steps(b.v, stride, jj))
    {
      assert InRun(n, k, jj, kk) && InRun(n, k, jj', kk');
    }
  }

  /** After the rest of a row run is written, each of its pixels holds the echo of the
      colour made of its own luma byte and its block's chroma bytes as they were before:
      no pixel shares a byte with another, and no byte read is a byte written. */
  lemma {:induction false} SpreadFromContent(tp: Proc, sp: Spread, f: BitmapFormat, m: seq<Byte>, b: Block420, stride: int,
                                             du: Quad, dd: Quad, n: nat, k: nat, jj: nat, kk: nat)
    requires f.IsNormal() && k < 4 && Lawful(tp, f) && InRun(n, k, jj, kk)
    requires RunFits(|m|, f, du, dd, n, k) && RunSeparated(f, du, dd, n, k) && RunReadsApart(f, b, stride, du, dd, n, k)
    ensures tp.read(SpreadFrom(tp, sp, f, m, b, stride, du, dd, n, k), RunTarget(f, du, dd, jj, kk))
            == tp.echo(Colour(sp, Peek(m, RunLuma(b, jj, kk)), Peek(m, Steps(b.u, stride, jj)), Peek(m, Steps(b.v, stride, jj))))
    decreases n, 4 - k, 1
  {
    RunFirst(f, b, stride, du, dd, k);
    if jj == 0 && kk == k {
      SpreadFromFirst(tp, sp, f, m, b, stride, du, dd, n, k);
    } else if k < 3 {
      SpreadFromContentLater(tp, sp, f, m, b, stride, du, dd, n, k, jj, kk);
    } else {
      SpreadFromContentNext(tp, sp, f, m, b, stride, du, dd, n, jj, kk);
    }
  }

  /** `SpreadFromContent` for a later pixel of the first block of the run, after the
      run's first pixel is written. */
  lemma {:induction false} SpreadFromContentLater(tp: Proc, sp: Spread, f: BitmapFormat, m: seq<Byte>, b: Block420, stride: int,
                                                  du: Quad, dd: Quad, n: nat, k: nat, jj: nat, kk: nat)
    requires f.IsNormal() && k < 3 && Lawful(tp, f) && InRun(n, k, jj, kk) && (jj > 0 || kk > k)
    requires RunFits(|m|, f, du, dd, n, k) && RunSeparated(f, du, dd, n, k) && RunReadsApart(f, b, stride, du, dd, n, k)
    ensures tp.read(SpreadFrom(tp, sp, f, m, b, stride, du, dd, n, k), RunTarget(f, du, dd, jj, kk))
            == tp.echo(Colour(sp, Peek(m, RunLuma(b, jj, kk)), Peek(m, Steps(b.u, stride, jj)), Peek(m, Steps(b.v, stride, jj))))
    decreases n, 4 - k, 0
  {
    var m' := SpreadPixel(tp, sp, m, LumaOf(b, k), b.u, b.v, CornerOf(f, du, dd, k));
    assert SpreadFrom(tp, sp, f, m, b, stride, du, dd, n, k) == SpreadFrom(tp, sp, f, m', b, stride, du, dd, n, k + 1);
    SpreadFromSparesReads(tp, sp, f, m, b, stride, du, dd, n, k, jj, kk);
    RunLater(|m|, f, b, stride, du, dd, n, k);
    assert |m'| == |m| && InRun(n, k + 1, jj, kk);
    SpreadFromContent(tp, sp, f, m', b, stride, du, dd, n, k + 1, jj, kk);
  }

  /** `SpreadFromContent` for a pixel of a later block, after the last pixel of the first
      block is written. */
  lemma {:induction false} SpreadFromContentNext(tp: Proc, sp: Spread, f: BitmapFormat, m: seq<Byte>, b: Block420, stride: int,
                                                 du: Quad, dd: Quad, n: nat, jj: nat, kk: nat)
    requires f.IsNormal() && Lawful(tp, f) && InRun(n, 3, jj, kk) && jj > 0
    requires RunFits(|m|, f, du, dd, n, 3) && RunSeparated(f, du, dd, n, 3) && RunReadsApart(f, b, stride, du, dd, n, 3)
    ensures tp.read(SpreadFrom(tp, sp, f, m, b, stride, du, dd, n, 3), RunTarget(f, du, dd, jj, kk))
            == tp.echo(Colour(sp, Peek(m, RunLuma(b, jj, kk)), Peek(m, Steps(b.u, stride, jj)), Peek(m, Steps(b.v, stride, jj))))
    decreases n, 1, 0
  {
    var m' := SpreadPixel(tp, sp, m, LumaOf(b, 3), b.u, b.v, CornerOf(f, du, dd, 3));
    SpreadFromSparesReads(tp, sp, f, m, b, stride, du, dd, n, 3, jj, kk);
    RunNextFits(|m|, f, b, stride, du, dd, n);
    RunNextSeparated(f, b, stride, du, dd, n);
    RunNextReadsApart(f, b, stride, du, dd, n);
    SpreadFromContentShifted(tp, sp, f, m, m', b, stride, du, dd, n, jj, kk);
  }

  /** The run that starts with the next block, over a memory `m'` that agrees with `m` on
      the bytes pixel `kk` of block `jj` reads, stores what `SpreadFromContent` says. */
  lemma {:induction false} SpreadFromContentShifted(tp: Proc, sp: Spread, f: BitmapFormat, m: seq<Byte>, m': seq<Byte>,
                                                    b: Block420, stride: int, du: Quad, dd: Quad, n: nat, jj: nat, kk: nat)
    requires f.IsNormal() && Lawful(tp, f) && InRun(n, 3, jj, kk) && jj > 0 && |m'| == |m|
    requires Peek(m', RunLuma(b, jj, kk)) == Peek(m, RunLuma(b, jj, kk))
    requires Peek(m', Steps(b.u, stride, jj)) == Peek(m, Steps(b.u, stride, jj))
    requires Peek(m', Steps(b.v, stride, jj)) == Peek(m, Steps(b.v, stride, jj))
    requires var du', dd' := Advance(f, Advance(f, du)), Advance(f, Advance(f, dd));
      RunFits(|m|, f, du', dd', n - 1, 0) && RunSeparated(f, du', dd', n - 1, 0)
      && RunReadsApart(f, b.Next(stride), stride, du', dd', n - 1, 0)
    ensures tp.read(SpreadFrom(tp, sp, f, m', b.Next(stride), stride, Advance(f, Advance(f, du)), Advance(f, Advance(f, dd)), n - 1, 0),
                    RunTarget(f, du, dd, jj, kk))
            == tp.echo(Colour(sp, Peek(m, RunLuma(b, jj, kk)), Peek(m, Steps(b.u, stride, jj)), Peek(m, Steps(b.v, stride, jj))))
    decreases n, 0, 0
  {
    RunShift(f, b, stride, du, dd, jj - 1, kk);
    SpreadFromContent(tp, sp, f, m', b.Next(stride), stride, Advance(f, Advance(f, du)), Advance(f, Advance(f, dd)), n - 1, 0, jj - 1, kk);
  }

  // ----- The whole rectangle -----

  /** No byte the conversion reads is a byte of the target rectangle. */
  ghost predicate SourceApart(s: Planes420, dst: Image, w2: nat, h2: nat)
    requires dst.format.IsNormal()
  {
    forall x: nat, y: nat :: x < 2 * w2 && y < 2 * h2 ==>
      !ImageCovers(dst, 2 * w2, 2 * h2, LumaAt(s, x, y)) && !ImageCovers(dst, 2 * w2, 2 * h2, UAt(s, x, y))
      && !ImageCovers(dst, 2 * w2, 2 * h2, VAt(s, x, y))
  }

  /** Pixel `kk` of block `jj` of the first block row is pixel `(2*jj + kk%2, kk/2)`. */
  lemma RunPixel(s: Planes420, dst: Image, jj: nat, kk: nat)
    requires dst.format.IsNormal() && kk < 4
    ensures RunTarget(dst.format, dst.rows, dst.Below().rows, jj, kk) == PixelAt(dst, 2 * jj + kk % 2, kk / 2)
    ensures RunLuma(s.First(), jj, kk) == LumaAt(s, 2 * jj + kk % 2, kk / 2)
    ensures Steps(s.u, s.stride, jj) == UAt(s, 2 * jj + kk % 2, kk / 2)
    ensures Steps(s.v, s.stride, jj) == VAt(s, 2 * jj + kk % 2, kk / 2)
  {
    assert RowStart(dst, 1) == dst.Below().rows;
    assert Steps(s.y, s.yPitch, 1) == s.y + s.yPitch;
    assert (2 * jj + kk % 2) / 2 == jj && kk / 2 / 2 == 0;
  }

  /** Pixel `(x, y)` of the first two rows is pixel `2*y + x%2` of block `x/2`. */
  lemma PixelRun(x: nat, y: nat)
    requires y < 2
    ensures 2 * (x / 2) + (2 * y + x % 2) % 2 == x && (2 * y + x % 2) / 2 == y && 2 * y + x % 2 < 4
  {
  }

  /** The rectangle below the first two rows lies inside the rectangle. */
  lemma ImageCoversRest(img: Image, w: nat, k: nat, a: Ptr)
    requires img.format.IsNormal() && k > 0 && ImageCovers(img.Below().Below(), w, 2 * (k - 1), a)
    ensures ImageCovers(img, w, 2 * k, a)
  {
    assert ImageCovers(img.Below(), w, 2 * k - 1, a);
  }

  /** The first block row's run writes inside the rectangle only. */
  lemma FirstRunAvoids(dst: Image, w2: nat, h2: nat, a: Ptr)
    requires dst.format.IsNormal() && h2 > 0 && !ImageCovers(dst, 2 * w2, 2 * h2, a)
    ensures forall jj: nat, kk: nat :: InRun(w2, 0, jj, kk) ==> !Covers(dst.format, RunTarget(dst.format, dst.rows, dst.Below().rows, jj, kk), a)
  {
    forall jj: nat, kk: nat | InRun(w2, 0, jj, kk)
      ensures !Covers(dst.format, RunTarget(dst.format, dst.rows, dst.Below().rows, jj, kk), a)
    {
      RunPixel(Planes420(0, 0, 0, 0, 0, 0, 0), dst, jj, kk);
      PixelHolds(0, dst, 2 * w2, 2 * h2, 2 * jj + kk % 2, kk / 2);
    }
  }

  /** The first block row's run fits in memory with the rectangle. */
  lemma FirstRunFits(mn: nat, dst: Image, w2: nat, h2: nat)
    requires dst.format.IsNormal() && h2 > 0 && ImageIn(mn, dst, 2 * w2, 2 * h2) && ImageSeparated(dst, 2 * w2, 2 * h2)
    ensures RunFits(mn, dst.format, dst.rows, dst.Below().rows, w2, 0)
  {
    var f := dst.format;
    forall jj: nat, kk: nat | InRun(w2, 0, jj, kk)
      ensures SampleIn(mn, f, RunTarget(f, dst.rows, dst.Below().rows, jj, kk)) && PlanesApart(f, RunTarget(f, dst.rows, dst.Below().rows, jj, kk))
    {
      RunPixel(Planes420(0, 0, 0, 0, 0, 0, 0), dst, jj, kk);
      PixelHolds(mn, dst, 2 * w2, 2 * h2, 2 * jj + kk % 2, kk / 2);
      PixelPlanesApart(dst, 2 * w2, 2 * h2, 2 * jj + kk % 2, kk / 2);
    }
  }

  /** The first block row's run is separated when the rectangle is. */
  lemma FirstRunSeparated(dst: Image, w2: nat, h2: nat)
    requires dst.format.IsNormal() && h2 > 0 && ImageSeparated(dst, 2 * w2, 2 * h2)
    ensures RunSeparated(dst.format, dst.rows, dst.Below().rows, w2, 0)
  {
    var f := dst.format;
    forall jj: nat, kk: nat, jj': nat, kk': nat, a |
      InRun(w2, 0, jj, kk) && InRun(w2, 0, jj', kk') && (jj != jj' || kk != kk') && Covers(f, RunTarget(f, dst.rows, dst.Below().rows, jj, kk), a)
      ensures !Covers(f, RunTarget(f, dst.rows, dst.Below().rows, jj', kk'), a)
    {
      var z := Planes420(0, 0, 0, 0, 0, 0, 0);
      RunPixel(z, dst, jj, kk);
      RunPixel(z, dst, jj', kk');
      PixelsApart(dst, 2 * w2, 2 * h2, 2 * jj + kk % 2, kk / 2, 2 * jj' + kk' % 2, kk' / 2, a);
    }
  }

  /** The first block row's run reads no byte it writes when the conversion reads no byte
      of the rectangle. */
  lemma FirstRunReadsApart(s: Planes420, dst: Image, w2: nat, h2: nat)
    requires dst.format.IsNormal() && h2 > 0 && SourceApart(s, dst, w2, h2)
    ensures RunReadsApart(dst.format, s.First(), s.stride, dst.rows, dst.Below().rows, w2, 0)
  {
    var f := dst.format;
    forall jj: nat, kk: nat, jj': nat, kk': nat | InRun(w2, 0, jj, kk) && InRun(w2, 0, jj', kk')
      ensures var t := RunTarget(f, dst.rows, dst.Below().rows, jj', kk');
        !Covers(f, t, RunLuma(s.First(), jj, kk)) && !Covers(f, t, Steps(s.u, s.stride, jj)) && !Covers(f, t, Steps(s.v, s.stride, jj))
    {
      RunPixel(s, dst, jj, kk);
      RunPixel(s, dst, jj', kk');
      var x, y := 2 * jj + kk % 2, kk / 2;
      assert x < 2 * w2 && y < 2 * h2;
      PixelHolds(0, dst, 2 * w2, 2 * h2, 2 * jj' + kk' % 2, kk' / 2);
    }
  }

  /** Converting the rectangle changes no byte outside the target rectangle's samples. */
  lemma {:induction false} SpreadImageFrame(tp: Proc, sp: Spread, m: seq<Byte>, s: Planes420, dst: Image, w2: nat, h2: nat, a: Ptr)
    requires dst.format.IsNormal() && Lawful(tp, dst.format) && !ImageCovers(dst, 2 * w2, 2 * h2, a)
    ensures Peek(SpreadImage(tp, sp, m, s, dst, w2, h2), a) == Peek(m, a)
    decreases h2
  {
    if h2 > 0 {
      var f := dst.format;
      var m1 := SpreadRow(tp, sp, f, m, s.First(), s.stride, dst.rows, dst.Below().rows, w2);
      FirstRunAvoids(dst, w2, h2, a);
      SpreadFromFrame(tp, sp, f, m, s.First(), s.stride, dst.rows, dst.Below().rows, w2, 0, a);
      if ImageCovers(dst.Below().Below(), 2 * w2, 2 * (h2 - 1), a) {
        ImageCoversRest(dst, 2 * w2, h2, a);
      }
      SpreadImageFrame(tp, sp, m1, s.Below(), dst.Below().Below(), w2, h2 - 1, a);
    }
  }

  /** Converting the rectangle keeps what a lawful codec reads at cursors none of whose
      bytes the target rectangle uses. */
  lemma SpreadImageKeeps(tp: Proc, sp: Spread, m: seq<Byte>, s: Planes420, dst: Image, w2: nat, h2: nat, c: Quad)
    requires dst.format.IsNormal() && Lawful(tp, dst.format)
    requires forall a :: Covers(dst.format, c, a) ==> !ImageCovers(dst, 2 * w2, 2 * h2, a)
    ensures tp.read(SpreadImage(tp, sp, m, s, dst, w2, h2), c) == tp.read(m, c)
  {
    var r := SpreadImage(tp, sp, m, s, dst, w2, h2);
    forall a | Covers(dst.format, c, a) && 0 <= a < |m| ensures r[a] == m[a] {
      SpreadImageFrame(tp, sp, m, s, dst, w2, h2, a);
    }
    assert SameSample(dst.format, c, r, m);
  }

  /** The planes and the rectangle from the next block row on keep the hypotheses of
      `SpreadImageContent`. */
  lemma RestApart(mn: nat, s: Planes420, dst: Image, w2: nat, h2: nat)
    requires dst.format.IsNormal() && h2 > 0
    requires ImageIn(mn, dst, 2 * w2, 2 * h2) && ImageSeparated(dst, 2 * w2, 2 * h2) && SourceApart(s, dst, w2, h2)
    ensures var d := dst.Below().Below();
      ImageIn(mn, d, 2 * w2, 2 * (h2 - 1)) && ImageSeparated(d, 2 * w2, 2 * (h2 - 1)) && SourceApart(s.Below(), d, w2, h2 - 1)
  {
    var d := dst.Below().Below();
    ImageInTwoRows(mn, dst, 2 * w2, h2);
    assert ImageSeparated(dst.Below(), 2 * w2, 2 * h2 - 1);
    forall x: nat, y: nat | x < 2 * w2 && y < 2 * (h2 - 1)
      ensures !ImageCovers(d, 2 * w2, 2 * (h2 - 1), LumaAt(s.Below(), x, y))
      ensures !ImageCovers(d, 2 * w2, 2 * (h2 - 1), UAt(s.Below(), x, y))
      ensures !ImageCovers(d, 2 * w2, 2 * (h2 - 1), VAt(s.Below(), x, y))
    {
      PlanesBelow(s, x, y);
      assert x < 2 * w2 && y + 2 < 2 * h2;
      if ImageCovers(d, 2 * w2, 2 * (h2 - 1), LumaAt(s.Below(), x, y)) {
        ImageCoversRest(dst, 2 * w2, h2, LumaAt(s.Below(), x, y));
      }
      if ImageCovers(d, 2 * w2, 2 * (h2 - 1), UAt(s.Below(), x, y)) {
        ImageCoversRest(dst, 2 * w2, h2, UAt(s.Below(), x, y));
      }
      if ImageCovers(d, 2 * w2, 2 * (h2 - 1), VAt(s.Below(), x, y)) {
        ImageCoversRest(dst, 2 * w2, h2, VAt(s.Below(), x, y));
      }
    }
  }

  /** Pixel `(x, y)` of the planes from the next block row on is pixel `(x, y + 2)`. */
  lemma PlanesBelow(s: Planes420, x: nat, y: nat)
    ensures LumaAt(s.Below(), x, y) == LumaAt(s, x, y + 2)
    ensures UAt(s.Below(), x, y) == UAt(s, x, y + 2) && VAt(s.Below(), x, y) == VAt(s, x, y + 2)
  {
    StepsShift(s.y + s.yPitch, s.yPitch, y);
    StepsShift(s.y, s.yPitch, y + 1);
    StepsShift(s.u, s.uPitch, y / 2);
    StepsShift(s.v, s.vPitch, y / 2);
    assert (y + 2) / 2 == y / 2 + 1;
  }

  /** Pixel `(x, y)` of the rectangle from the next block row on is pixel `(x, y + 2)`. */
  lemma ImageBelow(dst: Image, x: nat, y: nat)
    requires dst.format.IsNormal()
    ensures PixelAt(dst.Below().Below(), x, y) == PixelAt(dst, x, y + 2)
  {
    assert RowStart(dst, y + 2) == RowStart(dst.Below(), y + 1);
  }

  /** After the rectangle is converted, each target pixel holds the echo of the colour
      made of its own luma byte and its block's chroma bytes as they were before: no two
      target pixels share a byte, and no byte read is a byte of the target. */
  lemma {:induction false} SpreadImageContent(tp: Proc, sp: Spread, m: seq<Byte>, s: Planes420, dst: Image, w2: nat, h2: nat, x: nat, y: nat)
    requires dst.format.IsNormal() && Lawful(tp, dst.format) && x < 2 * w2 && y < 2 * h2
    requires ImageIn(|m|, dst, 2 * w2, 2 * h2) && ImageSeparated(dst, 2 * w2, 2 * h2) && SourceApart(s, dst, w2, h2)
    ensures tp.read(SpreadImage(tp, sp, m, s, dst, w2, h2), PixelAt(dst, x, y))
            == tp.echo(Colour(sp, Peek(m, LumaAt(s, x, y)), Peek(m, UAt(s, x, y)), Peek(m, VAt(s, x, y))))
    decreases h2, 3
  {
    if y < 2 {
      SpreadImageContentTop(tp, sp, m, s, dst, w2, h2, x, y);
    } else {
      SpreadImageContentBelow(tp, sp, m, s, dst, w2, h2, x, y);
    }
  }

  /** `SpreadImageContent` for a pixel of the first block row. */
  lemma SpreadImageContentTop(tp: Proc, sp: Spread, m: seq<Byte>, s: Planes420, dst: Image, w2: nat, h2: nat, x: nat, y: nat)
    requires dst.format.IsNormal() && Lawful(tp, dst.format) && x < 2 * w2 && y < 2 && y < 2 * h2
    requires ImageIn(|m|, dst, 2 * w2, 2 * h2) && ImageSeparated(dst, 2 * w2, 2 * h2) && SourceApart(s, dst, w2, h2)
    ensures tp.read(SpreadImage(tp, sp, m, s, dst, w2, h2), PixelAt(dst, x, y))
            == tp.echo(Colour(sp, Peek(m, LumaAt(s, x, y)), Peek(m, UAt(s, x, y)), Peek(m, VAt(s, x, y))))
  {
    var m1 := SpreadRow(tp, sp, dst.format, m, s.First(), s.stride, dst.rows, dst.Below().rows, w2);
    FirstRowContent(tp, sp, m, s, dst, w2, h2, x, y);
    SpreadImageContentFirstRows(tp, sp, m1, s, dst, w2, h2, x, y);
  }

  /** After the first block row is converted, each of its pixels holds the echo its bytes
      make. */
  lemma FirstRowContent(tp: Proc, sp: Spread, m: seq<Byte>, s: Planes420, dst: Image, w2: nat, h2: nat, x: nat, y: nat)
    requires dst.format.IsNormal() && Lawful(tp, dst.format) && x < 2 * w2 && y < 2 && y < 2 * h2
    requires ImageIn(|m|, dst, 2 * w2, 2 * h2) && ImageSeparated(dst, 2 * w2, 2 * h2) && SourceApart(s, dst, w2, h2)
    ensures tp.read(SpreadRow(tp, sp, dst.format, m, s.First(), s.stride, dst.rows, dst.Below().rows, w2), PixelAt(dst, x, y))
            == tp.echo(Colour(sp, Peek(m, LumaAt(s, x, y)), Peek(m, UAt(s, x, y)), Peek(m, VAt(s, x, y))))
  {
    var f := dst.format;
    var du, dd := dst.rows, dst.Below().rows;
    FirstRunFits(|m|, dst, w2, h2);
    FirstRunSeparated(dst, w2, h2);
    FirstRunReadsApart(s, dst, w2, h2);
    var jj, kk := x / 2, 2 * y + x % 2;
    PixelRun(x, y);
    RunPixel(s, dst, jj, kk);
    SpreadFromContent(tp, sp, f, m, s.First(), s.stride, du, dd, w2, 0, jj, kk);
  }

  /** The rest of the rectangle leaves the pixels of the first two rows as they are. */
  lemma SpreadImageContentFirstRows(tp: Proc, sp: Spread, m1: seq<Byte>, s: Planes420, dst: Image, w2: nat, h2: nat, x: nat, y: nat)
    requires dst.format.IsNormal() && Lawful(tp, dst.format) && x < 2 * w2 && y < 2 && h2 > 0
    requires ImageSeparated(dst, 2 * w2, 2 * h2)
    ensures tp.read(SpreadImage(tp, sp, m1, s.Below(), dst.Below().Below(), w2, h2 - 1), PixelAt(dst, x, y)) == tp.read(m1, PixelAt(dst, x, y))
  {
    var f, c, d := dst.format, PixelAt(dst, x, y), dst.Below().Below();
    assert ImageSeparated(dst.Below(), 2 * w2, 2 * h2 - 1);
    forall a | Covers(f, c, a) ensures !ImageCovers(d, 2 * w2, 2 * (h2 - 1), a) {
      if y == 0 {
        RowHolds(0, f, dst.rows, 2 * w2, x);
        assert !ImageCovers(dst.Below(), 2 * w2, 2 * h2 - 1, a);
      } else {
        assert c == Along(f, dst.Below().rows, x);
        RowHolds(0, f, dst.Below().rows, 2 * w2, x);
      }
    }
    SpreadImageKeeps(tp, sp, m1, s.Below(), d, w2, h2 - 1, c);
  }

  /** The first block row's run spares every byte the conversion reads. */
  lemma FirstRunSpares(tp: Proc, sp: Spread, m: seq<Byte>, s: Planes420, dst: Image, w2: nat, h2: nat, x: nat, y: nat)
    requires dst.format.IsNormal() && Lawful(tp, dst.format) && x < 2 * w2 && y < 2 * h2 && SourceApart(s, dst, w2, h2)
    ensures var m1 := SpreadRow(tp, sp, dst.format, m, s.First(), s.stride, dst.rows, dst.Below().rows, w2);
      Peek(m1, LumaAt(s, x, y)) == Peek(m, LumaAt(s, x, y)) && Peek(m1, UAt(s, x, y)) == Peek(m, UAt(s, x, y))
      && Peek(m1, VAt(s, x, y)) == Peek(m, VAt(s, x, y))
  {
    var f, du, dd := dst.format, dst.rows, dst.Below().rows;
    FirstRunAvoids(dst, w2, h2, LumaAt(s, x, y));
    FirstRunAvoids(dst, w2, h2, UAt(s, x, y));
    FirstRunAvoids(dst, w2, h2, VAt(s, x, y));
    SpreadFromFrame(tp, sp, f, m, s.First(), s.stride, du, dd, w2, 0, LumaAt(s, x, y));
    SpreadFromFrame(tp, sp, f, m, s.First(), s.stride, du, dd, w2, 0, UAt(s, x, y));
    SpreadFromFrame(tp, sp, f, m, s.First(), s.stride, du, dd, w2, 0, VAt(s, x, y));
  }

  /** `SpreadImageContent` for a pixel below the first block row. */
  lemma {:induction false} SpreadImageContentBelow(tp: Proc, sp: Spread, m: seq<Byte>, s: Planes420, dst: Image, w2: nat, h2: nat, x: nat, y: nat)
    requires dst.format.IsNormal() && Lawful(tp, dst.format) && x < 2 * w2 && 2 <= y < 2 * h2
    requires ImageIn(|m|, dst, 2 * w2, 2 * h2) && ImageSeparated(dst, 2 * w2, 2 * h2) && SourceApart(s, dst, w2, h2)
    ensures tp.read(SpreadImage(tp, sp, m, s, dst, w2, h2), PixelAt(dst, x, y))
            == tp.echo(Colour(sp, Peek(m, LumaAt(s, x, y)), Peek(m, UAt(s, x, y)), Peek(m, VAt(s, x, y))))
    decreases h2, 2
  {
    var m1 := SpreadRow(tp, sp, dst.format, m, s.First(), s.stride, dst.rows, dst.Below().rows, w2);
    FirstRunSpares(tp, sp, m, s, dst, w2, h2, x, y);
    RestApart(|m|, s, dst, w2, h2);
    SpreadImageContentShifted(tp, sp, m, m1, s, dst, w2, h2, x, y);
  }

  /** The rest of the rectangle, over a memory `m1` that agrees with `m` on the bytes
      pixel `(x, y)` reads, stores what `SpreadImageContent` says. */
  lemma {:induction false} SpreadImageContentShifted(tp: Proc, sp: Spread, m: seq<Byte>, m1: seq<Byte>, s: Planes420, dst: Image,
                                                     w2: nat, h2: nat, x: nat, y: nat)
    requires dst.format.IsNormal() && Lawful(tp, dst.format) && x < 2 * w2 && 2 <= y < 2 * h2 && |m1| == |m|
    requires Peek(m1, LumaAt(s, x, y)) == Peek(m, LumaAt(s, x, y)) && Peek(m1, UAt(s, x, y)) == Peek(m, UAt(s, x, y))
    requires Peek(m1, VAt(s, x, y)) == Peek(m, VAt(s, x, y))
    requires var d := dst.Below().Below();
      ImageIn(|m|, d, 2 * w2, 2 * (h2 - 1)) && ImageSeparated(d, 2 * w2, 2 * (h2 - 1)) && SourceApart(s.Below(), d, w2, h2 - 1)
    ensures tp.read(SpreadImage(tp, sp, m1, s.Below(), dst.Below().Below(), w2, h2 - 1), PixelAt(dst, x, y))
            == tp.echo(Colour(sp, Peek(m, LumaAt(s, x, y)), Peek(m, UAt(s, x, y)), Peek(m, VAt(s, x, y))))
    decreases h2, 1
  {
    PlanesBelow(s, x, y - 2);
    ImageBelow(dst, x, y - 2);
    SpreadImageContent(tp, sp, m1, s.Below(), dst.Below().Below(), w2, h2 - 1, x, y - 2);
  }

  // ----- Choosing the codec -----

  /** The format whose codec writes a target of format `f`: a target in YUV colour space
      takes its Y, U, V bytes through the codec of its RGB twin, with the same layout;
      any other target through its own. */
  function TwinFormat(f: BitmapFormat): (g: BitmapFormat)
    requires f.IsNormal()
    ensures g.IsNormal() && g.ColorSpaceOf() != SpaceYUV
    ensures f.ColorSpaceOf() != SpaceYUV ==> g == f
    ensures g.PlanesCount() == f.PlanesCount() && g.BitsPerSample() == f.BitsPerSample()
    ensures g.IsPrecomputedAlpha() == f.IsPrecomputedAlpha()
    ensures f.ColorSpaceOf() == SpaceYUV ==> g.ColorSpaceOf() == SpaceRGB && !Is565(g)
  {
    CompatibleRGBFormatKeepsLayout(f);
    if f.ColorSpaceOf() == SpaceYUV then f.CompatibleRGBFormat() else f
  }

  /** The target as the chosen codec walks it. */
  function TwinImage(dst: Image): (img: Image)
    requires dst.format.IsNormal()
    ensures img.format == TwinFormat(dst.format) && img.rows == dst.rows && img.pitches == dst.pitches
  {
    dst.(format := TwinFormat(dst.format))
  }

  /** A YUV format and its RGB twin step from sample to sample alike and cover the same
      addresses. */
  lemma TwinSteps(f: BitmapFormat, c: Quad)
    requires f.IsNormal()
    ensures Advance(TwinFormat(f), c) == Advance(f, c)
    ensures SampleAddrs(TwinFormat(f), c) == SampleAddrs(f, c)
  {
  }

  lemma {:induction false} AlongTwin(f: BitmapFormat, c: Quad, k: nat)
    requires f.IsNormal()
    ensures Along(TwinFormat(f), c, k) == Along(f, c, k)
    decreases k
  {
    if k > 0 {
      TwinSteps(f, c);
      AlongTwin(f, Advance(f, c), k - 1);
    }
  }

  lemma {:induction false} RowStartTwin(img: Image, y: nat)
    requires img.format.IsNormal()
    ensures RowStart(TwinImage(img), y) == RowStart(img, y)
    decreases y
  {
    if y > 0 {
      assert TwinImage(img).Below() == TwinImage(img.Below());
      RowStartTwin(img.Below(), y - 1);
    }
  }

  /** Seen through the codec of its twin, the target's samples stay where they are: pixel
      (x, y) has the same cursors and covers the same addresses as in the target. */
  lemma TwinImageSamples(dst: Image, x: nat, y: nat)
    requires dst.format.IsNormal()
    ensures PixelAt(TwinImage(dst), x, y) == PixelAt(dst, x, y)
    ensures SampleAddrs(TwinFormat(dst.format), PixelAt(dst, x, y)) == SampleAddrs(dst.format, PixelAt(dst, x, y))
  {
    RowStartTwin(dst, y);
    AlongTwin(dst.format, RowStart(dst, y), x);
    TwinSteps(dst.format, PixelAt(dst, x, y));
  }

  /** What a conversion from Y, U, V views `cb` into `dst` needs of memory: the source
      bytes of every block and every target sample lie in it. */
  predicate UpsampleFits(mn: nat, cb: seq<ColorComponentBuffer>, dst: Image, width: nat, height: nat) {
    |cb| == 3 && dst.format.IsNormal() ==>
      PlanesReadable(mn, PlanesOf(cb), width / 2, height / 2)
      && ImageIn(mn, TwinImage(dst), 2 * (width / 2), 2 * (height / 2))
  }

  /** Memory after the image whose channel views are `cb` is converted into the `width`
      by `height` rectangle of the normal-format target `dst`: nothing happens unless
      there are exactly the three Y, U, V views and the target has a codec. */
  function Upsampled(cv: Conversions, m: seq<Byte>, cb: seq<ColorComponentBuffer>, dst: Image, width: nat, height: nat): (r: seq<Byte>)
    ensures |r| == |m|
  {
    if |cb| != 3 || !dst.format.IsNormal() then m
    else
      var f := TwinFormat(dst.format);
      SpreadImage(ProcOf(cv, f), Spread(cv, dst.format.ColorSpaceOf() == SpaceYUV), m, PlanesOf(cb),
                  TwinImage(dst), width / 2, height / 2)
  }

  /** `_BitmapData_copyPixels_YUV420ToYUV` and `_BitmapData_copyPixels_YUV420ToOther`
      with their `Step1`: the target format chooses the codec, and the source's Y, U, V
      views give the planes. */
  method CopyFromYUV420(mem: array<Byte>, cv: Conversions, width: nat, height: nat, src: BitmapData, dst: Image)
    requires src.format.IsYUV420() && UpsampleFits(mem.Length, ComponentBuffers(src), dst, width, height)
    modifies mem
    ensures mem[..] == Upsampled(cv, old(mem[..]), ComponentBuffers(src), dst, width, height)
  {
    if !dst.format.IsNormal() {
      return;
    }
    var cb := new ColorComponentBuffer[3](_ => ColorComponentBuffer(0, 0, 0, NullPtr, 0));
    var n := GetColorComponentBuffers(src, cb);
    if n != 3 {
      return;
    }
    assert cb[..] == cb[..n] == ComponentBuffers(src);
    var raw := dst.format.ColorSpaceOf() == SpaceYUV;
    var f := if raw then dst.format.CompatibleRGBFormat() else dst.format;
    Upsample(mem, Spread(cv, raw), PlanesOf(cb[..]), dst.(format := f), width / 2, height / 2, ProcOf(cv, f));
  }

  // ----- What the conversion stores -----

  /** Converting from 4:2:0 views changes no byte outside the target rectangle, and
      nothing at all without exactly three views. */
  lemma UpsampledFrame(cv: Conversions, m: seq<Byte>, cb: seq<ColorComponentBuffer>, dst: Image, width: nat, height: nat, a: Ptr)
    requires dst.format.IsNormal() && (|cb| == 3 ==> !ImageCovers(TwinImage(dst), 2 * (width / 2), 2 * (height / 2), a))
    ensures Peek(Upsampled(cv, m, cb, dst, width, height), a) == Peek(m, a)
  {
    if |cb| == 3 {
      var f := TwinFormat(dst.format);
      ImplementsLawful(ProcOf(cv, f), cv, f);
      SpreadImageFrame(ProcOf(cv, f), Spread(cv, dst.format.ColorSpaceOf() == SpaceYUV), m, PlanesOf(cb),
                       TwinImage(dst), width / 2, height / 2, a);
    }
  }

  /** The hypotheses of the content lemmas: the target rectangle lies in memory, no two of
      its samples share a byte, and no byte the conversion reads is a byte of it. */
  ghost predicate UpsampleApart(mn: nat, cb: seq<ColorComponentBuffer>, dst: Image, width: nat, height: nat)
    requires |cb| == 3 && dst.format.IsNormal()
  {
    var img, w2, h2 := TwinImage(dst), width / 2, height / 2;
    ImageIn(mn, img, 2 * w2, 2 * h2) && ImageSeparated(img, 2 * w2, 2 * h2) && SourceApart(PlanesOf(cb), img, w2, h2)
  }

  /** Each target pixel is stored through the chosen codec from its own luma byte and its
      block's chroma bytes: as they are for a YUV target, converted to RGB otherwise. */
  lemma UpsampledPixel(cv: Conversions, m: seq<Byte>, cb: seq<ColorComponentBuffer>, dst: Image, width: nat, height: nat, x: nat, y: nat)
    requires dst.format.IsNormal() && |cb| == 3 && x < 2 * (width / 2) && y < 2 * (height / 2)
    requires UpsampleApart(|m|, cb, dst, width, height)
    ensures var f, s := TwinFormat(dst.format), PlanesOf(cb);
      var yb, ub, vb := Peek(m, LumaAt(s, x, y)), Peek(m, UAt(s, x, y)), Peek(m, VAt(s, x, y));
      var col := if dst.format.ColorSpaceOf() == SpaceYUV then Rgba(yb, ub, vb, 255) else FromYuv(cv, yb, ub, vb, 255);
      Load(cv, f, Upsampled(cv, m, cb, dst, width, height), PixelAt(TwinImage(dst), x, y))
      == Decode(cv, f, Encode(cv, f, col))
  {
    var f, s := TwinFormat(dst.format), PlanesOf(cb);
    var tp := ProcOf(cv, f);
    ImplementsLawful(tp, cv, f);
    SpreadImageContent(tp, Spread(cv, dst.format.ColorSpaceOf() == SpaceYUV), m, s, TwinImage(dst),
                       width / 2, height / 2, x, y);
  }

  /** A YUV target gets each pixel's luma and chroma bytes as they are, with alpha 255:
      its RGB twin reads back exactly the Y, U, V bytes the source held (for the
      premultiplied targets when un-premultiplying undoes premultiplying). */
  lemma UpsampledYuvKeepsBytes(cv: Conversions, m: seq<Byte>, cb: seq<ColorComponentBuffer>, dst: Image, width: nat, height: nat, x: nat, y: nat)
    requires dst.format.IsNormal() && dst.format.ColorSpaceOf() == SpaceYUV && |cb| == 3
    requires dst.format.IsPrecomputedAlpha() ==> AlphaInverse(cv)
    requires x < 2 * (width / 2) && y < 2 * (height / 2) && UpsampleApart(|m|, cb, dst, width, height)
    ensures var s := PlanesOf(cb);
      Load(cv, dst.format.CompatibleRGBFormat(), Upsampled(cv, m, cb, dst, width, height), PixelAt(TwinImage(dst), x, y))
      == Rgba(Peek(m, LumaAt(s, x, y)), Peek(m, UAt(s, x, y)), Peek(m, VAt(s, x, y)), 255)
  {
    var s, f := PlanesOf(cb), dst.format.CompatibleRGBFormat();
    var col := Rgba(Peek(m, LumaAt(s, x, y)), Peek(m, UAt(s, x, y)), Peek(m, VAt(s, x, y)), 255);
    assert TwinFormat(dst.format) == f;
    UpsampledPixel(cv, m, cb, dst, width, height, x, y);
    RgbCodecRoundTrip(cv, f, col);
    assert col.(a := 255) == col;
  }

  /** An 8-bit RGB target gets each pixel's luma and chroma bytes converted to RGB, with
      alpha 255 (for the premultiplied targets when un-premultiplying undoes
      premultiplying). */
  lemma UpsampledRgbConverts(cv: Conversions, m: seq<Byte>, cb: seq<ColorComponentBuffer>, dst: Image, width: nat, height: nat, x: nat, y: nat)
    requires dst.format.IsNormal() && dst.format.ColorSpaceOf() == SpaceRGB && !Is565(dst.format) && |cb| == 3
    requires dst.format.IsPrecomputedAlpha() ==> AlphaInverse(cv)
    requires x < 2 * (width / 2) && y < 2 * (height / 2) && UpsampleApart(|m|, cb, dst, width, height)
    ensures var s := PlanesOf(cb);
      Load(cv, dst.format, Upsampled(cv, m, cb, dst, width, height), PixelAt(dst, x, y))
      == FromYuv(cv, Peek(m, LumaAt(s, x, y)), Peek(m, UAt(s, x, y)), Peek(m, VAt(s, x, y)), 255)
  {
    var s := PlanesOf(cb);
    UpsampledPixel(cv, m, cb, dst, width, height, x, y);
    RgbCodecRoundTrip(cv, dst.format, FromYuv(cv, Peek(m, LumaAt(s, x, y)), Peek(m, UAt(s, x, y)), Peek(m, VAt(s, x, y)), 255));
  }
}
