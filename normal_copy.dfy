/** Converting a rectangle between two normal formats, sample by sample: for every row,
    for every column, read one sample with the source codec and write it with the target
    codec, then move both images' row pointers on by their pitches.

    `CopyImage` is the memory this produces, defined step by step in the order the stores
    happen, so a source sample is read from memory as the stores before it left it.  The
    loops are stated over any pair of codecs given as values (`Proc`), as the conversion
    template is instantiated with any pair of proc classes; `ProcOf` gives each format's. */
module NormalCopy {
  import opened Memory
  import opened BitmapFormats
  import opened SampleCodecs
  import opened SampleProcs
  import opened CodecLaws

  /** A normal-format image in memory: its format, the first row's cursor in each plane
      and each plane's pitch (negative pitches walk upwards). */
  datatype Image = Image(format: BitmapFormat, rows: Quad, pitches: Quad) {
    /** The same image without its first row. */
    function Below(): Image {
      this.(rows := rows.Plus(pitches))
    }
  }

  // ----- Geometry -----

  /** The cursors of the sample `k` places along a row whose first sample is at `c`. */
  function Along(f: BitmapFormat, c: Quad, k: nat): Quad
    requires f.IsNormal()
    decreases k
  {
    if k == 0 then c else Along(f, Advance(f, c), k - 1)
  }

  /** The cursors of the first sample of row `y`. */
  function RowStart(img: Image, y: nat): Quad
    decreases y
  {
    if y == 0 then img.rows else RowStart(img.Below(), y - 1)
  }

  /** The cursors of the sample at column `x` of row `y`. */
  function PixelAt(img: Image, x: nat, y: nat): Quad
    requires img.format.IsNormal()
  {
    Along(img.format, RowStart(img, y), x)
  }

  /** Every sample of the `n` starting at `c` lies in a memory of `mn` bytes. */
  predicate RowIn(mn: nat, f: BitmapFormat, c: Quad, n: nat)
    requires f.IsNormal()
    decreases n
  {
    n == 0 || (SampleIn(mn, f, c) && RowIn(mn, f, Advance(f, c), n - 1))
  }

  /** Every sample of a `w` by `h` rectangle of `img` lies in a memory of `mn` bytes. */
  predicate ImageIn(mn: nat, img: Image, w: nat, h: nat)
    requires img.format.IsNormal()
    decreases h
  {
    h == 0 || (RowIn(mn, img.format, img.rows, w) && ImageIn(mn, img.Below(), w, h - 1))
  }

  /** Every byte the reader reads for the `n` samples starting at `c` lies in a memory of
      `mn` bytes. */
  predicate RowReadIn(mn: nat, f: BitmapFormat, c: Quad, n: nat)
    requires f.IsNormal()
    decreases n
  {
    n == 0 || (ReadIn(mn, f, c) && RowReadIn(mn, f, Advance(f, c), n - 1))
  }

  /** Every byte the reader reads for a `w` by `h` rectangle of `img` lies in a memory of
      `mn` bytes. */
  predicate ImageReadIn(mn: nat, img: Image, w: nat, h: nat)
    requires img.format.IsNormal()
    decreases h
  {
    h == 0 || (RowReadIn(mn, img.format, img.rows, w) && ImageReadIn(mn, img.Below(), w, h - 1))
  }

  /** `a` is a byte of one of the `n` consecutive samples starting at `c`. */
  predicate RowCovers(f: BitmapFormat, c: Quad, n: nat, a: Ptr)
    requires f.IsNormal()
    decreases n
  {
    n > 0 && (Covers(f, c, a) || RowCovers(f, Advance(f, c), n - 1, a))
  }

  /** `a` is a byte of one of the samples of a `w` by `h` rectangle of `img`. */
  predicate ImageCovers(img: Image, w: nat, h: nat, a: Ptr)
    requires img.format.IsNormal()
    decreases h
  {
    h > 0 && (RowCovers(img.format, img.rows, w, a) || ImageCovers(img.Below(), w, h - 1, a))
  }

  /** `a` is a byte the reader reads for one of the `n` consecutive samples starting at `c`. */
  predicate RowReads(f: BitmapFormat, c: Quad, n: nat, a: Ptr)
    requires f.IsNormal()
    decreases n
  {
    n > 0 && (Reads(f, c, a) || RowReads(f, Advance(f, c), n - 1, a))
  }

  /** `a` is a byte the reader reads for one of the samples of a `w` by `h` rectangle of `img`. */
  predicate ImageReads(img: Image, w: nat, h: nat, a: Ptr)
    requires img.format.IsNormal()
    decreases h
  {
    h > 0 && (RowReads(img.format, img.rows, w, a) || ImageReads(img.Below(), w, h - 1, a))
  }

  /** No two samples of the row share a byte, and within each sample the planes are apart. */
  ghost predicate RowSeparated(f: BitmapFormat, c: Quad, n: nat)
    requires f.IsNormal()
    decreases n
  {
    n == 0
    || (PlanesApart(f, c) && (forall a :: Covers(f, c, a) ==> !RowCovers(f, Advance(f, c), n - 1, a))
        && RowSeparated(f, Advance(f, c), n - 1))
  }

  /** No two samples of the rectangle share a byte, and within each sample the planes are apart. */
  ghost predicate ImageSeparated(img: Image, w: nat, h: nat)
    requires img.format.IsNormal()
    decreases h
  {
    h == 0
    || (RowSeparated(img.format, img.rows, w)
        && (forall a :: RowCovers(img.format, img.rows, w, a) ==> !ImageCovers(img.Below(), w, h - 1, a))
        && ImageSeparated(img.Below(), w, h - 1))
  }

  /** No byte the source row's reader reads is a byte of the target row. */
  ghost predicate RowsApart(sf: BitmapFormat, sc: Quad, df: BitmapFormat, dc: Quad, n: nat)
    requires sf.IsNormal() && df.IsNormal()
  {
    forall a :: RowReads(sf, sc, n, a) ==> !RowCovers(df, dc, n, a)
  }

  /** No byte the source rectangle's reader reads is a byte of the target rectangle. */
  ghost predicate ImagesApart(src: Image, dst: Image, w: nat, h: nat)
    requires src.format.IsNormal() && dst.format.IsNormal()
  {
    forall a :: ImageReads(src, w, h, a) ==> !ImageCovers(dst, w, h, a)
  }

  /** The bytes of each sample of a row are bytes of the row, and lie in memory with it. */
  lemma {:induction false} RowHolds(mn: nat, f: BitmapFormat, c: Quad, n: nat, k: nat)
    requires f.IsNormal() && k < n
    ensures forall a :: Covers(f, Along(f, c, k), a) ==> RowCovers(f, c, n, a)
    ensures RowIn(mn, f, c, n) ==> SampleIn(mn, f, Along(f, c, k))
    decreases n
  {
    if k > 0 {
      RowHolds(mn, f, Advance(f, c), n - 1, k - 1);
    }
  }

  /** The bytes of each row of a rectangle are bytes of the rectangle, and lie in memory
      with it. */
  lemma {:induction false} ImageHolds(mn: nat, img: Image, w: nat, h: nat, y: nat)
    requires img.format.IsNormal() && y < h
    ensures forall a :: RowCovers(img.format, RowStart(img, y), w, a) ==> ImageCovers(img, w, h, a)
    ensures ImageIn(mn, img, w, h) ==> RowIn(mn, img.format, RowStart(img, y), w)
    decreases h
  {
    if y > 0 {
      ImageHolds(mn, img.Below(), w, h - 1, y - 1);
    }
  }

  /** The bytes read for each sample of a row are bytes read for the row, and lie in
      memory with it. */
  lemma {:induction false} RowReadsHold(mn: nat, f: BitmapFormat, c: Quad, n: nat, k: nat)
    requires f.IsNormal() && k < n
    ensures forall a :: Reads(f, Along(f, c, k), a) ==> RowReads(f, c, n, a)
    ensures RowReadIn(mn, f, c, n) ==> ReadIn(mn, f, Along(f, c, k))
    decreases n
  {
    if k > 0 {
      RowReadsHold(mn, f, Advance(f, c), n - 1, k - 1);
    }
  }

  /** The bytes read for each row of a rectangle are bytes read for the rectangle. */
  lemma {:induction false} ImageReadsHold(img: Image, w: nat, h: nat, y: nat)
    requires img.format.IsNormal() && y < h
    ensures forall a :: RowReads(img.format, RowStart(img, y), w, a) ==> ImageReads(img, w, h, a)
    decreases h
  {
    if y > 0 {
      ImageReadsHold(img.Below(), w, h - 1, y - 1);
    }
  }

  /** The next sample of a row is one advance on from this one. */
  lemma {:induction false} AlongNext(f: BitmapFormat, c: Quad, k: nat)
    requires f.IsNormal()
    ensures Along(f, c, k + 1) == Advance(f, Along(f, c, k))
    decreases k
  {
    if k > 0 {
      AlongNext(f, Advance(f, c), k - 1);
    }
  }

  /** The next row starts one pitch on from this one. */
  lemma {:induction false} RowStartNext(img: Image, y: nat)
    ensures RowStart(img, y + 1) == RowStart(img, y).Plus(img.pitches)
    decreases y
  {
    if y > 0 {
      RowStartNext(img.Below(), y - 1);
    }
  }

  /** Two different samples of a separated row share no byte. */
  lemma {:induction false} RowSamplesApart(f: BitmapFormat, c: Quad, n: nat, k: nat, k': nat, a: Ptr)
    requires f.IsNormal() && RowSeparated(f, c, n) && k < n && k' < n && k != k'
    requires Covers(f, Along(f, c, k), a)
    ensures !Covers(f, Along(f, c, k'), a)
    decreases n
  {
    var c', n' := Advance(f, c), n - 1;
    if k == 0 {
      RowHolds(0, f, c', n', k' - 1);
    } else if k' == 0 {
      RowHolds(0, f, c', n', k - 1);
    } else {
      RowSamplesApart(f, c', n', k - 1, k' - 1, a);
    }
  }

  /** Two different pixels of a separated rectangle share no byte. */
  lemma {:induction false} PixelsApart(img: Image, w: nat, h: nat, x: nat, y: nat, x': nat, y': nat, a: Ptr)
    requires img.format.IsNormal() && ImageSeparated(img, w, h)
    requires x < w && y < h && x' < w && y' < h && (x != x' || y != y')
    requires Covers(img.format, PixelAt(img, x, y), a)
    ensures !Covers(img.format, PixelAt(img, x', y'), a)
    decreases h
  {
    var f, b := img.format, img.Below();
    if y == 0 && y' == 0 {
      RowSamplesApart(f, img.rows, w, x, x', a);
    } else if y == 0 {
      RowHolds(0, f, img.rows, w, x);
      assert PixelAt(b, x', y' - 1) == PixelAt(img, x', y');
      PixelHolds(0, b, w, h - 1, x', y' - 1);
    } else if y' == 0 {
      RowHolds(0, f, img.rows, w, x');
      assert PixelAt(b, x, y - 1) == PixelAt(img, x, y);
      PixelHolds(0, b, w, h - 1, x, y - 1);
    } else {
      assert PixelAt(b, x, y - 1) == PixelAt(img, x, y);
      assert PixelAt(b, x', y' - 1) == PixelAt(img, x', y');
      PixelsApart(b, w, h - 1, x, y - 1, x', y' - 1, a);
    }
  }

  /** Within every sample of a separated row the planes are apart. */
  lemma {:induction false} RowPlanesApart(f: BitmapFormat, c: Quad, n: nat, k: nat)
    requires f.IsNormal() && RowSeparated(f, c, n) && k < n
    ensures PlanesApart(f, Along(f, c, k))
    decreases n
  {
    if k > 0 {
      RowPlanesApart(f, Advance(f, c), n - 1, k - 1);
    }
  }

  /** Within every pixel of a separated rectangle the planes are apart. */
  lemma {:induction false} PixelPlanesApart(img: Image, w: nat, h: nat, x: nat, y: nat)
    requires img.format.IsNormal() && ImageSeparated(img, w, h) && x < w && y < h
    ensures PlanesApart(img.format, PixelAt(img, x, y))
    decreases h
  {
    if y == 0 {
      RowPlanesApart(img.format, img.rows, w, x);
    } else {
      assert PixelAt(img.Below(), x, y - 1) == PixelAt(img, x, y);
      PixelPlanesApart(img.Below(), w, h - 1, x, y - 1);
    }
  }

  // ----- The conversion, step by step -----

  /** Memory after converting the one sample at `sc` into the one at `dc`. */
  function CopySample(sp: Proc, dp: Proc, m: seq<Byte>, sc: Quad, dc: Quad): (r: seq<Byte>)
    ensures |r| == |m|
  {
    Apply(m, dp.write(dc, sp.read(m, sc)))
  }

  /** Memory after converting `n` consecutive samples of a row. */
  function CopyRow(sp: Proc, dp: Proc, sf: BitmapFormat, df: BitmapFormat, m: seq<Byte>, sc: Quad, dc: Quad, n: nat): (r: seq<Byte>)
    requires sf.IsNormal() && df.IsNormal()
    ensures |r| == |m|
    decreases n
  {
    if n == 0 then m
    else CopyRow(sp, dp, sf, df, CopySample(sp, dp, m, sc, dc), Advance(sf, sc), Advance(df, dc), n - 1)
  }

  /** Memory after converting a `w` by `h` rectangle, row by row. */
  function CopyImage(sp: Proc, dp: Proc, src: Image, dst: Image, m: seq<Byte>, w: nat, h: nat): (r: seq<Byte>)
    requires src.format.IsNormal() && dst.format.IsNormal()
    ensures |r| == |m|
    decreases h
  {
    if h == 0 then m
    else
      var m1 := CopyRow(sp, dp, src.format, dst.format, m, src.rows, dst.rows, w);
      CopyImage(sp, dp, src.Below(), dst.Below(), m1, w, h - 1)
  }

  /** The conversion loop: rows outside, columns inside, one read and one write per pixel. */
  method CopyNormal(mem: array<Byte>, cv: Conversions, src: Image, dst: Image, w: nat, h: nat, ghost sp: Proc, ghost dp: Proc)
    requires src.format.IsNormal() && dst.format.IsNormal()
    requires Implements(sp, cv, src.format) && Implements(dp, cv, dst.format)
    requires ImageReadIn(mem.Length, src, w, h) && ImageIn(mem.Length, dst, w, h)
    modifies mem
    ensures mem[..] == CopyImage(sp, dp, src, dst, old(mem[..]), w, h)
  {
    var sf, df := src.format, dst.format;
    var s, d := src, dst;
    var i := 0;
    while i < h
      invariant 0 <= i <= h && s.format == sf && d.format == df
      invariant ImageReadIn(mem.Length, s, w, h - i) && ImageIn(mem.Length, d, w, h - i)
      invariant CopyImage(sp, dp, src, dst, old(mem[..]), w, h) == CopyImage(sp, dp, s, d, mem[..], w, h - i)
    {
      CopyRowLoop(mem, cv, sf, df, s.rows, d.rows, w, sp, dp);
      s, d := s.Below(), d.Below();
      i := i + 1;
    }
  }

  method CopyRowLoop(mem: array<Byte>, cv: Conversions, sf: BitmapFormat, df: BitmapFormat, sc: Quad, dc: Quad, n: nat, ghost sp: Proc, ghost dp: Proc)
    requires sf.IsNormal() && df.IsNormal() && Implements(sp, cv, sf) && Implements(dp, cv, df)
    requires RowReadIn(mem.Length, sf, sc, n) && RowIn(mem.Length, df, dc, n)
    modifies mem
    ensures mem[..] == CopyRow(sp, dp, sf, df, old(mem[..]), sc, dc, n)
  {
    var ss, ds := sc, dc;
    var j := 0;
    while j < n
      invariant 0 <= j <= n
      invariant RowReadIn(mem.Length, sf, ss, n - j) && RowIn(mem.Length, df, ds, n - j)
      invariant CopyRow(sp, dp, sf, df, old(mem[..]), sc, dc, n) == CopyRow(sp, dp, sf, df, mem[..], ss, ds, n - j)
    {
      ss, ds := CopyStep(mem, cv, sf, df, ss, ds, sp, dp);
      j := j + 1;
    }
  }

  /** One pass of the inner loop: read a sample at the source cursors, write it at the
      target cursors. */
  method CopyStep(mem: array<Byte>, cv: Conversions, sf: BitmapFormat, df: BitmapFormat, sc: Quad, dc: Quad, ghost sp: Proc, ghost dp: Proc)
    returns (sc': Quad, dc': Quad)
    requires sf.IsNormal() && df.IsNormal() && Implements(sp, cv, sf) && Implements(dp, cv, df)
    requires ReadIn(mem.Length, sf, sc) && SampleIn(mem.Length, df, dc)
    modifies mem
    ensures mem[..] == CopySample(sp, dp, old(mem[..]), sc, dc)
    ensures sc' == Advance(sf, sc) && dc' == Advance(df, dc)
  {
    var col;
    col, sc' := ReadSample(mem, cv, sf, sc);
    dc' := WriteSample(mem, cv, df, dc, col);
  }

  /** The two format switches: a source or target format outside the normal ones selects
      no codec and nothing is converted. */
  method CopyPixelsNormal(mem: array<Byte>, cv: Conversions, src: Image, dst: Image, w: nat, h: nat)
    requires src.format.IsNormal() ==> ImageReadIn(mem.Length, src, w, h)
    requires dst.format.IsNormal() ==> ImageIn(mem.Length, dst, w, h)
    modifies mem
    ensures !src.format.IsNormal() || !dst.format.IsNormal() ==> mem[..] == old(mem[..])
    ensures src.format.IsNormal() && dst.format.IsNormal() ==>
      mem[..] == CopyImage(ProcOf(cv, src.format), ProcOf(cv, dst.format), src, dst, old(mem[..]), w, h)
  {
    if src.format.IsNormal() && dst.format.IsNormal() {
      CopyNormal(mem, cv, src, dst, w, h, ProcOf(cv, src.format), ProcOf(cv, dst.format));
    }
  }

  // ----- What the conversion writes -----

  /** Converting one sample stores only to the target sample's bytes. */
  lemma CopySampleFrame(sp: Proc, dp: Proc, df: BitmapFormat, m: seq<Byte>, sc: Quad, dc: Quad, a: Ptr)
    requires df.IsNormal() && WritesLocally(dp, df)
    requires 0 <= a < |m| && !Covers(df, dc, a)
    ensures CopySample(sp, dp, m, sc, dc)[a] == m[a]
  {
    ApplyOutside(m, dp.write(dc, sp.read(m, sc)), a);
  }

  /** Converting a row stores only to the target row's bytes. */
  lemma {:induction false} CopyRowFrame(sp: Proc, dp: Proc, sf: BitmapFormat, df: BitmapFormat, m: seq<Byte>, sc: Quad, dc: Quad, n: nat, a: Ptr)
    requires sf.IsNormal() && df.IsNormal() && WritesLocally(dp, df)
    requires 0 <= a < |m| && !RowCovers(df, dc, n, a)
    ensures CopyRow(sp, dp, sf, df, m, sc, dc, n)[a] == m[a]
    decreases n
  {
    if n > 0 {
      var m1 := CopySample(sp, dp, m, sc, dc);
      CopySampleFrame(sp, dp, df, m, sc, dc, a);
      CopyRowFrame(sp, dp, sf, df, m1, Advance(sf, sc), Advance(df, dc), n - 1, a);
    }
  }

  /** Converting a rectangle changes no byte outside the target rectangle's samples: row
      padding, other planes' unused bytes and the rest of memory keep their values. */
  lemma {:induction false} CopyImageFrame(sp: Proc, dp: Proc, src: Image, dst: Image, m: seq<Byte>, w: nat, h: nat, a: Ptr)
    requires src.format.IsNormal() && dst.format.IsNormal() && WritesLocally(dp, dst.format)
    requires 0 <= a < |m| && !ImageCovers(dst, w, h, a)
    ensures CopyImage(sp, dp, src, dst, m, w, h)[a] == m[a]
    decreases h
  {
    if h > 0 {
      var m1 := CopyRow(sp, dp, src.format, dst.format, m, src.rows, dst.rows, w);
      CopyRowFrame(sp, dp, src.format, dst.format, m, src.rows, dst.rows, w, a);
      CopyImageFrame(sp, dp, src.Below(), dst.Below(), m1, w, h - 1, a);
    }
  }

  // ----- What the conversion stores -----

  /** Converting a row keeps the value any lawful codec reads at cursors none of whose
      bytes the target row uses. */
  lemma CopyRowKeeps(sp: Proc, dp: Proc, sf: BitmapFormat, df: BitmapFormat, m: seq<Byte>, sc: Quad, dc: Quad, n: nat,
                     p: Proc, f: BitmapFormat, c: Quad)
    requires sf.IsNormal() && df.IsNormal() && f.IsNormal() && WritesLocally(dp, df) && Lawful(p, f)
    requires forall a :: Covers(f, c, a) ==> !RowCovers(df, dc, n, a)
    ensures p.read(CopyRow(sp, dp, sf, df, m, sc, dc, n), c) == p.read(m, c)
  {
    var r := CopyRow(sp, dp, sf, df, m, sc, dc, n);
    forall a | Covers(f, c, a) && 0 <= a < |r| ensures r[a] == m[a] {
      CopyRowFrame(sp, dp, sf, df, m, sc, dc, n, a);
    }
    assert SameSample(f, c, r, m);
  }

  /** Converting a rectangle keeps the value any lawful codec reads at cursors none of
      whose bytes the target rectangle uses. */
  lemma CopyImageKeeps(sp: Proc, dp: Proc, src: Image, dst: Image, m: seq<Byte>, w: nat, h: nat,
                       p: Proc, f: BitmapFormat, c: Quad)
    requires src.format.IsNormal() && dst.format.IsNormal() && f.IsNormal() && WritesLocally(dp, dst.format) && Lawful(p, f)
    requires forall a :: Covers(f, c, a) ==> !ImageCovers(dst, w, h, a)
    ensures p.read(CopyImage(sp, dp, src, dst, m, w, h), c) == p.read(m, c)
  {
    var r := CopyImage(sp, dp, src, dst, m, w, h);
    forall a | Covers(f, c, a) && 0 <= a < |r| ensures r[a] == m[a] {
      CopyImageFrame(sp, dp, src, dst, m, w, h, a);
    }
    assert SameSample(f, c, r, m);
  }

  /** Converting a row keeps the value a reader reads at cursors none of whose read bytes
      the target row uses. */
  lemma CopyRowSparesRead(sp: Proc, dp: Proc, sf: BitmapFormat, df: BitmapFormat, m: seq<Byte>, sc: Quad, dc: Quad, n: nat,
                          p: Proc, f: BitmapFormat, c: Quad)
    requires sf.IsNormal() && df.IsNormal() && f.IsNormal() && WritesLocally(dp, df) && ReadsLocally(p, f)
    requires forall a :: Reads(f, c, a) ==> !RowCovers(df, dc, n, a)
    ensures p.read(CopyRow(sp, dp, sf, df, m, sc, dc, n), c) == p.read(m, c)
  {
    var r := CopyRow(sp, dp, sf, df, m, sc, dc, n);
    forall a | Reads(f, c, a) && 0 <= a < |r| ensures r[a] == m[a] {
      CopyRowFrame(sp, dp, sf, df, m, sc, dc, n, a);
    }
    assert SameRead(f, c, r, m);
  }

  /** The first target sample of a converted row holds the echo of the first source
      sample: the later samples of the row do not touch it. */
  lemma CopyRowFirst(sp: Proc, dp: Proc, sf: BitmapFormat, df: BitmapFormat, m: seq<Byte>, sc: Quad, dc: Quad, n: nat)
    requires sf.IsNormal() && df.IsNormal() && Lawful(dp, df) && n > 0
    requires RowIn(|m|, df, dc, n) && RowSeparated(df, dc, n)
    ensures dp.read(CopyRow(sp, dp, sf, df, m, sc, dc, n), dc) == dp.echo(sp.read(m, sc))
  {
    var col := sp.read(m, sc);
    var m1 := CopySample(sp, dp, m, sc, dc);
    CopyRowKeeps(sp, dp, sf, df, m1, Advance(sf, sc), Advance(df, dc), n - 1, dp, df, dc);
    assert SampleIn(|m|, df, dc) && PlanesApart(df, dc);
    assert dp.read(Apply(m, dp.write(dc, col)), dc) == dp.echo(col);
  }

  /** Converting a row's first sample leaves the later source samples as they were when
      the target row holds no byte the source row's reader reads. */
  lemma CopySampleSparesSource(sp: Proc, dp: Proc, sf: BitmapFormat, df: BitmapFormat, m: seq<Byte>, sc: Quad, dc: Quad, n: nat, k: nat)
    requires sf.IsNormal() && df.IsNormal() && ReadsLocally(sp, sf) && WritesLocally(dp, df) && k + 1 < n
    requires RowsApart(sf, sc, df, dc, n)
    ensures var c := Along(sf, Advance(sf, sc), k);
      sp.read(CopySample(sp, dp, m, sc, dc), c) == sp.read(m, c)
  {
    var c := Along(sf, Advance(sf, sc), k);
    var m1 := CopySample(sp, dp, m, sc, dc);
    assert Along(sf, sc, k + 1) == c;
    RowReadsHold(|m|, sf, sc, n, k + 1);
    forall a | Reads(sf, c, a) && 0 <= a < |m| ensures m1[a] == m[a] {
      assert RowReads(sf, sc, n, a);
      assert !RowCovers(df, dc, n, a);
      CopySampleFrame(sp, dp, df, m, sc, dc, a);
    }
    assert SameRead(sf, c, m1, m);
    assert sp.read(m1, c) == sp.read(m, c);
  }

  /** The rest of two rows that do not overlap do not overlap either. */
  lemma RowsApartRest(sf: BitmapFormat, sc: Quad, df: BitmapFormat, dc: Quad, n: nat)
    requires sf.IsNormal() && df.IsNormal() && n > 0 && RowsApart(sf, sc, df, dc, n)
    ensures RowsApart(sf, Advance(sf, sc), df, Advance(df, dc), n - 1)
  {
    var sc', dc', n' := Advance(sf, sc), Advance(df, dc), n - 1;
    forall a | RowReads(sf, sc', n', a) ensures !RowCovers(df, dc', n', a) {
      assert RowReads(sf, sc, n, a);
    }
  }

  /** After a row is converted from a source row that does not overlap it, each target
      sample holds the echo of the source sample in the same column. */
  lemma {:induction false} CopyRowContent(sp: Proc, dp: Proc, sf: BitmapFormat, df: BitmapFormat, m: seq<Byte>, sc: Quad, dc: Quad, n: nat, k: nat)
    requires sf.IsNormal() && df.IsNormal() && ReadsLocally(sp, sf) && Lawful(dp, df) && k < n
    requires RowIn(|m|, df, dc, n) && RowSeparated(df, dc, n) && RowsApart(sf, sc, df, dc, n)
    ensures dp.read(CopyRow(sp, dp, sf, df, m, sc, dc, n), Along(df, dc, k)) == dp.echo(sp.read(m, Along(sf, sc, k)))
    decreases n
  {
    if k == 0 {
      CopyRowFirst(sp, dp, sf, df, m, sc, dc, n);
    } else {
      var m1 := CopySample(sp, dp, m, sc, dc);
      RowsApartRest(sf, sc, df, dc, n);
      CopyRowContent(sp, dp, sf, df, m1, Advance(sf, sc), Advance(df, dc), n - 1, k - 1);
      CopySampleSparesSource(sp, dp, sf, df, m, sc, dc, n, k - 1);
    }
  }

  /** The bytes of a pixel are bytes of its rectangle, and lie in memory with it. */
  lemma PixelHolds(mn: nat, img: Image, w: nat, h: nat, x: nat, y: nat)
    requires img.format.IsNormal() && x < w && y < h
    ensures forall a :: Covers(img.format, PixelAt(img, x, y), a) ==> ImageCovers(img, w, h, a)
    ensures ImageIn(mn, img, w, h) ==> SampleIn(mn, img.format, PixelAt(img, x, y))
  {
    ImageHolds(mn, img, w, h, y);
    RowHolds(mn, img.format, RowStart(img, y), w, x);
  }

  /** The bytes read for a pixel are bytes read for its rectangle. */
  lemma PixelReadsHold(img: Image, w: nat, h: nat, x: nat, y: nat)
    requires img.format.IsNormal() && x < w && y < h
    ensures forall a :: Reads(img.format, PixelAt(img, x, y), a) ==> ImageReads(img, w, h, a)
  {
    ImageReadsHold(img, w, h, y);
    RowReadsHold(0, img.format, RowStart(img, y), w, x);
  }

  /** The first rows of two rectangles that do not overlap do not overlap, nor do the
      rectangles below them. */
  lemma ImagesApartSplit(src: Image, dst: Image, w: nat, h: nat)
    requires src.format.IsNormal() && dst.format.IsNormal() && h > 0 && ImagesApart(src, dst, w, h)
    ensures RowsApart(src.format, src.rows, dst.format, dst.rows, w)
    ensures ImagesApart(src.Below(), dst.Below(), w, h - 1)
  {
    var s', d', h' := src.Below(), dst.Below(), h - 1;
    forall a | RowReads(src.format, src.rows, w, a) ensures !RowCovers(dst.format, dst.rows, w, a) {
      assert ImageReads(src, w, h, a);
    }
    forall a | ImageReads(s', w, h', a) ensures !ImageCovers(d', w, h', a) {
      assert ImageReads(src, w, h, a);
    }
  }

  /** After a rectangle is converted from a source rectangle that does not overlap it,
      each target pixel holds the echo of the source pixel at the same place. */
  lemma {:induction false} CopyImageContent(sp: Proc, dp: Proc, src: Image, dst: Image, m: seq<Byte>, w: nat, h: nat, x: nat, y: nat)
    requires src.format.IsNormal() && dst.format.IsNormal() && ReadsLocally(sp, src.format) && Lawful(dp, dst.format)
    requires x < w && y < h
    requires ImageIn(|m|, dst, w, h) && ImageSeparated(dst, w, h) && ImagesApart(src, dst, w, h)
    ensures dp.read(CopyImage(sp, dp, src, dst, m, w, h), PixelAt(dst, x, y)) == dp.echo(sp.read(m, PixelAt(src, x, y)))
    decreases h
  {
    var sf, df := src.format, dst.format;
    var m1 := CopyRow(sp, dp, sf, df, m, src.rows, dst.rows, w);
    ImagesApartSplit(src, dst, w, h);
    if y == 0 {
      CopyRowContent(sp, dp, sf, df, m, src.rows, dst.rows, w, x);
      var c := PixelAt(dst, x, 0);
      RowHolds(|m|, df, dst.rows, w, x);
      CopyImageKeeps(sp, dp, src.Below(), dst.Below(), m1, w, h - 1, dp, df, c);
    } else {
      CopyImageContent(sp, dp, src.Below(), dst.Below(), m1, w, h - 1, x, y - 1);
      var c := PixelAt(src, x, y);
      assert PixelAt(src.Below(), x, y - 1) == c && PixelAt(dst.Below(), x, y - 1) == PixelAt(dst, x, y);
      PixelReadsHold(src, w, h, x, y);
      forall a | Reads(sf, c, a) ensures !RowCovers(df, dst.rows, w, a) {
        assert !ImageCovers(dst, w, h, a);
      }
      CopyRowSparesRead(sp, dp, sf, df, m, src.rows, dst.rows, w, sp, sf, c);
    }
  }

  /** The conversion's stores do not depend on how the target codec reads. */
  lemma {:induction false} CopyRowSameWriter(sp: Proc, dp: Proc, dq: Proc, sf: BitmapFormat, df: BitmapFormat, m: seq<Byte>, sc: Quad, dc: Quad, n: nat)
    requires sf.IsNormal() && df.IsNormal() && dp.write == dq.write
    ensures CopyRow(sp, dp, sf, df, m, sc, dc, n) == CopyRow(sp, dq, sf, df, m, sc, dc, n)
    decreases n
  {
    if n > 0 {
      assert CopySample(sp, dp, m, sc, dc) == CopySample(sp, dq, m, sc, dc);
      CopyRowSameWriter(sp, dp, dq, sf, df, CopySample(sp, dp, m, sc, dc), Advance(sf, sc), Advance(df, dc), n - 1);
    }
  }

  lemma {:induction false} CopyImageSameWriter(sp: Proc, dp: Proc, dq: Proc, src: Image, dst: Image, m: seq<Byte>, w: nat, h: nat)
    requires src.format.IsNormal() && dst.format.IsNormal() && dp.write == dq.write
    ensures CopyImage(sp, dp, src, dst, m, w, h) == CopyImage(sp, dq, src, dst, m, w, h)
    decreases h
  {
    if h > 0 {
      var m1 := CopyRow(sp, dp, src.format, dst.format, m, src.rows, dst.rows, w);
      CopyRowSameWriter(sp, dp, dq, src.format, dst.format, m, src.rows, dst.rows, w);
      CopyImageSameWriter(sp, dp, dq, src.Below(), dst.Below(), m1, w, h - 1);
    }
  }

  // ----- The formats' codecs -----

  /** After a rectangle is converted between two normal formats from a source rectangle
      whose read bytes the target does not overlap, each target pixel's bytes hold the
      source pixel as the target codec stores it and decodes it back, and the target's
      reader reads that back unless the target is premultiplied packed YUVA. */
  lemma CopyPixelsNormalStores(cv: Conversions, sp: Proc, dp: Proc, src: Image, dst: Image, m: seq<Byte>, w: nat, h: nat, x: nat, y: nat)
    requires src.format.IsNormal() && dst.format.IsNormal()
    requires Implements(sp, cv, src.format) && Implements(dp, cv, dst.format) && x < w && y < h
    requires ImageIn(|m|, dst, w, h) && ImageSeparated(dst, w, h) && ImagesApart(src, dst, w, h)
    ensures var r, c := CopyImage(sp, dp, src, dst, m, w, h), PixelAt(dst, x, y);
      var e := Decode(cv, dst.format, Encode(cv, dst.format, Load(cv, src.format, m, PixelAt(src, x, y))));
      Stored(cv, dst.format, r, c) == e && (!dst.format.YUVA_PA? ==> Load(cv, dst.format, r, c) == e)
  {
    var r, c := CopyImage(sp, dp, src, dst, m, w, h), PixelAt(dst, x, y);
    var dq := WithStoredRead(dp, cv, dst.format);
    ImplementsReadsLocally(sp, cv, src.format);
    ImplementsStoredLawful(dp, cv, dst.format);
    CopyImageContent(sp, dq, src, dst, m, w, h, x, y);
    CopyImageSameWriter(sp, dp, dq, src, dst, m, w, h);
    if !dst.format.YUVA_PA? {
      LoadIsStored(cv, dst.format, r, c);
    }
  }

  /** With exact colour conversions and a target format that keeps 8 bits per channel,
      the conversion is lossless: each target pixel's bytes decode to the source pixel,
      with alpha 255 when the target has no alpha byte, and the target's reader reads that
      back unless the target is premultiplied packed YUVA. */
  lemma CopyPixelsNormalLossless(cv: Conversions, sp: Proc, dp: Proc, src: Image, dst: Image, m: seq<Byte>, w: nat, h: nat, x: nat, y: nat)
    requires src.format.IsNormal() && dst.format.IsNormal() && !Is565(dst.format) && !dst.format.GRAY8?
    requires Implements(sp, cv, src.format) && Implements(dp, cv, dst.format) && x < w && y < h
    requires YuvInverse(cv) && AlphaInverse(cv)
    requires ImageIn(|m|, dst, w, h) && ImageSeparated(dst, w, h) && ImagesApart(src, dst, w, h)
    ensures var col, r, c := Load(cv, src.format, m, PixelAt(src, x, y)), CopyImage(sp, dp, src, dst, m, w, h), PixelAt(dst, x, y);
      var e := if HasNoAlpha(dst.format) then col.(a := 255) else col;
      Stored(cv, dst.format, r, c) == e && (!dst.format.YUVA_PA? ==> Load(cv, dst.format, r, c) == e)
  {
    CopyPixelsNormalStores(cv, sp, dp, src, dst, m, w, h, x, y);
    CodecRoundTrip(cv, dst.format, Load(cv, src.format, m, PixelAt(src, x, y)));
  }

  /** Converting a rectangle between two normal formats changes no byte outside the target
      rectangle's samples. */
  lemma CopyPixelsNormalFrame(cv: Conversions, sp: Proc, dp: Proc, src: Image, dst: Image, m: seq<Byte>, w: nat, h: nat, a: Ptr)
    requires src.format.IsNormal() && dst.format.IsNormal() && Implements(dp, cv, dst.format)
    requires 0 <= a < |m| && !ImageCovers(dst, w, h, a)
    ensures CopyImage(sp, dp, src, dst, m, w, h)[a] == m[a]
  {
    ImplementsWritesLocally(dp, cv, dst.format);
    CopyImageFrame(sp, dp, src, dst, m, w, h, a);
  }
}
