/** Properties of the sample codecs: where one sample lies and how far the cursors move,
    what reading back a stored sample gives, and how the premultiplied, YUV, grey and
    RGB565 codecs relate to the plain 8-bit RGB ones. */
module CodecLaws {
  import opened Memory
  import opened BitmapFormats
  import opened SampleCodecs

  // ----- Footprints -----

  /** A packed sample occupies the bytes from its cursor up to the advanced cursor, which
      moves on by the format's bytes per sample, so consecutive samples tile a row. */
  lemma PackedSampleFootprint(f: BitmapFormat, c: Quad)
    requires f.IsNormal() && f.PlanesCount() == 1
    ensures Advance(f, c) == c.(p0 := c.p0 + f.BitsPerSample() / 8)
    ensures forall a :: Covers(f, c, a) <==> c.p0 <= a < Advance(f, c).p0
    ensures Distinct(SampleAddrs(f, c))
  {
  }

  /** The planes a planar codec touches do not share a byte. */
  predicate PlanesApart(f: BitmapFormat, c: Quad) {
    (IsPlanar4(f) ==> c.p0 != c.p1 && c.p0 != c.p2 && c.p0 != c.p3 && c.p1 != c.p2 && c.p1 != c.p3 && c.p2 != c.p3)
    && (IsPlanar3(f) ==> c.p0 != c.p1 && c.p0 != c.p2 && c.p1 != c.p2)
  }

  /** A planar sample is one byte at each used plane's cursor, and every used cursor moves
      on by one byte; its bytes are distinct when the planes are apart. */
  lemma PlanarSampleFootprint(f: BitmapFormat, c: Quad)
    requires f.IsNormal() && f.PlanesCount() > 1
    ensures f.PlanesCount() == 4 ==> Advance(f, c) == c.Plus(Quad(1, 1, 1, 1))
    ensures f.PlanesCount() == 3 ==> Advance(f, c) == c.Plus(Quad(1, 1, 1, 0))
    ensures forall a :: Covers(f, c, a) <==> a in SampleAddrs(f, c)
    ensures PlanesApart(f, c) <==> Distinct(SampleAddrs(f, c))
  {
    var ps := SampleAddrs(f, c);
    SampleAddrsCover(0, f, c);
    if Distinct(ps) {
      assert ps[0] != ps[1] && ps[0] != ps[2] && ps[1] != ps[2];
      if f.PlanesCount() == 4 {
        assert ps[0] != ps[3] && ps[1] != ps[3] && ps[2] != ps[3];
      }
    }
  }

  // ----- Reading after writing -----

  /** The bytes of a sample just stored decode to the stored colour's echo. */
  lemma StoredAfterStore(cv: Conversions, f: BitmapFormat, m: seq<Byte>, c: Quad, col: Rgba)
    requires f.IsNormal() && PlanesApart(f, c) && SampleIn(|m|, f, c)
    ensures WritesIn(|m|, SampleWrites(cv, f, c, col))
    ensures Stored(cv, f, Apply(m, SampleWrites(cv, f, c, col)), c) == Decode(cv, f, Encode(cv, f, col))
  {
    SampleAddrsCover(|m|, f, c);
    if f.PlanesCount() == 1 {
      PackedSampleFootprint(f, c);
    } else {
      PlanarSampleFootprint(f, c);
    }
    GatherZip(m, SampleAddrs(f, c), Encode(cv, f, col));
  }

  /** Reading a sample back from where it was just stored decodes the stored bytes; the
      premultiplied packed YUVA reader does so only when its fourth plane cursor is the
      sample's fourth byte. */
  lemma LoadAfterStore(cv: Conversions, f: BitmapFormat, m: seq<Byte>, c: Quad, col: Rgba)
    requires f.IsNormal() && PlanesApart(f, c) && SampleIn(|m|, f, c) && (!f.YUVA_PA? || c.p3 == c.p0 + 3)
    ensures WritesIn(|m|, SampleWrites(cv, f, c, col))
    ensures Load(cv, f, Apply(m, SampleWrites(cv, f, c, col)), c) == Decode(cv, f, Encode(cv, f, col))
  {
    StoredAfterStore(cv, f, m, c, col);
    LoadIsStored(cv, f, Apply(m, SampleWrites(cv, f, c, col)), c);
  }

  /** Two memories of one size that hold the same bytes where the sample at `c` lies. */
  predicate SameSample(f: BitmapFormat, c: Quad, m: seq<Byte>, m': seq<Byte>)
    requires f.IsNormal()
  {
    |m| == |m'| && forall a :: Covers(f, c, a) && 0 <= a < |m| ==> m[a] == m'[a]
  }

  /** Two memories of one size that hold the same bytes where the reader of the sample at
      `c` reads. */
  predicate SameRead(f: BitmapFormat, c: Quad, m: seq<Byte>, m': seq<Byte>)
    requires f.IsNormal()
  {
    |m| == |m'| && forall a :: Reads(f, c, a) && 0 <= a < |m| ==> m[a] == m'[a]
  }

  /** The value a reader reads depends on the bytes it reads only. */
  lemma LoadAgrees(cv: Conversions, f: BitmapFormat, m: seq<Byte>, m': seq<Byte>, c: Quad)
    requires f.IsNormal() && SameRead(f, c, m, m')
    ensures Load(cv, f, m, c) == Load(cv, f, m', c)
  {
    ReadAddrsCover(|m|, f, c);
    GatherAgrees(m, m', ReadAddrs(f, c));
  }

  /** The value stored at a sample depends on the bytes it covers only. */
  lemma StoredAgrees(cv: Conversions, f: BitmapFormat, m: seq<Byte>, m': seq<Byte>, c: Quad)
    requires f.IsNormal() && SameSample(f, c, m, m')
    ensures Stored(cv, f, m, c) == Stored(cv, f, m', c)
  {
    SampleAddrsCover(|m|, f, c);
    GatherAgrees(m, m', SampleAddrs(f, c));
  }

  // ----- Codecs as values -----

  /** A sample codec as the conversion loops use it, the counterpart of the proc class a
      conversion template is instantiated with: how it reads the sample at given cursors,
      the stores that write a colour there, and the colour a sample just written reads
      back as. */
  datatype Proc = Proc(read: (seq<Byte>, Quad) -> Rgba, write: (Quad, Rgba) -> seq<Write>, echo: Rgba -> Rgba)

  /** The codec of a normal format as a value: every format's codec stores inside its
      sample and reads only the bytes its reader reads, and every one but the
      premultiplied packed YUVA codec keeps all the laws the conversion loops rely on. */
  function ProcOf(cv: Conversions, f: BitmapFormat): (p: Proc)
    requires f.IsNormal()
    ensures Implements(p, cv, f)
    ensures WritesLocally(p, f) && ReadsLocally(p, f)
    ensures !f.YUVA_PA? ==> Lawful(p, f)
  {
    var p := Proc((m, c) => Load(cv, f, m, c), (c, col) => SampleWrites(cv, f, c, col), col => Decode(cv, f, Encode(cv, f, col)));
    ImplementsWritesLocally(p, cv, f);
    ImplementsReadsLocally(p, cv, f);
    if f.YUVA_PA? then p else ImplementsLawful(p, cv, f); p
  }

  /** `p` reads, writes and reads back as the codec of `f` does. */
  ghost predicate Implements(p: Proc, cv: Conversions, f: BitmapFormat)
    requires f.IsNormal()
  {
    (forall m, c {:trigger Load(cv, f, m, c)} :: p.read(m, c) == Load(cv, f, m, c))
    && (forall c, col {:trigger SampleWrites(cv, f, c, col)} :: p.write(c, col) == SampleWrites(cv, f, c, col))
    && (forall col {:trigger Encode(cv, f, col)} :: p.echo(col) == Decode(cv, f, Encode(cv, f, col)))
  }

  /** What the conversion loops rely on, for samples laid out as in format `f`: a sample's
      stores go to the bytes it covers, its value depends on those bytes only, and reading
      a sample just written gives back the colour's echo. */
  ghost predicate Lawful(p: Proc, f: BitmapFormat)
    requires f.IsNormal()
  {
    WritesLocally(p, f)
    && (forall m, m', c {:trigger p.read(m, c), p.read(m', c)} ::
          SameSample(f, c, m, m') ==> p.read(m, c) == p.read(m', c))
    && (forall m, c, col {:trigger p.read(Apply(m, p.write(c, col)), c)} ::
          SampleIn(|m|, f, c) && PlanesApart(f, c) ==> p.read(Apply(m, p.write(c, col)), c) == p.echo(col))
  }

  /** Every format's codec but the premultiplied packed YUVA one keeps the laws the
      conversion loops rely on. */
  lemma ImplementsLawful(p: Proc, cv: Conversions, f: BitmapFormat)
    requires f.IsNormal() && !f.YUVA_PA? && Implements(p, cv, f)
    ensures Lawful(p, f)
  {
    ImplementsWritesLocally(p, cv, f);
    forall m, m', c | SameSample(f, c, m, m') ensures p.read(m, c) == p.read(m', c) {
      assert p.read(m, c) == Load(cv, f, m, c) && p.read(m', c) == Load(cv, f, m', c);
      LoadAgrees(cv, f, m, m', c);
    }
    forall m, c, col | SampleIn(|m|, f, c) && PlanesApart(f, c)
      ensures p.read(Apply(m, p.write(c, col)), c) == p.echo(col)
    {
      var ws := SampleWrites(cv, f, c, col);
      assert p.write(c, col) == ws;
      assert p.read(Apply(m, ws), c) == Load(cv, f, Apply(m, ws), c);
      assert p.echo(col) == Decode(cv, f, Encode(cv, f, col));
      LoadAfterStore(cv, f, m, c, col);
    }
  }

  /** A sample's stores go to the bytes it covers. */
  ghost predicate WritesLocally(p: Proc, f: BitmapFormat)
    requires f.IsNormal()
  {
    forall c, col, i {:trigger p.write(c, col)[i]} ::
      0 <= i < |p.write(c, col)| ==> Covers(f, c, p.write(c, col)[i].addr)
  }

  /** A sample's value depends on the bytes its reader reads only. */
  ghost predicate ReadsLocally(p: Proc, f: BitmapFormat)
    requires f.IsNormal()
  {
    forall m, m', c {:trigger p.read(m, c), p.read(m', c)} ::
      SameRead(f, c, m, m') ==> p.read(m, c) == p.read(m', c)
  }

  /** Every format's encoder stores inside the sample. */
  lemma ImplementsWritesLocally(p: Proc, cv: Conversions, f: BitmapFormat)
    requires f.IsNormal() && Implements(p, cv, f)
    ensures WritesLocally(p, f)
  {
    forall c, col, i | 0 <= i < |p.write(c, col)| ensures Covers(f, c, p.write(c, col)[i].addr) {
      assert p.write(c, col) == SampleWrites(cv, f, c, col);
    }
  }

  /** Every format's reader, the premultiplied packed YUVA one included, depends only on
      the bytes it reads. */
  lemma ImplementsReadsLocally(p: Proc, cv: Conversions, f: BitmapFormat)
    requires f.IsNormal() && Implements(p, cv, f)
    ensures ReadsLocally(p, f)
  {
    forall m, m', c | SameRead(f, c, m, m') ensures p.read(m, c) == p.read(m', c) {
      assert p.read(m, c) == Load(cv, f, m, c) && p.read(m', c) == Load(cv, f, m', c);
      LoadAgrees(cv, f, m, m', c);
    }
  }

  /** The codec with its reader replaced by one that reads the sample's own bytes. */
  function WithStoredRead(p: Proc, cv: Conversions, f: BitmapFormat): (q: Proc)
    requires f.IsNormal()
    ensures q.write == p.write && q.echo == p.echo
  {
    p.(read := (m, c) => Stored(cv, f, m, c))
  }

  /** Read through the sample's own bytes, every format's codec keeps the laws the
      conversion loops rely on. */
  lemma ImplementsStoredLawful(p: Proc, cv: Conversions, f: BitmapFormat)
    requires f.IsNormal() && Implements(p, cv, f)
    ensures Lawful(WithStoredRead(p, cv, f), f)
  {
    var q := WithStoredRead(p, cv, f);
    ImplementsWritesLocally(p, cv, f);
    forall m, m', c | SameSample(f, c, m, m') ensures q.read(m, c) == q.read(m', c) {
      StoredAgrees(cv, f, m, m', c);
    }
    forall m, c, col | SampleIn(|m|, f, c) && PlanesApart(f, c)
      ensures q.read(Apply(m, q.write(c, col)), c) == q.echo(col)
    {
      var ws := SampleWrites(cv, f, c, col);
      assert q.write(c, col) == ws;
      assert q.echo(col) == Decode(cv, f, Encode(cv, f, col));
      StoredAfterStore(cv, f, m, c, col);
    }
  }

  // ----- The 8-bit codecs -----

  /** Plain 8-bit-per-channel RGB codecs. */
  predicate IsStraightRGB8(f: BitmapFormat) {
    f.RGBA? || f.BGRA? || f.ARGB? || f.ABGR? || f.RGB? || f.BGR? || f.RGBA_PLANAR? || f.RGB_PLANAR?
  }

  /** Formats without an alpha byte decode alpha as 255. */
  predicate HasNoAlpha(f: BitmapFormat) {
    IsPacked3(f) || IsPlanar3(f) || Is565(f) || f.GRAY8?
  }

  /** The plain codecs decode exactly what they encoded; without an alpha byte, alpha
      comes back as 255. */
  lemma StraightCodecRoundTrip(cv: Conversions, f: BitmapFormat, col: Rgba)
    requires IsStraightRGB8(f)
    ensures Decode(cv, f, Encode(cv, f, col)) == if HasNoAlpha(f) then col.(a := 255) else col
  {
    if IsPacked4(f) || IsPlanar4(f) {
      QuadCodec(cv, f, col);
      StraightQuadRoundTrip(cv, f, col);
    } else {
      TripleCodec(cv, f, col);
      StraightTripleRoundTrip(cv, f, col);
    }
  }

  /** A four-byte sample decodes the quadruple its encoder chose. */
  lemma QuadCodec(cv: Conversions, f: BitmapFormat, col: Rgba)
    requires IsPacked4(f) || IsPlanar4(f)
    ensures var e := Encode4(cv, f, col);
      Decode(cv, f, Encode(cv, f, col)) == Decode4(cv, f, e.r, e.g, e.b, e.a)
  {
    var e := Encode4(cv, f, col);
    var b := Encode(cv, f, col);
    assert b == [e.r, e.g, e.b, e.a];
    assert b[0] == e.r && b[1] == e.g && b[2] == e.b && b[3] == e.a;
  }

  /** A three-byte sample decodes the triple its encoder chose. */
  lemma TripleCodec(cv: Conversions, f: BitmapFormat, col: Rgba)
    requires IsPacked3(f) || IsPlanar3(f)
    ensures var e := Encode3(cv, f, col);
      Decode(cv, f, Encode(cv, f, col)) == Decode3(cv, f, e.0, e.1, e.2)
  {
    var e := Encode3(cv, f, col);
    var b := Encode(cv, f, col);
    assert b == [e.0, e.1, e.2];
    assert b[0] == e.0 && b[1] == e.1 && b[2] == e.2;
  }

  lemma StraightQuadRoundTrip(cv: Conversions, f: BitmapFormat, col: Rgba)
    requires IsStraightRGB8(f) && (IsPacked4(f) || IsPlanar4(f))
    ensures var e := Encode4(cv, f, col); Decode4(cv, f, e.r, e.g, e.b, e.a) == col
  {
  }

  lemma StraightTripleRoundTrip(cv: Conversions, f: BitmapFormat, col: Rgba)
    requires IsStraightRGB8(f) && (IsPacked3(f) || IsPlanar3(f))
    ensures var e := Encode3(cv, f, col); Decode3(cv, f, e.0, e.1, e.2) == col.(a := 255)
  {
  }

  /** Writing a sample in a plain codec and reading it back returns it. */
  lemma StraightRoundTrip(cv: Conversions, f: BitmapFormat, m: seq<Byte>, c: Quad, col: Rgba)
    requires IsStraightRGB8(f) && PlanesApart(f, c) && SampleIn(|m|, f, c)
    ensures WritesIn(|m|, SampleWrites(cv, f, c, col))
    ensures Load(cv, f, Apply(m, SampleWrites(cv, f, c, col)), c)
            == if HasNoAlpha(f) then col.(a := 255) else col
  {
    LoadAfterStore(cv, f, m, c, col);
    StraightCodecRoundTrip(cv, f, col);
  }

  /** A premultiplied codec is its straight twin applied to the premultiplied colour, and
      decodes by un-premultiplying what the straight twin decodes, at the same addresses. */
  lemma PremultipliedCodecs(cv: Conversions, f: BitmapFormat, c: Quad, col: Rgba, b: seq<Byte>)
    requires f.IsNormal() && f.IsPrecomputedAlpha() && |b| == SampleBytes(f)
    ensures SampleAddrs(f, c) == SampleAddrs(f.NonPrecomputedAlphaFormat(), c)
    ensures Advance(f, c) == Advance(f.NonPrecomputedAlphaFormat(), c)
    ensures Encode(cv, f, col) == Encode(cv, f.NonPrecomputedAlphaFormat(), cv.npaToPa(col))
    ensures Decode(cv, f, b) == cv.paToNpa(Decode(cv, f.NonPrecomputedAlphaFormat(), b))
  {
  }

  /** A colour's Y, U, V bytes in the R, G, B places. */
  function ToYuv(cv: Conversions, col: Rgba): (r: Rgba)
    ensures r.a == col.a
    ensures YuvInverse(cv) ==> cv.yuvToRgb(r.r, r.g, r.b) == (col.r, col.g, col.b)
  {
    var t := cv.rgbToYuv(col.r, col.g, col.b);
    Rgba(t.0, t.1, t.2, col.a)
  }

  /** A straight YUV codec is its RGB twin (the compatible RGB format) applied to the
      colour's Y, U, V values, and decodes by converting what the twin decodes. */
  lemma YuvCodecs(cv: Conversions, f: BitmapFormat, c: Quad, col: Rgba, b: seq<Byte>)
    requires f.IsNormal() && f.ColorSpaceOf() == SpaceYUV && !f.IsPrecomputedAlpha()
    requires |b| == SampleBytes(f)
    ensures SampleAddrs(f, c) == SampleAddrs(f.CompatibleRGBFormat(), c)
    ensures Advance(f, c) == Advance(f.CompatibleRGBFormat(), c)
    ensures Encode(cv, f, col) == Encode(cv, f.CompatibleRGBFormat(), ToYuv(cv, col))
    ensures var d := Decode(cv, f.CompatibleRGBFormat(), b);
      Decode(cv, f, b) == FromYuv(cv, d.r, d.g, d.b, d.a)
  {
  }

  /** The YUV conversion undoes the RGB-to-YUV conversion. */
  ghost predicate YuvInverse(cv: Conversions) {
    forall x: Byte, y: Byte, z: Byte {:trigger cv.rgbToYuv(x, y, z)} ::
      var t := cv.rgbToYuv(x, y, z); cv.yuvToRgb(t.0, t.1, t.2) == (x, y, z)
  }

  /** Un-premultiplying undoes premultiplying. */
  ghost predicate AlphaInverse(cv: Conversions) {
    forall col: Rgba {:trigger cv.npaToPa(col)} :: cv.paToNpa(cv.npaToPa(col)) == col
  }

  /** When the colour conversions are exact inverses, every 8-bit codec, premultiplied or
      YUV, returns the colour it stored (alpha 255 for the three-channel ones). */
  lemma CodecRoundTrip(cv: Conversions, f: BitmapFormat, col: Rgba)
    requires f.IsNormal() && !Is565(f) && !f.GRAY8?
    requires YuvInverse(cv) && AlphaInverse(cv)
    ensures Decode(cv, f, Encode(cv, f, col)) == if HasNoAlpha(f) then col.(a := 255) else col
  {
    if f.IsPrecomputedAlpha() {
      var g := f.NonPrecomputedAlphaFormat();
      var pa := cv.npaToPa(col);
      PremultipliedCodecs(cv, f, Quad(0, 0, 0, 0), col, Encode(cv, f, col));
      StraightAlphaRoundTrip(cv, g, pa);
      assert !HasNoAlpha(f) && !HasNoAlpha(g);
    } else {
      StraightAlphaRoundTrip(cv, f, col);
    }
  }

  /** The round trip through a codec with straight alpha, RGB or YUV. */
  lemma StraightAlphaRoundTrip(cv: Conversions, f: BitmapFormat, col: Rgba)
    requires f.IsNormal() && !Is565(f) && !f.GRAY8? && !f.IsPrecomputedAlpha()
    requires YuvInverse(cv)
    ensures Decode(cv, f, Encode(cv, f, col)) == if HasNoAlpha(f) then col.(a := 255) else col
  {
    if f.ColorSpaceOf() == SpaceYUV {
      var h := f.CompatibleRGBFormat();
      YuvCodecs(cv, f, Quad(0, 0, 0, 0), col, Encode(cv, f, col));
      StraightCodecRoundTrip(cv, h, ToYuv(cv, col));
      var t := cv.rgbToYuv(col.r, col.g, col.b);
      assert cv.yuvToRgb(t.0, t.1, t.2) == (col.r, col.g, col.b);
      assert HasNoAlpha(f) == HasNoAlpha(h);
    } else {
      StraightCodecRoundTrip(cv, f, col);
    }
  }

  /** Every 8-bit RGB codec returns the colour it stored (alpha 255 for the
      three-channel ones), the premultiplied ones when un-premultiplying undoes
      premultiplying. */
  lemma RgbCodecRoundTrip(cv: Conversions, f: BitmapFormat, col: Rgba)
    requires f.IsNormal() && f.ColorSpaceOf() == SpaceRGB && !Is565(f)
    requires f.IsPrecomputedAlpha() ==> AlphaInverse(cv)
    ensures Decode(cv, f, Encode(cv, f, col)) == if HasNoAlpha(f) then col.(a := 255) else col
  {
    if f.IsPrecomputedAlpha() {
      var g := f.NonPrecomputedAlphaFormat();
      PremultipliedCodecs(cv, f, Quad(0, 0, 0, 0), col, Encode(cv, f, col));
      StraightCodecRoundTrip(cv, g, cv.npaToPa(col));
      assert !HasNoAlpha(f) && !HasNoAlpha(g);
    } else {
      StraightCodecRoundTrip(cv, f, col);
    }
  }

  // ----- Grey -----

  /** The grey codec stores the truncated mean of the three channels and reads it back
      into all three; a grey colour keeps its level. */
  lemma GrayCodec(cv: Conversions, col: Rgba)
    ensures var v := Gray(col.r, col.g, col.b);
      Decode(cv, GRAY8, Encode(cv, GRAY8, col)) == Rgba(v, v, v, 255)
    ensures col.r == col.g == col.b ==> Decode(cv, GRAY8, Encode(cv, GRAY8, col)) == col.(a := 255)
  {
  }

  // ----- RGB565 -----

  /** As written, an RGB565 codec keeps the top five bits of red and blue, keeps bits 2-6
      of green shifted up by one, and moves the top bit of green into bit 3 of the channel
      stored in the word's high field (red for RGB565, blue for BGR565). */
  lemma Rgb565CodecTruncates(cv: Conversions, f: BitmapFormat, col: Rgba)
    requires Is565(f)
    ensures Decode(cv, f, Encode(cv, f, col))
            == if f.RGB565BE? || f.RGB565LE?
               then Rgba((col.r & 0xF8) | ((col.g & 0x80) >> 4), (col.g & 0x7C) << 1, col.b & 0xF8, 255)
               else Rgba(col.r & 0xF8, (col.g & 0x7C) << 1, (col.b & 0xF8) | ((col.g & 0x80) >> 4), 255)
  {
    Rgb565CodecUnpacks(cv, f, col);
    Word565Unpacks(f, col);
  }

  /** Unpacking an encoder's word as written, in the word's channel order. */
  lemma Word565Unpacks(f: BitmapFormat, col: Rgba)
    requires Is565(f)
    ensures Unpack565(Word565(f, col)) == if f.RGB565BE? || f.RGB565LE?
      then ((col.r & 0xF8) | ((col.g & 0x80) >> 4), (col.g & 0x7C) << 1, col.b & 0xF8)
      else ((col.b & 0xF8) | ((col.g & 0x80) >> 4), (col.g & 0x7C) << 1, col.r & 0xF8)
  {
    if f.RGB565BE? || f.RGB565LE? {
      Pack565AsWrittenUnpacks(col.r, col.g, col.b);
    } else {
      Pack565AsWrittenUnpacks(col.b, col.g, col.r);
    }
  }

  /** Reading back an RGB565 sample unpacks the word the encoder built. */
  lemma Rgb565CodecUnpacks(cv: Conversions, f: BitmapFormat, col: Rgba)
    requires Is565(f)
    ensures var t := Unpack565(Word565(f, col));
      Decode(cv, f, Encode(cv, f, col))
      == if f.RGB565BE? || f.RGB565LE? then Rgba(t.0, t.1, t.2, 255) else Rgba(t.2, t.1, t.0, 255)
  {
    var w := Word565(f, col);
    assert Encode(cv, f, col) == [Low8(w >> 8), Low8(w)] by { Rgb565Encodes(cv, f, col); }
    Rgb565WordBytes(cv, f, w);
  }

  /** An RGB565 decoder given the high and low byte of a word unpacks that word. */
  lemma Rgb565WordBytes(cv: Conversions, f: BitmapFormat, s: bv32)
    requires Is565(f) && s < 0x1_0000
    ensures var t := Unpack565(s);
      Decode(cv, f, [Low8(s >> 8), Low8(s)])
      == if f.RGB565BE? || f.RGB565LE? then Rgba(t.0, t.1, t.2, 255) else Rgba(t.2, t.1, t.0, 255)
  {
    WordBytes(s);
    Rgb565Word(cv, f, Low8(s >> 8), Low8(s));
  }

  /** Splitting a 16-bit word into its high and low bytes and joining them again gives it back. */
  lemma WordBytes(s: bv32)
    requires s < 0x1_0000
    ensures (Low8(s >> 8) as bv32 << 8) | Low8(s) as bv32 == s
  {
  }

  /** As written, the encoders' word lets the top bit of green into the low bit of the red
      field and drops the bottom bit of the green field. */
  lemma Pack565AsWrittenUnpacks(x: Byte, y: Byte, z: Byte)
    ensures Unpack565(Pack565AsWritten(x, y, z))
            == ((x & 0xF8) | ((y & 0x80) >> 4), (y & 0x7C) << 1, z & 0xF8)
  {
  }

  /** The word as written is the intended word exactly when the green channel has no bit
      above its lowest two. */
  lemma Word565Agrees(f: BitmapFormat, col: Rgba)
    requires Is565(f)
    ensures Word565(f, col) == Word565Intended(f, col) <==> col.g < 4
  {
    if f.RGB565BE? || f.RGB565LE? {
      Pack565Agrees(col.r, col.g, col.b);
    } else {
      Pack565Agrees(col.b, col.g, col.r);
    }
  }

  lemma Pack565Agrees(x: Byte, y: Byte, z: Byte)
    ensures Pack565AsWritten(x, y, z) == Pack565(x, y, z) <==> y < 4
  {
  }

  /** As written, the darkest non-zero green, (0, 4, 0), is stored as the word 0x0040 and
      comes back as (0, 8, 0), where the intended word 0x0020 gives it back unchanged; pure
      green (0, 128, 0) gets a red component of 8; and the word 0x0020 read from an RGB565
      sample is written back as 0x0040. */
  lemma Pack565AsWrittenCounterexample(cv: Conversions)
    ensures Pack565AsWritten(0, 4, 0) == 0x40 && Pack565(0, 4, 0) == 0x20
    ensures Unpack565(Pack565AsWritten(0, 4, 0)) == (0, 8, 0)
    ensures Unpack565(Pack565(0, 4, 0)) == (0, 4, 0)
    ensures Unpack565(Pack565AsWritten(0, 128, 0)) == (8, 0, 0)
    ensures Encode(cv, RGB565BE, Decode(cv, RGB565BE, [0x00, 0x20])) == [0x00, 0x40]
  {
    Pack565AsWrittenUnpacks(0, 4, 0);
    Pack565AsWrittenUnpacks(0, 128, 0);
    Pack565Unpacks(0, 4, 0);
    Rgb565Word(cv, RGB565BE, 0x00, 0x20);
    assert Unpack565(0x20) == (0, 4, 0);
    Rgb565Encodes(cv, RGB565BE, Rgba(0, 4, 0, 255));
  }

  // ----- RGB565 as intended -----

  /** Unpacking the intended word gives back the top bits of each channel, in the word's
      channel order. */
  lemma Word565IntendedUnpacks(f: BitmapFormat, col: Rgba)
    requires Is565(f)
    ensures Unpack565(Word565Intended(f, col)) == if f.RGB565BE? || f.RGB565LE?
      then (col.r & 0xF8, col.g & 0xFC, col.b & 0xF8) else (col.b & 0xF8, col.g & 0xFC, col.r & 0xF8)
  {
    if f.RGB565BE? || f.RGB565LE? {
      Pack565Unpacks(col.r, col.g, col.b);
    } else {
      Pack565Unpacks(col.b, col.g, col.r);
    }
  }

  /** With the intended word, an RGB565 sample keeps the top five bits of red and blue
      and the top six of green. */
  lemma Rgb565IntendedTruncates(cv: Conversions, f: BitmapFormat, col: Rgba)
    requires Is565(f)
    ensures var s := Word565Intended(f, col);
      Decode(cv, f, [Low8(s >> 8), Low8(s)]) == Rgba(col.r & 0xF8, col.g & 0xFC, col.b & 0xF8, 255)
  {
    var s := Word565Intended(f, col);
    var t := Unpack565(s);
    Rgb565WordBytes(cv, f, s);
    Word565IntendedUnpacks(f, col);
    if f.RGB565BE? || f.RGB565LE? {
      assert t == (col.r & 0xF8, col.g & 0xFC, col.b & 0xF8);
    } else {
      assert t == (col.b & 0xF8, col.g & 0xFC, col.r & 0xF8);
    }
  }

  lemma Pack565Unpacks(x: Byte, y: Byte, z: Byte)
    ensures Unpack565(Pack565(x, y, z)) == (x & 0xF8, y & 0xFC, z & 0xF8)
  {
  }

  /** With the intended word, every RGB565 sample survives decoding and re-encoding. */
  lemma Rgb565WordsAreFixed(cv: Conversions, f: BitmapFormat, hi: Byte, lo: Byte)
    requires Is565(f)
    ensures var s := Word565Intended(f, Decode(cv, f, [hi, lo])); [Low8(s >> 8), Low8(s)] == [hi, lo]
  {
    Word565OfDecoded(cv, f, hi, lo);
    JoinedBytesSplit(hi, lo);
  }

  /** The intended word for a decoded RGB565 sample is the word it was decoded from. */
  lemma Word565OfDecoded(cv: Conversions, f: BitmapFormat, hi: Byte, lo: Byte)
    requires Is565(f)
    ensures Word565Intended(f, Decode(cv, f, [hi, lo])) == (hi as bv32 << 8) | lo as bv32
  {
    Rgb565Word(cv, f, hi, lo);
    Unpack565Packs((hi as bv32 << 8) | lo as bv32);
  }

  /** Joining two bytes into a word and splitting it again gives them back. */
  lemma JoinedBytesSplit(hi: Byte, lo: Byte)
    ensures var s := (hi as bv32 << 8) | lo as bv32; Low8(s >> 8) == hi && Low8(s) == lo
  {
  }

  lemma Unpack565Packs(s: bv32)
    requires s < 0x1_0000
    ensures var t := Unpack565(s); Pack565(t.0, t.1, t.2) == s
  {
  }

  // ----- Premultiplied packed YUVA -----

  /** Identity conversions, for concrete examples. */
  function IdentityConversions(): Conversions {
    Conversions((y, u, v) => (y, u, v), (r, g, b) => (r, g, b), col => col, col => col)
  }

  /** The premultiplied packed YUVA reader ignores the alpha byte the encoder stored: after
      storing alpha 4 at a sample whose fourth plane cursor lies elsewhere, the reader
      reports the byte at that cursor, while the sample's own bytes hold 4. */
  lemma YuvaPaAlphaAsWrittenCounterexample()
    ensures var cv := IdentityConversions();
      var m: seq<Byte> := [0, 1, 2, 3, 0, 9];
      var c := Quad(1, 0, 0, 5);
      SampleIn(|m|, YUVA_PA, c) && ReadIn(|m|, YUVA_PA, c) &&
      var m' := Apply(m, SampleWrites(cv, YUVA_PA, c, Rgba(1, 2, 3, 4)));
      Load(cv, YUVA_PA, m', c).a == 9 && Stored(cv, YUVA_PA, m', c).a == 4
  {
    var cv := IdentityConversions();
    var m: seq<Byte> := [0, 1, 2, 3, 0, 9];
    var c := Quad(1, 0, 0, 5);
    var col := Rgba(1, 2, 3, 4);
    var m' := Apply(m, SampleWrites(cv, YUVA_PA, c, col));
    StoredAfterStore(cv, YUVA_PA, m, c, col);
    assert Decode(cv, YUVA_PA, Encode(cv, YUVA_PA, col)) == col by {
      QuadCodec(cv, YUVA_PA, col);
    }
    ApplyOutside(m, SampleWrites(cv, YUVA_PA, c, col), 5);
    assert Gather(m', ReadAddrs(YUVA_PA, c))[3] == 9;
  }
}
