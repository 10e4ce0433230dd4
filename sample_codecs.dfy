/** The per-format sample codecs.  Each normal format reads and writes one (r,g,b,a)
    sample through four byte cursors `p0..p3` (one per plane; packed formats use `p0`
    only) and then advances the cursors past the sample.

    A codec is described by the addresses it touches, in program order (`SampleAddrs`),
    the bytes it stores for a colour (`Encode`), the colour it makes of the bytes it
    reads (`Decode`) and where it leaves the cursors (`Advance`).  `Load` and
    `SampleWrites` put these together over a memory; the methods `ReadSample` and
    `WriteSample` perform the same steps on a memory array, statement by statement. */
module SampleCodecs {
  import opened Memory
  import opened BitmapFormats

  datatype Rgba = Rgba(r: Byte, g: Byte, b: Byte, a: Byte)

  /** The colour conversions the codecs call but which are not part of this model:
      YUV <-> RGB colorimetry and premultiplied <-> straight alpha.  Each is a total
      function to bytes; nothing else is assumed about them. */
  datatype Conversions = Conversions(
    yuvToRgb: (Byte, Byte, Byte) -> (Byte, Byte, Byte),
    rgbToYuv: (Byte, Byte, Byte) -> (Byte, Byte, Byte),
    paToNpa: Rgba -> Rgba,
    npaToPa: Rgba -> Rgba)

  /** Four per-plane integers: cursors, row pointers or pitches. */
  datatype Quad = Quad(p0: int, p1: int, p2: int, p3: int) {
    function Plus(o: Quad): Quad {
      Quad(p0 + o.p0, p1 + o.p1, p2 + o.p2, p3 + o.p3)
    }
  }

  // ----- Format families -----

  predicate IsPacked4(f: BitmapFormat) {
    f.RGBA? || f.RGBA_PA? || f.BGRA? || f.BGRA_PA? || f.ARGB? || f.ARGB_PA? || f.ABGR? || f.ABGR_PA?
    || f.YUVA? || f.YUVA_PA?
  }

  predicate IsPacked3(f: BitmapFormat) {
    f.RGB? || f.BGR? || f.YUV444?
  }

  predicate Is565(f: BitmapFormat) {
    f.RGB565BE? || f.RGB565LE? || f.BGR565BE? || f.BGR565LE?
  }

  predicate IsPlanar4(f: BitmapFormat) {
    f.RGBA_PLANAR? || f.RGBA_PLANAR_PA? || f.YUVA_PLANAR? || f.YUVA_PLANAR_PA?
  }

  predicate IsPlanar3(f: BitmapFormat) {
    f.RGB_PLANAR? || f.YUV444_PLANAR?
  }

  lemma NormalFamilies(f: BitmapFormat)
    requires f.IsNormal()
    ensures IsPacked4(f) || IsPacked3(f) || Is565(f) || f.GRAY8? || IsPlanar4(f) || IsPlanar3(f)
  {
  }

  // ----- Byte arithmetic used by the codecs -----

  /** The truncating cast `(sl_uint8)x`. */
  function Low8(x: bv32): Byte {
    (x & 0xFF) as Byte
  }

  /** The 16-bit word of an RGB565 sample: the top five bits of the first channel in
      bits 11-15, the top six of the second in bits 5-10, the top five of the third in
      bits 0-4. */
  function Pack565(x: Byte, y: Byte, z: Byte): (s: bv32)
    ensures s < 0x1_0000
  {
    var s: bv32 := (x >> 3) as bv32;
    var s := (s << 6) | (y >> 2) as bv32;
    (s << 5) | (z >> 3) as bv32
  }

  /** The word the RGB565 encoders build as written: the first channel shifted left by
      5 (not 6) before the second is ORed in, then by 6 (not 5) before the third. */
  function Pack565AsWritten(x: Byte, y: Byte, z: Byte): (s: bv32)
    ensures s < 0x1_0000
    ensures s & 0x20 == 0
  {
    var s: bv32 := (x >> 3) as bv32;
    var s := (s << 5) | (y >> 2) as bv32;
    (s << 6) | (z >> 3) as bv32
  }

  /** The three channels an RGB565 word decodes to, high field first. */
  function Unpack565(s: bv32): (r: (Byte, Byte, Byte))
    ensures r.0 & 7 == 0 && r.1 & 3 == 0 && r.2 & 7 == 0
  {
    (Low8((s & 0xF800) >> 8), Low8((s & 0x07E0) >> 3), Low8((s & 0x001F) << 3))
  }

  /** The word an RGB565 or BGR565 encoder builds for a colour, as written: the fields
      are packed with `Pack565AsWritten`. */
  function Word565(f: BitmapFormat, col: Rgba): (s: bv32)
    requires Is565(f)
    ensures s < 0x1_0000
    ensures s & 0x20 == 0
  {
    if f.RGB565BE? || f.RGB565LE? then Pack565AsWritten(col.r, col.g, col.b) else Pack565AsWritten(col.b, col.g, col.r)
  }

  /** The word the encoders evidently mean to build: the fields packed as the decoders
      unpack them. */
  function Word565Intended(f: BitmapFormat, col: Rgba): (s: bv32)
    requires Is565(f)
    ensures s < 0x1_0000
  {
    if f.RGB565BE? || f.RGB565LE? then Pack565(col.r, col.g, col.b) else Pack565(col.b, col.g, col.r)
  }

  /** The grey level of a colour: the mean of its three channels, truncated. */
  function Gray(r: Byte, g: Byte, b: Byte): Byte {
    var s: bv32 := r as bv32 + g as bv32 + b as bv32;
    (s / 3) as Byte
  }

  /** `Gray` is the floor of the mean: three times it is within 3 below the sum. */
  lemma GrayIsTruncatedMean(r: Byte, g: Byte, b: Byte)
    ensures var s := r as bv32 + g as bv32 + b as bv32;
      3 * (Gray(r, g, b) as bv32) <= s < 3 * (Gray(r, g, b) as bv32) + 3
  {
  }

  function FromYuv(cv: Conversions, y: Byte, u: Byte, v: Byte, a: Byte): Rgba {
    var t := cv.yuvToRgb(y, u, v);
    Rgba(t.0, t.1, t.2, a)
  }

  // ----- What a codec touches -----

  /** The number of bytes one sample is read from and stored to. */
  function SampleBytes(f: BitmapFormat): (n: nat)
    requires f.IsNormal()
    ensures 1 <= n <= 4
    ensures f.PlanesCount() == 1 ==> n * 8 == f.BitsPerSample()
    ensures f.PlanesCount() > 1 ==> n == f.PlanesCount() && f.BitsPerSample() == 8
  {
    match f
    case RGBA | RGBA_PA | BGRA | BGRA_PA | ARGB | ARGB_PA | ABGR | ABGR_PA | YUVA | YUVA_PA
      | RGBA_PLANAR | RGBA_PLANAR_PA | YUVA_PLANAR | YUVA_PLANAR_PA => 4
    case RGB | BGR | YUV444 | RGB_PLANAR | YUV444_PLANAR => 3
    case RGB565BE | RGB565LE | BGR565BE | BGR565LE => 2
    case GRAY8 => 1
  }

  /** The addresses one sample is stored to and read from, in the order the codec
      stores and reads them. */
  function SampleAddrs(f: BitmapFormat, c: Quad): (r: seq<Ptr>)
    requires f.IsNormal()
    ensures |r| == SampleBytes(f)
  {
    var p := c.p0;
    if IsPacked4(f) then [p, p + 1, p + 2, p + 3]
    else if IsPacked3(f) then [p, p + 1, p + 2]
    else if f.RGB565BE? || f.BGR565BE? then [p, p + 1]
    else if f.RGB565LE? || f.BGR565LE? then [p + 1, p]
    else if f.GRAY8? then [p]
    else if IsPlanar4(f) then [c.p0, c.p1, c.p2, c.p3]
    else [c.p0, c.p1, c.p2]
  }

  /** `a` is one of the bytes of the sample at `c`: a run of consecutive bytes for the
      one-plane formats, one byte per used plane for the planar ones. */
  predicate Covers(f: BitmapFormat, c: Quad, a: Ptr)
    requires f.IsNormal()
  {
    if f.PlanesCount() == 1 then c.p0 <= a < c.p0 + SampleBytes(f)
    else a == c.p0 || a == c.p1 || a == c.p2 || (f.PlanesCount() == 4 && a == c.p3)
  }

  /** Every byte of the sample at `c` can be dereferenced in a memory of `n` bytes. */
  predicate SampleIn(n: nat, f: BitmapFormat, c: Quad)
    requires f.IsNormal()
  {
    if f.PlanesCount() == 1 then 0 < c.p0 && c.p0 + SampleBytes(f) <= n
    else
      Addressable(n, c.p0) && Addressable(n, c.p1) && Addressable(n, c.p2)
      && (f.PlanesCount() == 4 ==> Addressable(n, c.p3))
  }

  /** A sample lies in memory exactly when each byte it covers does. */
  lemma SampleInCovers(n: nat, f: BitmapFormat, c: Quad)
    requires f.IsNormal()
    ensures SampleIn(n, f, c) <==> forall a :: Covers(f, c, a) ==> Addressable(n, a)
  {
    if f.PlanesCount() == 1 && !SampleIn(n, f, c) {
      if c.p0 <= 0 {
        assert Covers(f, c, c.p0);
      } else {
        assert Covers(f, c, c.p0 + SampleBytes(f) - 1);
      }
    }
  }

  /** The listed addresses are the bytes the sample covers, and lie in memory with it. */
  lemma SampleAddrsCover(n: nat, f: BitmapFormat, c: Quad)
    requires f.IsNormal()
    ensures forall k :: 0 <= k < SampleBytes(f) ==> Covers(f, c, SampleAddrs(f, c)[k])
    ensures forall a :: Covers(f, c, a) ==> a in SampleAddrs(f, c)
    ensures SampleIn(n, f, c) ==> AllIn(n, SampleAddrs(f, c))
  {
    var ps := SampleAddrs(f, c);
    forall a | Covers(f, c, a) ensures a in ps {
      if f.PlanesCount() == 1 {
        assert ps[a - c.p0] == a || ps[SampleBytes(f) - 1 - (a - c.p0)] == a;
      }
    }
  }

  /** The addresses the decoder reads one sample from, in reading order: the sample's
      own bytes, except that the premultiplied packed YUVA decoder takes alpha from the
      byte at the fourth plane cursor `p3` instead of the sample's fourth byte. */
  function ReadAddrs(f: BitmapFormat, c: Quad): (r: seq<Ptr>)
    requires f.IsNormal()
    ensures |r| == SampleBytes(f)
  {
    if f.YUVA_PA? then [c.p0, c.p0 + 1, c.p0 + 2, c.p3] else SampleAddrs(f, c)
  }

  /** `a` is one of the bytes the decoder reads for the sample at `c`. */
  predicate Reads(f: BitmapFormat, c: Quad, a: Ptr)
    requires f.IsNormal()
  {
    if f.YUVA_PA? then c.p0 <= a < c.p0 + 3 || a == c.p3 else Covers(f, c, a)
  }

  /** Every byte the decoder reads for the sample at `c` can be dereferenced in a memory
      of `n` bytes. */
  predicate ReadIn(n: nat, f: BitmapFormat, c: Quad)
    requires f.IsNormal()
  {
    if f.YUVA_PA? then 0 < c.p0 && c.p0 + 3 <= n && Addressable(n, c.p3) else SampleIn(n, f, c)
  }

  /** The addresses read are the bytes the decoder reads, and lie in memory with them. */
  lemma ReadAddrsCover(n: nat, f: BitmapFormat, c: Quad)
    requires f.IsNormal()
    ensures forall k :: 0 <= k < SampleBytes(f) ==> Reads(f, c, ReadAddrs(f, c)[k])
    ensures forall a :: Reads(f, c, a) ==> a in ReadAddrs(f, c)
    ensures ReadIn(n, f, c) ==> AllIn(n, ReadAddrs(f, c))
  {
    SampleAddrsCover(n, f, c);
    if f.YUVA_PA? {
      var ps := ReadAddrs(f, c);
      forall a | Reads(f, c, a) ensures a in ps {
        if a != c.p3 {
          assert ps[a - c.p0] == a;
        }
      }
    }
  }

  /** The decoder reads the sample's own bytes, except in the premultiplied packed YUVA
      format, where it does exactly when the fourth plane cursor is the sample's fourth
      byte. */
  lemma ReadAddrsOwn(f: BitmapFormat, c: Quad)
    requires f.IsNormal()
    ensures ReadAddrs(f, c) == SampleAddrs(f, c) <==> !f.YUVA_PA? || c.p3 == c.p0 + 3
  {
    if f.YUVA_PA? && ReadAddrs(f, c) == SampleAddrs(f, c) {
      assert ReadAddrs(f, c)[3] == SampleAddrs(f, c)[3];
    }
  }

  /** The cursors after one sample. */
  function Advance(f: BitmapFormat, c: Quad): Quad
    requires f.IsNormal()
  {
    if IsPacked4(f) then c.(p0 := c.p0 + 4)
    else if IsPacked3(f) then c.(p0 := c.p0 + 3)
    else if Is565(f) then c.(p0 := c.p0 + 2)
    else if f.GRAY8? then c.(p0 := c.p0 + 1)
    else if IsPlanar4(f) then Quad(c.p0 + 1, c.p1 + 1, c.p2 + 1, c.p3 + 1)
    else c.(p0 := c.p0 + 1, p1 := c.p1 + 1, p2 := c.p2 + 1)
  }

  // ----- Decoding and encoding -----

  /** The colour a decoder makes of the bytes it read, in reading order. */
  function Decode(cv: Conversions, f: BitmapFormat, b: seq<Byte>): Rgba
    requires f.IsNormal() && |b| == SampleBytes(f)
  {
    if IsPacked4(f) || IsPlanar4(f) then Decode4(cv, f, b[0], b[1], b[2], b[3])
    else if IsPacked3(f) || IsPlanar3(f) then Decode3(cv, f, b[0], b[1], b[2])
    else if Is565(f) then
      var t := Unpack565((b[0] as bv32 << 8) | b[1] as bv32);
      if f.RGB565BE? || f.RGB565LE? then Rgba(t.0, t.1, t.2, 255) else Rgba(t.2, t.1, t.0, 255)
    else Rgba(b[0], b[0], b[0], 255)
  }

  /** Decoders of the four-byte formats, packed or planar. */
  function Decode4(cv: Conversions, f: BitmapFormat, b0: Byte, b1: Byte, b2: Byte, b3: Byte): Rgba
    requires IsPacked4(f) || IsPlanar4(f)
  {
    match f
    case RGBA | RGBA_PLANAR => Rgba(b0, b1, b2, b3)
    case BGRA => Rgba(b2, b1, b0, b3)
    case ARGB => Rgba(b1, b2, b3, b0)
    case ABGR => Rgba(b3, b2, b1, b0)
    case RGBA_PA | RGBA_PLANAR_PA => cv.paToNpa(Rgba(b0, b1, b2, b3))
    case BGRA_PA => cv.paToNpa(Rgba(b2, b1, b0, b3))
    case ARGB_PA => cv.paToNpa(Rgba(b1, b2, b3, b0))
    case ABGR_PA => cv.paToNpa(Rgba(b3, b2, b1, b0))
    case YUVA | YUVA_PLANAR => FromYuv(cv, b0, b1, b2, b3)
    case YUVA_PA | YUVA_PLANAR_PA => cv.paToNpa(FromYuv(cv, b0, b1, b2, b3))
  }

  /** Decoders of the three-byte formats, packed or planar; alpha is opaque. */
  function Decode3(cv: Conversions, f: BitmapFormat, b0: Byte, b1: Byte, b2: Byte): Rgba
    requires IsPacked3(f) || IsPlanar3(f)
  {
    match f
    case RGB | RGB_PLANAR => Rgba(b0, b1, b2, 255)
    case BGR => Rgba(b2, b1, b0, 255)
    case YUV444 | YUV444_PLANAR => FromYuv(cv, b0, b1, b2, 255)
  }

  /** The bytes an encoder stores for a colour, in storing order. */
  function Encode(cv: Conversions, f: BitmapFormat, col: Rgba): (r: seq<Byte>)
    requires f.IsNormal()
    ensures |r| == SampleBytes(f)
  {
    if IsPacked4(f) || IsPlanar4(f) then
      var e := Encode4(cv, f, col);
      [e.r, e.g, e.b, e.a]
    else if IsPacked3(f) || IsPlanar3(f) then
      var e := Encode3(cv, f, col);
      [e.0, e.1, e.2]
    else if Is565(f) then
      var s := Word565(f, col);
      [Low8(s >> 8), Low8(s)]
    else [Gray(col.r, col.g, col.b)]
  }

  /** Encoders of the four-byte formats: the bytes in storing order, as one quadruple. */
  function Encode4(cv: Conversions, f: BitmapFormat, col: Rgba): Rgba
    requires IsPacked4(f) || IsPlanar4(f)
  {
    var pa := cv.npaToPa(col);
    match f
    case RGBA | RGBA_PLANAR => col
    case BGRA => Rgba(col.b, col.g, col.r, col.a)
    case ARGB => Rgba(col.a, col.r, col.g, col.b)
    case ABGR => Rgba(col.a, col.b, col.g, col.r)
    case RGBA_PA | RGBA_PLANAR_PA => pa
    case BGRA_PA => Rgba(pa.b, pa.g, pa.r, pa.a)
    case ARGB_PA => Rgba(pa.a, pa.r, pa.g, pa.b)
    case ABGR_PA => Rgba(pa.a, pa.b, pa.g, pa.r)
    case YUVA | YUVA_PLANAR =>
      var t := cv.rgbToYuv(col.r, col.g, col.b);
      Rgba(t.0, t.1, t.2, col.a)
    case YUVA_PA | YUVA_PLANAR_PA =>
      var t := cv.rgbToYuv(pa.r, pa.g, pa.b);
      Rgba(t.0, t.1, t.2, pa.a)
  }

  /** Encoders of the three-byte formats: the bytes in storing order. */
  function Encode3(cv: Conversions, f: BitmapFormat, col: Rgba): (Byte, Byte, Byte)
    requires IsPacked3(f) || IsPlanar3(f)
  {
    match f
    case RGB | RGB_PLANAR => (col.r, col.g, col.b)
    case BGR => (col.b, col.g, col.r)
    case YUV444 | YUV444_PLANAR => cv.rgbToYuv(col.r, col.g, col.b)
  }

  /** The sample a codec's reader reads at cursors `c`. */
  function Load(cv: Conversions, f: BitmapFormat, m: seq<Byte>, c: Quad): Rgba
    requires f.IsNormal()
  {
    Decode(cv, f, Gather(m, ReadAddrs(f, c)))
  }

  /** The colour the sample's own bytes at cursors `c` decode to: the value the encoder
      stored there, as a reader with the sample's own layout reads it back. */
  function Stored(cv: Conversions, f: BitmapFormat, m: seq<Byte>, c: Quad): Rgba
    requires f.IsNormal()
  {
    Decode(cv, f, Gather(m, SampleAddrs(f, c)))
  }

  /** The reader reads what is stored at the sample except in the premultiplied packed
      YUVA format with the fourth plane cursor elsewhere. */
  lemma LoadIsStored(cv: Conversions, f: BitmapFormat, m: seq<Byte>, c: Quad)
    requires f.IsNormal() && (!f.YUVA_PA? || c.p3 == c.p0 + 3)
    ensures Load(cv, f, m, c) == Stored(cv, f, m, c)
  {
    ReadAddrsOwn(f, c);
  }

  /** The stores, in program order, that writing sample `col` at cursors `c` performs. */
  function SampleWrites(cv: Conversions, f: BitmapFormat, c: Quad, col: Rgba): (r: seq<Write>)
    requires f.IsNormal()
    ensures forall k :: 0 <= k < |r| ==> Covers(f, c, r[k].addr)
  {
    SampleAddrsCover(0, f, c);
    Zip(SampleAddrs(f, c), Encode(cv, f, col))
  }

  /** An RGB565 encoder stores the high byte of its word first, then the low byte. */
  lemma Rgb565Encodes(cv: Conversions, f: BitmapFormat, col: Rgba)
    requires Is565(f)
    ensures Encode(cv, f, col) == [Low8(Word565(f, col) >> 8), Low8(Word565(f, col))]
  {
  }

  /** A four-byte sample stores the encoder's quadruple in order, at consecutive bytes
      when packed and at the four plane cursors when planar. */
  lemma QuadWrites(cv: Conversions, f: BitmapFormat, c: Quad, col: Rgba)
    requires IsPacked4(f) || IsPlanar4(f)
    ensures var e := Encode4(cv, f, col);
      var ps := if IsPacked4(f) then [c.p0, c.p0 + 1, c.p0 + 2, c.p0 + 3] else [c.p0, c.p1, c.p2, c.p3];
      SampleWrites(cv, f, c, col) == Zip(ps, [e.r, e.g, e.b, e.a])
  {
  }

  /** A three-byte sample stores the encoder's triple in order, at consecutive bytes when
      packed and at the three plane cursors when planar. */
  lemma TripleWrites(cv: Conversions, f: BitmapFormat, c: Quad, col: Rgba)
    requires IsPacked3(f) || IsPlanar3(f)
    ensures var e := Encode3(cv, f, col);
      var ps := if IsPacked3(f) then [c.p0, c.p0 + 1, c.p0 + 2] else [c.p0, c.p1, c.p2];
      SampleWrites(cv, f, c, col) == Zip(ps, [e.0, e.1, e.2])
  {
  }

  /** An RGB565 sample is its word's high byte then its low byte, stored at the cursor
      and the byte after it in big-endian order and the other way round in little-endian. */
  lemma Rgb565Writes(cv: Conversions, f: BitmapFormat, c: Quad, col: Rgba)
    requires Is565(f)
    ensures var s := Word565(f, col);
      SampleWrites(cv, f, c, col)
      == Zip(if f.RGB565BE? || f.BGR565BE? then [c.p0, c.p0 + 1] else [c.p0 + 1, c.p0], [Low8(s >> 8), Low8(s)])
  {
    Rgb565Encodes(cv, f, col);
  }

  /** An RGB565 sample is read as its high byte then its low byte. */
  lemma Rgb565Loads(cv: Conversions, f: BitmapFormat, m: seq<Byte>, c: Quad)
    requires Is565(f) && SampleIn(|m|, f, c)
    ensures var p := c.p0;
      Load(cv, f, m, c) == if f.RGB565BE? || f.BGR565BE? then Decode(cv, f, [m[p], m[p + 1]]) else Decode(cv, f, [m[p + 1], m[p]])
  {
    assert Gather(m, SampleAddrs(f, c)) == if f.RGB565BE? || f.BGR565BE? then [m[c.p0], m[c.p0 + 1]] else [m[c.p0 + 1], m[c.p0]];
  }

  /** An RGB565 decoder unpacks the word whose high byte it read first. */
  lemma Rgb565Word(cv: Conversions, f: BitmapFormat, hi: Byte, lo: Byte)
    requires Is565(f)
    ensures var t := Unpack565((hi as bv32 << 8) | lo as bv32);
      Decode(cv, f, [hi, lo]) == if f.RGB565BE? || f.RGB565LE? then Rgba(t.0, t.1, t.2, 255) else Rgba(t.2, t.1, t.0, 255)
  {
    var b: seq<Byte> := [hi, lo];
    assert (b[0] as bv32 << 8) | b[1] as bv32 == (hi as bv32 << 8) | lo as bv32;
  }

  /** The stores of one sample go to the bytes it covers and to all of them; they can be
      performed when the sample lies in memory. */
  lemma SampleWritesCover(n: nat, cv: Conversions, f: BitmapFormat, c: Quad, col: Rgba)
    requires f.IsNormal()
    ensures var ws := SampleWrites(cv, f, c, col);
      forall a :: Covers(f, c, a) <==> exists k :: 0 <= k < |ws| && ws[k].addr == a
    ensures SampleIn(n, f, c) ==> WritesIn(n, SampleWrites(cv, f, c, col))
  {
    var ps := SampleAddrs(f, c);
    var ws := SampleWrites(cv, f, c, col);
    SampleAddrsCover(n, f, c);
    forall a | Covers(f, c, a) ensures exists k :: 0 <= k < |ws| && ws[k].addr == a {
      var k :| 0 <= k < |ps| && ps[k] == a;
      assert ws[k].addr == a;
    }
  }
}
