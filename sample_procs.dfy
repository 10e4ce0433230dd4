/** The sample codecs on a memory array, statement by statement: one method reads a
    sample, one writes a sample, each per format family as the conversion procedures do,
    and each proved to agree with the codec's description in `SampleCodecs`. */
module SampleProcs {
  import opened Memory
  import opened BitmapFormats
  import opened SampleCodecs

  /** Reads one sample at cursors `c` and returns it with the advanced cursors. */
  method ReadSample(mem: array<Byte>, cv: Conversions, f: BitmapFormat, c: Quad) returns (col: Rgba, next: Quad)
    requires f.IsNormal() && ReadIn(mem.Length, f, c)
    ensures col == Load(cv, f, mem[..], c)
    ensures next == Advance(f, c)
  {
    if IsPacked4(f) {
      col, next := ReadPacked4(mem, cv, f, c);
    } else if IsPacked3(f) {
      col, next := ReadPacked3(mem, cv, f, c);
    } else if f.RGB565BE? || f.BGR565BE? {
      col, next := Read565BE(mem, cv, f, c);
    } else if f.RGB565LE? || f.BGR565LE? {
      col, next := Read565LE(mem, cv, f, c);
    } else if f.GRAY8? {
      var v := mem[c.p0];
      assert Gather(mem[..], SampleAddrs(f, c)) == [v];
      col := Rgba(v, v, v, 255);
      next := c.(p0 := c.p0 + 1);
    } else if IsPlanar4(f) {
      col, next := ReadPlanar4(mem, cv, f, c);
    } else {
      col, next := ReadPlanar3(mem, cv, f, c);
    }
  }

  /** The four-byte packed readers; the premultiplied YUVA one takes alpha from the
      fourth plane cursor, which it does not advance. */
  method ReadPacked4(mem: array<Byte>, cv: Conversions, f: BitmapFormat, c: Quad) returns (col: Rgba, next: Quad)
    requires IsPacked4(f) && ReadIn(mem.Length, f, c)
    ensures col == Load(cv, f, mem[..], c)
    ensures next == Advance(f, c)
  {
    var p := c.p0;
    assert Gather(mem[..], ReadAddrs(f, c))
           == [mem[p], mem[p + 1], mem[p + 2], if f.YUVA_PA? then mem[c.p3] else mem[p + 3]];
    match f {
      case RGBA => col := Rgba(mem[p], mem[p + 1], mem[p + 2], mem[p + 3]);
      case BGRA => col := Rgba(mem[p + 2], mem[p + 1], mem[p], mem[p + 3]);
      case ARGB => col := Rgba(mem[p + 1], mem[p + 2], mem[p + 3], mem[p]);
      case ABGR => col := Rgba(mem[p + 3], mem[p + 2], mem[p + 1], mem[p]);
      case RGBA_PA => col := cv.paToNpa(Rgba(mem[p], mem[p + 1], mem[p + 2], mem[p + 3]));
      case BGRA_PA => col := cv.paToNpa(Rgba(mem[p + 2], mem[p + 1], mem[p], mem[p + 3]));
      case ARGB_PA => col := cv.paToNpa(Rgba(mem[p + 1], mem[p + 2], mem[p + 3], mem[p]));
      case ABGR_PA => col := cv.paToNpa(Rgba(mem[p + 3], mem[p + 2], mem[p + 1], mem[p]));
      case YUVA => col := FromYuv(cv, mem[p], mem[p + 1], mem[p + 2], mem[p + 3]);
      case YUVA_PA => col := cv.paToNpa(FromYuv(cv, mem[p], mem[p + 1], mem[p + 2], mem[c.p3]));
    }
    next := c.(p0 := p + 4);
  }

  method ReadPacked3(mem: array<Byte>, cv: Conversions, f: BitmapFormat, c: Quad) returns (col: Rgba, next: Quad)
    requires IsPacked3(f) && SampleIn(mem.Length, f, c)
    ensures col == Load(cv, f, mem[..], c)
    ensures next == Advance(f, c)
  {
    var p := c.p0;
    assert Gather(mem[..], SampleAddrs(f, c)) == [mem[p], mem[p + 1], mem[p + 2]];
    match f {
      case RGB => col := Rgba(mem[p], mem[p + 1], mem[p + 2], 255);
      case BGR => col := Rgba(mem[p + 2], mem[p + 1], mem[p], 255);
      case YUV444 => col := FromYuv(cv, mem[p], mem[p + 1], mem[p + 2], 255);
    }
    next := c.(p0 := p + 3);
  }

  /** The big-endian RGB565 and BGR565 readers take the word's high byte at the cursor. */
  method Read565BE(mem: array<Byte>, cv: Conversions, f: BitmapFormat, c: Quad) returns (col: Rgba, next: Quad)
    requires (f.RGB565BE? || f.BGR565BE?) && SampleIn(mem.Length, f, c)
    ensures col == Load(cv, f, mem[..], c)
    ensures next == Advance(f, c)
  {
    var p := c.p0;
    Rgb565Loads(cv, f, mem[..], c);
    Rgb565Word(cv, f, mem[p], mem[p + 1]);
    var s: bv32 := mem[p] as bv32;
    s := (s << 8) | mem[p + 1] as bv32;
    var t := Unpack565(s);
    if f.RGB565BE? {
      col := Rgba(t.0, t.1, t.2, 255);
    } else {
      col := Rgba(t.2, t.1, t.0, 255);
    }
    next := c.(p0 := p + 2);
  }

  /** The little-endian RGB565 and BGR565 readers take the word's low byte at the cursor. */
  method Read565LE(mem: array<Byte>, cv: Conversions, f: BitmapFormat, c: Quad) returns (col: Rgba, next: Quad)
    requires (f.RGB565LE? || f.BGR565LE?) && SampleIn(mem.Length, f, c)
    ensures col == Load(cv, f, mem[..], c)
    ensures next == Advance(f, c)
  {
    var p := c.p0;
    Rgb565Loads(cv, f, mem[..], c);
    Rgb565Word(cv, f, mem[p + 1], mem[p]);
    var s: bv32 := mem[p + 1] as bv32;
    s := (s << 8) | mem[p] as bv32;
    var t := Unpack565(s);
    if f.RGB565LE? {
      col := Rgba(t.0, t.1, t.2, 255);
    } else {
      col := Rgba(t.2, t.1, t.0, 255);
    }
    next := c.(p0 := p + 2);
  }

  method ReadPlanar4(mem: array<Byte>, cv: Conversions, f: BitmapFormat, c: Quad) returns (col: Rgba, next: Quad)
    requires IsPlanar4(f) && SampleIn(mem.Length, f, c)
    ensures col == Load(cv, f, mem[..], c)
    ensures next == Advance(f, c)
  {
    assert Gather(mem[..], SampleAddrs(f, c)) == [mem[c.p0], mem[c.p1], mem[c.p2], mem[c.p3]];
    match f {
      case RGBA_PLANAR => col := Rgba(mem[c.p0], mem[c.p1], mem[c.p2], mem[c.p3]);
      case RGBA_PLANAR_PA => col := cv.paToNpa(Rgba(mem[c.p0], mem[c.p1], mem[c.p2], mem[c.p3]));
      case YUVA_PLANAR => col := FromYuv(cv, mem[c.p0], mem[c.p1], mem[c.p2], mem[c.p3]);
      case YUVA_PLANAR_PA => col := cv.paToNpa(FromYuv(cv, mem[c.p0], mem[c.p1], mem[c.p2], mem[c.p3]));
    }
    next := Quad(c.p0 + 1, c.p1 + 1, c.p2 + 1, c.p3 + 1);
  }

  method ReadPlanar3(mem: array<Byte>, cv: Conversions, f: BitmapFormat, c: Quad) returns (col: Rgba, next: Quad)
    requires IsPlanar3(f) && SampleIn(mem.Length, f, c)
    ensures col == Load(cv, f, mem[..], c)
    ensures next == Advance(f, c)
  {
    assert Gather(mem[..], SampleAddrs(f, c)) == [mem[c.p0], mem[c.p1], mem[c.p2]];
    match f {
      case RGB_PLANAR => col := Rgba(mem[c.p0], mem[c.p1], mem[c.p2], 255);
      case YUV444_PLANAR => col := FromYuv(cv, mem[c.p0], mem[c.p1], mem[c.p2], 255);
    }
    next := c.(p0 := c.p0 + 1, p1 := c.p1 + 1, p2 := c.p2 + 1);
  }


  method Store4(mem: array<Byte>, a0: Ptr, v0: Byte, a1: Ptr, v1: Byte, a2: Ptr, v2: Byte, a3: Ptr, v3: Byte)
    requires Addressable(mem.Length, a0) && Addressable(mem.Length, a1) && Addressable(mem.Length, a2) && Addressable(mem.Length, a3)
    modifies mem
    ensures mem[..] == Apply(old(mem[..]), Zip([a0, a1, a2, a3], [v0, v1, v2, v3]))
  {
    ghost var m0 := mem[..];
    ghost var ws := Zip([a0, a1, a2, a3], [v0, v1, v2, v3]);
    mem[a0] := v0;
    ApplyPrefixStep(m0, ws, 0);
    mem[a1] := v1;
    ApplyPrefixStep(m0, ws, 1);
    mem[a2] := v2;
    ApplyPrefixStep(m0, ws, 2);
    mem[a3] := v3;
    ApplyPrefixStep(m0, ws, 3);
    assert ws[..4] == ws;
  }

  method Store3(mem: array<Byte>, a0: Ptr, v0: Byte, a1: Ptr, v1: Byte, a2: Ptr, v2: Byte)
    requires Addressable(mem.Length, a0) && Addressable(mem.Length, a1) && Addressable(mem.Length, a2)
    modifies mem
    ensures mem[..] == Apply(old(mem[..]), Zip([a0, a1, a2], [v0, v1, v2]))
  {
    ghost var m0 := mem[..];
    ghost var ws := Zip([a0, a1, a2], [v0, v1, v2]);
    mem[a0] := v0;
    ApplyPrefixStep(m0, ws, 0);
    mem[a1] := v1;
    ApplyPrefixStep(m0, ws, 1);
    mem[a2] := v2;
    ApplyPrefixStep(m0, ws, 2);
    assert ws[..3] == ws;
  }

  method Store2(mem: array<Byte>, a0: Ptr, v0: Byte, a1: Ptr, v1: Byte)
    requires Addressable(mem.Length, a0) && Addressable(mem.Length, a1)
    modifies mem
    ensures mem[..] == Apply(old(mem[..]), Zip([a0, a1], [v0, v1]))
  {
    ghost var m0 := mem[..];
    ghost var ws := Zip([a0, a1], [v0, v1]);
    mem[a0] := v0;
    ApplyPrefixStep(m0, ws, 0);
    mem[a1] := v1;
    ApplyPrefixStep(m0, ws, 1);
    assert ws[..2] == ws;
  }

  method Store1(mem: array<Byte>, a0: Ptr, v0: Byte)
    requires Addressable(mem.Length, a0)
    modifies mem
    ensures mem[..] == Apply(old(mem[..]), Zip([a0], [v0]))
  {
    ghost var m0 := mem[..];
    ghost var ws := Zip([a0], [v0]);
    mem[a0] := v0;
    ApplyPrefixStep(m0, ws, 0);
    assert ws[..1] == ws;
  }

  /** Writes sample `col` at cursors `c` and returns the advanced cursors. */
  method WriteSample(mem: array<Byte>, cv: Conversions, f: BitmapFormat, c: Quad, col: Rgba) returns (next: Quad)
    requires f.IsNormal() && SampleIn(mem.Length, f, c)
    modifies mem
    ensures mem[..] == Apply(old(mem[..]), SampleWrites(cv, f, c, col))
    ensures next == Advance(f, c)
  {
    if IsPacked4(f) {
      next := WritePacked4(mem, cv, f, c, col);
    } else if IsPacked3(f) {
      next := WritePacked3(mem, cv, f, c, col);
    } else if f.RGB565BE? || f.BGR565BE? {
      next := Write565BE(mem, cv, f, c, col);
    } else if f.RGB565LE? || f.BGR565LE? {
      next := Write565LE(mem, cv, f, c, col);
    } else if f.GRAY8? {
      Store1(mem, c.p0, Gray(col.r, col.g, col.b));
      next := c.(p0 := c.p0 + 1);
    } else if IsPlanar4(f) {
      next := WritePlanar4(mem, cv, f, c, col);
    } else {
      next := WritePlanar3(mem, cv, f, c, col);
    }
  }

  method WritePacked4(mem: array<Byte>, cv: Conversions, f: BitmapFormat, c: Quad, col: Rgba) returns (next: Quad)
    requires IsPacked4(f) && SampleIn(mem.Length, f, c)
    modifies mem
    ensures mem[..] == Apply(old(mem[..]), SampleWrites(cv, f, c, col))
    ensures next == Advance(f, c)
  {
    var p := c.p0;
    QuadWrites(cv, f, c, col);
    // the four bytes in storing order, per format as `Encode4` lists them
    var e := Encode4(cv, f, col);
    Store4(mem, p, e.r, p + 1, e.g, p + 2, e.b, p + 3, e.a);
    next := c.(p0 := p + 4);
  }

  method WritePacked3(mem: array<Byte>, cv: Conversions, f: BitmapFormat, c: Quad, col: Rgba) returns (next: Quad)
    requires IsPacked3(f) && SampleIn(mem.Length, f, c)
    modifies mem
    ensures mem[..] == Apply(old(mem[..]), SampleWrites(cv, f, c, col))
    ensures next == Advance(f, c)
  {
    var p := c.p0;
    TripleWrites(cv, f, c, col);
    // the three bytes in storing order
    var e: (Byte, Byte, Byte);
    match f {
      case RGB => e := (col.r, col.g, col.b);
      case BGR => e := (col.b, col.g, col.r);
      case YUV444 => e := cv.rgbToYuv(col.r, col.g, col.b);
    }
    assert e == Encode3(cv, f, col);
    Store3(mem, p, e.0, p + 1, e.1, p + 2, e.2);
    next := c.(p0 := p + 3);
  }

  /** The big-endian RGB565 and BGR565 writers store the word's high byte at the cursor. */
  method Write565BE(mem: array<Byte>, cv: Conversions, f: BitmapFormat, c: Quad, col: Rgba) returns (next: Quad)
    requires (f.RGB565BE? || f.BGR565BE?) && SampleIn(mem.Length, f, c)
    modifies mem
    ensures mem[..] == Apply(old(mem[..]), SampleWrites(cv, f, c, col))
    ensures next == Advance(f, c)
  {
    var p := c.p0;
    var s := Word565(f, col);
    Rgb565Writes(cv, f, c, col);
    Store2(mem, p, Low8(s >> 8), p + 1, Low8(s));
    next := c.(p0 := p + 2);
  }

  /** The little-endian RGB565 and BGR565 writers store the word's low byte at the cursor. */
  method Write565LE(mem: array<Byte>, cv: Conversions, f: BitmapFormat, c: Quad, col: Rgba) returns (next: Quad)
    requires (f.RGB565LE? || f.BGR565LE?) && SampleIn(mem.Length, f, c)
    modifies mem
    ensures mem[..] == Apply(old(mem[..]), SampleWrites(cv, f, c, col))
    ensures next == Advance(f, c)
  {
    var p := c.p0;
    var s := Word565(f, col);
    Rgb565Writes(cv, f, c, col);
    Store2(mem, p + 1, Low8(s >> 8), p, Low8(s));
    next := c.(p0 := p + 2);
  }

  method WritePlanar4(mem: array<Byte>, cv: Conversions, f: BitmapFormat, c: Quad, col: Rgba) returns (next: Quad)
    requires IsPlanar4(f) && SampleIn(mem.Length, f, c)
    modifies mem
    ensures mem[..] == Apply(old(mem[..]), SampleWrites(cv, f, c, col))
    ensures next == Advance(f, c)
  {
    QuadWrites(cv, f, c, col);
    match f {
      case RGBA_PLANAR =>
        Store4(mem, c.p0, col.r, c.p1, col.g, c.p2, col.b, c.p3, col.a);
      case RGBA_PLANAR_PA =>
        var pa := cv.npaToPa(col);
        Store4(mem, c.p0, pa.r, c.p1, pa.g, c.p2, pa.b, c.p3, pa.a);
      case YUVA_PLANAR =>
        var t := cv.rgbToYuv(col.r, col.g, col.b);
        Store4(mem, c.p0, t.0, c.p1, t.1, c.p2, t.2, c.p3, col.a);
      case YUVA_PLANAR_PA =>
        var pa := cv.npaToPa(col);
        var t := cv.rgbToYuv(pa.r, pa.g, pa.b);
        Store4(mem, c.p0, t.0, c.p1, t.1, c.p2, t.2, c.p3, pa.a);
    }
    next := Quad(c.p0 + 1, c.p1 + 1, c.p2 + 1, c.p3 + 1);
  }

  method WritePlanar3(mem: array<Byte>, cv: Conversions, f: BitmapFormat, c: Quad, col: Rgba) returns (next: Quad)
    requires IsPlanar3(f) && SampleIn(mem.Length, f, c)
    modifies mem
    ensures mem[..] == Apply(old(mem[..]), SampleWrites(cv, f, c, col))
    ensures next == Advance(f, c)
  {
    TripleWrites(cv, f, c, col);
    match f {
      case RGB_PLANAR =>
        Store3(mem, c.p0, col.r, c.p1, col.g, c.p2, col.b);
      case YUV444_PLANAR =>
        var t := cv.rgbToYuv(col.r, col.g, col.b);
        Store3(mem, c.p0, t.0, c.p1, t.1, c.p2, t.2);
    }
    next := c.(p0 := c.p0 + 1, p1 := c.p1 + 1, p2 := c.p2 + 1);
  }

}
