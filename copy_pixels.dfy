/** `BitmapData::copyPixelsFrom`: copying the pixels of one bitmap view into another.

    The two views are first checked and cropped: a 4:2:0 view with an odd width or height
    has no layout and stops the copy, the rectangle copied is the one both views share, cut
    to even sides when either view is 4:2:0, and an empty rectangle copies nothing.  Both
    views then get their default layout, and one of five routes moves the pixels:

    - 4:2:0 to 4:2:0: the Y, U and V channels are copied byte by byte (`ByteCopy`);
    - 4:2:0 to a normal format, and back: the chroma of each 2x2 block is spread over its
      four pixels, or averaged from them (`Upsample420`, `Downsample420`);
    - a normal format to the same normal format, once premultiplied alpha on both sides is
      set aside and two YUV layouts are read as their RGB twins: the first
      `(bitsPerSample * width) >> 3` bytes of each row of each plane are copied;
    - any other pair of normal formats: each sample is decoded and encoded again
      (`NormalCopy`).

    `Copied` is the memory `copyPixelsFrom` leaves, route by route; `CopyPixelsFrom` is the
    routine, proved to produce it. */
module CopyPixels {
  import opened Memory
  import opened BitmapFormats
  import opened SampleCodecs
  import opened CodecLaws
  import opened BitmapLayout
  import opened NormalCopy
  import Upsample420
  import Downsample420
  import ByteCopy

  // ----- Cropping -----

  function Min(a: nat, b: nat): nat {
    if a < b then a else b
  }

  /** `x & 0xFFFFFFFE` on an unsigned 32-bit value: bit 0 cleared. */
  function ClearLowBit(x: nat): (r: nat)
    ensures r % 2 == 0 && r <= x <= r + 1
  {
    x - x % 2
  }

  /** Either view is in a 4:2:0 format. */
  predicate Involves420(src: BitmapData, dst: BitmapData) {
    src.format.IsYUV420() || dst.format.IsYUV420()
  }

  /** The width and height of the rectangle copied. */
  function CropSize(src: BitmapData, dst: BitmapData): (r: (nat, nat))
    ensures r.0 <= src.width && r.0 <= dst.width && r.1 <= src.height && r.1 <= dst.height
    ensures Involves420(src, dst) ==> r.0 % 2 == 0 && r.1 % 2 == 0
  {
    var w, h := Min(src.width, dst.width), Min(src.height, dst.height);
    if Involves420(src, dst) then (ClearLowBit(w), ClearLowBit(h)) else (w, h)
  }

  /** The crop is the largest rectangle inside both views whose sides are even whenever
      either view is 4:2:0. */
  lemma CropSizeIsLargest(src: BitmapData, dst: BitmapData, w: nat, h: nat)
    requires w <= src.width && w <= dst.width && h <= src.height && h <= dst.height
    requires Involves420(src, dst) ==> w % 2 == 0 && h % 2 == 0
    ensures w <= CropSize(src, dst).0 && h <= CropSize(src, dst).1
  {
  }

  // ----- The same-view test -----

  /** Both views have the same format and, plane by plane, the same pointer and pitch:
      they are one view of one bitmap, and copying it onto itself has nothing to do. */
  predicate SameView(src: BitmapData, dst: BitmapData) {
    src.format == dst.format
    && forall i :: 0 <= i < src.format.PlanesCount() ==>
         src.PlaneData(i) == dst.PlaneData(i) && src.PlanePitch(i) == dst.PlanePitch(i)
  }

  /** The early-return test as the plane loop of `copyPixelsFrom` is written: the loop
      leaves as soon as a plane's pointers differ or its pitches are equal, so it returns
      only when every plane has the same pointer and a different pitch. */
  predicate EarlyReturnAsWritten(src: BitmapData, dst: BitmapData) {
    src.format == dst.format
    && forall i :: 0 <= i < src.format.PlanesCount() ==>
         src.PlaneData(i) == dst.PlaneData(i) && src.PlanePitch(i) != dst.PlanePitch(i)
  }

  /** The plane loop of the same-format case: it stops at the first plane whose pointers
      differ or whose pitches are equal, and the copy returns early when it runs through
      all the planes. */
  method EarlyReturnTest(src: BitmapData, dst: BitmapData) returns (stop: bool)
    ensures stop <==> EarlyReturnAsWritten(src, dst)
  {
    if src.format != dst.format {
      return false;
    }
    var n := src.format.PlanesCount();
    var i := 0;
    while i < n
      invariant i <= n
      invariant forall k :: 0 <= k < i ==> src.PlaneData(k) == dst.PlaneData(k) && src.PlanePitch(k) != dst.PlanePitch(k)
    {
      if src.PlaneData(i) != dst.PlaneData(i) || src.PlanePitch(i) == dst.PlanePitch(i) {
        break;
      }
      i := i + 1;
    }
    stop := i == n;
  }

  /** As written, the early return misses the one case it can skip, a view copied onto
      itself, and takes a view of the same planes with other pitches, whose rows do need
      moving, for that case. */
  lemma EarlyReturnAsWrittenCounterexample()
    ensures var v := SetFromColors(2, 2, 64, 2);
      !EarlyReturnAsWritten(v, v) && SameView(v, v)
    ensures var v := SetFromColors(2, 2, 64, 2);
      EarlyReturnAsWritten(v, v.(pitch := 16)) && !SameView(v, v.(pitch := 16))
  {
    var v := SetFromColors(2, 2, 64, 2);
    assert v.format.PlanesCount() == 1 && v.PlanePitch(0) == 8;
  }

  // ----- The normal-to-normal formats -----

  /** The two formats once premultiplied alpha is set aside where both sides have it. */
  function StraightFormats(sf: BitmapFormat, df: BitmapFormat): (BitmapFormat, BitmapFormat) {
    if sf.IsPrecomputedAlpha() && df.IsPrecomputedAlpha()
    then (sf.NonPrecomputedAlphaFormat(), df.NonPrecomputedAlphaFormat()) else (sf, df)
  }

  /** Both formats are in YUV colour space once premultiplied alpha is set aside. */
  predicate YuvPair(sf: BitmapFormat, df: BitmapFormat) {
    var (s1, d1) := StraightFormats(sf, df);
    s1.ColorSpaceOf() == SpaceYUV && d1.ColorSpaceOf() == SpaceYUV
  }

  /** The formats the normal-to-normal route works with, as written: straight alpha when
      both sides premultiply; then, when both are in YUV colour space, the source's RGB
      twin, and for the target the RGB twin of the source's format after the source's
      format has already been replaced by its own twin. */
  function NormalFormatsAsWritten(sf: BitmapFormat, df: BitmapFormat): (r: (BitmapFormat, BitmapFormat))
  {
    var (s1, d1) := StraightFormats(sf, df);
    if YuvPair(sf, df) then (s1.CompatibleRGBFormat(), s1.CompatibleRGBFormat().CompatibleRGBFormat()) else (s1, d1)
  }

  /** The formats the normal-to-normal route evidently means to work with: each side's
      own RGB twin when both are in YUV colour space. */
  function NormalFormats(sf: BitmapFormat, df: BitmapFormat): (r: (BitmapFormat, BitmapFormat))
  {
    var (s1, d1) := StraightFormats(sf, df);
    if YuvPair(sf, df) then (s1.CompatibleRGBFormat(), d1.CompatibleRGBFormat()) else (s1, d1)
  }

  /** The as-written formats are the intended ones except on a YUV pair whose two RGB twins
      differ, where the target gets the source's twin; on a YUV pair both as-written
      formats are the source's twin. */
  lemma NormalFormatsAgree(sf: BitmapFormat, df: BitmapFormat)
    ensures NormalFormatsAsWritten(sf, df).0 == NormalFormats(sf, df).0
    ensures NormalFormatsAsWritten(sf, df) == NormalFormats(sf, df)
            <==> !YuvPair(sf, df) || NormalFormats(sf, df).0 == NormalFormats(sf, df).1
    ensures YuvPair(sf, df) ==> NormalFormatsAsWritten(sf, df).1 == NormalFormats(sf, df).0
  {
    CompatibleRGBFormatIdempotent(StraightFormats(sf, df).0);
  }

  /** The as-written formats of two normal formats are normal. */
  lemma NormalFormatsAsWrittenStayNormal(sf: BitmapFormat, df: BitmapFormat)
    requires sf.IsNormal() && df.IsNormal()
    ensures NormalFormatsAsWritten(sf, df).0.IsNormal() && NormalFormatsAsWritten(sf, df).1.IsNormal()
  {
    NormalFormatsAgree(sf, df);
    NormalFormatsKeepLayouts(sf, df);
  }

  /** Each side keeps its own planes and sample size, stays normal, and is YUV on neither
      side or on one side only; so the two formats are equal only when the two layouts are. */
  lemma NormalFormatsKeepLayouts(sf: BitmapFormat, df: BitmapFormat)
    requires sf.IsNormal() && df.IsNormal()
    ensures var r := NormalFormats(sf, df);
      r.0.IsNormal() && r.1.IsNormal()
      && r.0.PlanesCount() == sf.PlanesCount() && r.0.BitsPerSample() == sf.BitsPerSample()
      && r.1.PlanesCount() == df.PlanesCount() && r.1.BitsPerSample() == df.BitsPerSample()
      && !(r.0.ColorSpaceOf() == SpaceYUV && r.1.ColorSpaceOf() == SpaceYUV)
      && !(r.0.IsPrecomputedAlpha() && r.1.IsPrecomputedAlpha())
  {
    var sa, da := sf.NonPrecomputedAlphaFormat(), df.NonPrecomputedAlphaFormat();
    NonPrecomputedAlphaFormatKeepsLayout(sf);
    NonPrecomputedAlphaFormatKeepsLayout(df);
    CompatibleRGBFormatKeepsLayout(sf);
    CompatibleRGBFormatKeepsLayout(df);
    CompatibleRGBFormatKeepsLayout(sa);
    CompatibleRGBFormatKeepsLayout(da);
  }

  /** As written, a four-channel YUVA source and a three-byte YUV 4:4:4 target both end up
      as RGBA, and the byte copy moves four bytes a pixel into rows of three; the two twins
      are RGBA and RGB, which the sample-by-sample conversion handles. */
  lemma NormalFormatsAsWrittenCounterexample()
    ensures NormalFormatsAsWritten(YUVA, YUV444) == (RGBA, RGBA)
    ensures RGBA.BitsPerSample() != YUV444.BitsPerSample()
    ensures NormalFormats(YUVA, YUV444) == (RGBA, RGB)
  {
  }

  // ----- The routes -----

  /** The image a normal-format route sees: the view's plane pointers and pitches, under
      the format the route chose. */
  function ImageOf(bd: BitmapData, f: BitmapFormat): Image {
    Image(f, Quad(bd.data, bd.data1, bd.data2, bd.data3), Quad(bd.pitch, bd.pitch1, bd.pitch2, bd.pitch3))
  }

  /** `(bitsPerSample * width) >> 3`: the bytes of one row of `width` samples. */
  function RowSize(f: BitmapFormat, width: nat): nat {
    f.BitsPerSample() * width / 8
  }

  /** The planes of the same-format copy: `RowSize` adjacent bytes in each of `height` rows
      of each of the format's planes. */
  function BytePlanes(s: BitmapData, d: BitmapData, f: BitmapFormat, width: nat, height: nat): (r: seq<ByteCopy.PlaneCopy>)
    ensures |r| == f.PlanesCount()
    ensures forall i :: 0 <= i < |r| ==>
              r[i].w == RowSize(f, width) && r[i].h == height
              && r[i].src == PlaneStrip(s, i) && r[i].dst == PlaneStrip(d, i)
  {
    seq(f.PlanesCount(), i requires 0 <= i < f.PlanesCount() =>
      ByteCopy.PlaneCopy(PlaneStrip(s, i), PlaneStrip(d, i), RowSize(f, width), height))
  }

  /** The byte channel of a channel view. */
  function StripOf(c: ColorComponentBuffer): ByteCopy.Strip {
    ByteCopy.Strip(c.data, c.sampleStride, c.pitch)
  }

  /** The planes of the 4:2:0 to 4:2:0 copy: the Y channel in full, the U and V channels at
      half the width and height, each stepping by its own sample stride. */
  function ChannelPlanes(sc: seq<ColorComponentBuffer>, dc: seq<ColorComponentBuffer>, width: nat, height: nat): (r: seq<ByteCopy.PlaneCopy>)
    requires |sc| == 3 && |dc| == 3
    ensures |r| == 3
    ensures forall k :: 0 <= k < 3 ==>
              r[k].src == StripOf(sc[k]) && r[k].dst == StripOf(dc[k])
              && r[k].w == (if k == 0 then width else width / 2) && r[k].h == (if k == 0 then height else height / 2)
  {
    seq(3, k requires 0 <= k < 3 =>
      ByteCopy.PlaneCopy(StripOf(sc[k]), StripOf(dc[k]),
                         if k == 0 then width else width / 2, if k == 0 then height else height / 2))
  }

  /** Memory after the 4:2:0 to 4:2:0 copy; nothing happens without three views a side. */
  function Copied420(m: seq<Byte>, s: BitmapData, d: BitmapData, width: nat, height: nat): (r: seq<Byte>)
    ensures |r| == |m|
  {
    var sc, dc := ComponentBuffers(s), ComponentBuffers(d);
    if |sc| != 3 || |dc| != 3 then m else ByteCopy.PlanesCopied(m, ChannelPlanes(sc, dc, width, height))
  }

  /** Memory after the normal-to-normal route on the views `s` and `d` with their formats
      adjusted to `fs`: the byte copy when the two adjusted formats are equal, the
      sample-by-sample conversion otherwise. */
  function NormalRoute(cv: Conversions, m: seq<Byte>, s: BitmapData, d: BitmapData, fs: (BitmapFormat, BitmapFormat),
                       width: nat, height: nat): (r: seq<Byte>)
    ensures |r| == |m|
  {
    var (sf, df) := fs;
    if sf == df then ByteCopy.PlanesCopied(m, BytePlanes(s, d, sf, width, height))
    else if sf.IsNormal() && df.IsNormal() then
      CopyImage(ProcOf(cv, sf), ProcOf(cv, df), ImageOf(s, sf), ImageOf(d, df), m, width, height)
    else m
  }

  /** Memory after the normal-to-normal route, as written. */
  function CopiedNormal(cv: Conversions, m: seq<Byte>, s: BitmapData, d: BitmapData, width: nat, height: nat): (r: seq<Byte>)
    ensures |r| == |m|
  {
    NormalRoute(cv, m, s, d, NormalFormatsAsWritten(s.format, d.format), width, height)
  }

  /** Memory after the route the two formats choose past the early return, with `fs` the
      formats the normal-to-normal route adjusts them to. */
  function Dispatched(cv: Conversions, m: seq<Byte>, s: BitmapData, d: BitmapData, fs: (BitmapFormat, BitmapFormat),
                      width: nat, height: nat): (r: seq<Byte>)
    ensures |r| == |m|
  {
    if s.format.IsYUV420() && d.format.IsYUV420() then Copied420(m, s, d, width, height)
    else if s.format.IsYUV420() then Upsample420.Upsampled(cv, m, ComponentBuffers(s), ImageOf(d, d.format), width, height)
    else if d.format.IsYUV420() then Downsample420.Downsampled(cv, m, ImageOf(s, s.format), ComponentBuffers(d), width, height)
    else NormalRoute(cv, m, s, d, fs, width, height)
  }

  /** Memory after the route chosen for two views with their default layout, as written:
      the as-written early-return test, then the route, with the as-written formats for the
      normal-to-normal one. */
  function Routed(cv: Conversions, m: seq<Byte>, s: BitmapData, d: BitmapData, width: nat, height: nat): (r: seq<Byte>)
    ensures |r| == |m|
  {
    if EarlyReturnAsWritten(s, d) then m else Dispatched(cv, m, s, d, NormalFormatsAsWritten(s.format, d.format), width, height)
  }

  /** The routes as evidently intended: the early return taken exactly for the same view,
      and each side's own RGB twin for two YUV formats. */
  function RoutedIntended(cv: Conversions, m: seq<Byte>, s: BitmapData, d: BitmapData, width: nat, height: nat): (r: seq<Byte>)
    ensures |r| == |m|
  {
    if SameView(s, d) then m else Dispatched(cv, m, s, d, NormalFormats(s.format, d.format), width, height)
  }

  /** The copy goes ahead: no odd-sized 4:2:0 view and a non-empty crop. */
  predicate Proceeds(src: BitmapData, dst: BitmapData) {
    !IsOddYUV420(src) && !IsOddYUV420(dst) && CropSize(src, dst).0 > 0 && CropSize(src, dst).1 > 0
  }

  /** Memory after `dst.copyPixelsFrom(src)`. */
  function Copied(cv: Conversions, m: seq<Byte>, dst: BitmapData, src: BitmapData): (r: seq<Byte>)
    ensures |r| == |m|
  {
    if !Proceeds(src, dst) then m
    else
      var (w, h) := CropSize(src, dst);
      Routed(cv, m, Defaults(src), Defaults(dst), w, h)
  }

  /** Memory after `dst.copyPixelsFrom(src)` with the routes as intended. */
  function CopiedIntended(cv: Conversions, m: seq<Byte>, dst: BitmapData, src: BitmapData): (r: seq<Byte>)
    ensures |r| == |m|
  {
    if !Proceeds(src, dst) then m
    else
      var (w, h) := CropSize(src, dst);
      RoutedIntended(cv, m, Defaults(src), Defaults(dst), w, h)
  }

  // ----- What the routes need of memory -----

  /** Every byte the normal-to-normal route reads or writes lies in a memory of `mn` bytes. */
  predicate NormalFits(mn: nat, s: BitmapData, d: BitmapData, width: nat, height: nat) {
    var (sf, df) := NormalFormatsAsWritten(s.format, d.format);
    if sf == df then ByteCopy.PlanesIn(mn, BytePlanes(s, d, sf, width, height))
    else
      (sf.IsNormal() ==> ImageReadIn(mn, ImageOf(s, sf), width, height))
      && (df.IsNormal() ==> ImageIn(mn, ImageOf(d, df), width, height))
  }

  /** Every byte the chosen route reads or writes lies in a memory of `mn` bytes. */
  predicate RouteFits(mn: nat, s: BitmapData, d: BitmapData, width: nat, height: nat) {
    if EarlyReturnAsWritten(s, d) then true
    else if s.format.IsYUV420() && d.format.IsYUV420() then
      var sc, dc := ComponentBuffers(s), ComponentBuffers(d);
      |sc| == 3 && |dc| == 3 ==> ByteCopy.PlanesIn(mn, ChannelPlanes(sc, dc, width, height))
    else if s.format.IsYUV420() then Upsample420.UpsampleFits(mn, ComponentBuffers(s), ImageOf(d, d.format), width, height)
    else if d.format.IsYUV420() then Downsample420.DownsampleFits(mn, ImageOf(s, s.format), ComponentBuffers(d), width, height)
    else NormalFits(mn, s, d, width, height)
  }

  /** Every byte `dst.copyPixelsFrom(src)` reads or writes lies in a memory of `mn` bytes. */
  predicate CopyFits(mn: nat, dst: BitmapData, src: BitmapData) {
    Proceeds(src, dst) ==> RouteFits(mn, Defaults(src), Defaults(dst), CropSize(src, dst).0, CropSize(src, dst).1)
  }

  // ----- The routine -----

  /** The 4:2:0 to 4:2:0 route: the channel views of both sides, then each channel's
      rectangle byte by byte. */
  method Copy420(mem: array<Byte>, s: BitmapData, d: BitmapData, width: nat, height: nat)
    requires s.format.IsYUV420() && d.format.IsYUV420()
    requires var sc, dc := ComponentBuffers(s), ComponentBuffers(d);
      |sc| == 3 && |dc| == 3 ==> ByteCopy.PlanesIn(mem.Length, ChannelPlanes(sc, dc, width, height))
    modifies mem
    ensures mem[..] == Copied420(old(mem[..]), s, d, width, height)
  {
    var sc := new ColorComponentBuffer[3](_ => ColorComponentBuffer(0, 0, 0, NullPtr, 0));
    var dc := new ColorComponentBuffer[3](_ => ColorComponentBuffer(0, 0, 0, NullPtr, 0));
    var n := GetColorComponentBuffers(s, sc);
    if n != 3 {
      return;
    }
    n := GetColorComponentBuffers(d, dc);
    if n != 3 {
      return;
    }
    assert sc[..] == ComponentBuffers(s) && dc[..] == ComponentBuffers(d);
    ByteCopy.CopyPlaneBytes(mem, ChannelPlanes(sc[..], dc[..], width, height));
  }

  /** The normal-to-normal route. */
  method CopyNormalRoute(mem: array<Byte>, cv: Conversions, s: BitmapData, d: BitmapData, width: nat, height: nat)
    requires NormalFits(mem.Length, s, d, width, height)
    modifies mem
    ensures mem[..] == CopiedNormal(cv, old(mem[..]), s, d, width, height)
  {
    var sf, df := s.format, d.format;
    if sf.IsPrecomputedAlpha() && df.IsPrecomputedAlpha() {
      sf := sf.NonPrecomputedAlphaFormat();
      df := df.NonPrecomputedAlphaFormat();
    }
    if sf.ColorSpaceOf() == SpaceYUV && df.ColorSpaceOf() == SpaceYUV {
      sf := sf.CompatibleRGBFormat();
      df := sf.CompatibleRGBFormat();
    }
    assert (sf, df) == NormalFormatsAsWritten(s.format, d.format);
    if sf == df {
      ByteCopy.CopyPlaneBytes(mem, BytePlanes(s, d, sf, width, height));
    } else {
      CopyPixelsNormal(mem, cv, ImageOf(s, sf), ImageOf(d, df), width, height);
    }
  }

  /** The routine: the guards and the crop, the default layouts, the same-view test, and
      the route the two formats choose. */
  method CopyPixelsFrom(mem: array<Byte>, cv: Conversions, dst: BitmapData, src: BitmapData)
    requires CopyFits(mem.Length, dst, src)
    modifies mem
    ensures mem[..] == Copied(cv, old(mem[..]), dst, src)
  {
    if src.format.IsYUV420() {
      if src.width % 2 == 1 {
        return;
      }
      if src.height % 2 == 1 {
        return;
      }
    }
    if dst.format.IsYUV420() {
      if dst.width % 2 == 1 {
        return;
      }
      if dst.height % 2 == 1 {
        return;
      }
    }
    var width, height := Min(src.width, dst.width), Min(src.height, dst.height);
    if src.format.IsYUV420() || dst.format.IsYUV420() {
      width, height := ClearLowBit(width), ClearLowBit(height);
    }
    assert (width, height) == CropSize(src, dst);
    if width == 0 || height == 0 {
      return;
    }
    var s := FillDefaultValues(src);
    var d := FillDefaultValues(dst);
    var stop := EarlyReturnTest(s, d);
    if stop {
      return;
    }
    if s.format.IsYUV420() {
      if d.format.IsYUV420() {
        Copy420(mem, s, d, width, height);
      } else {
        Upsample420.CopyFromYUV420(mem, cv, width, height, s, ImageOf(d, d.format));
      }
    } else if d.format.IsYUV420() {
      Downsample420.CopyToYUV420(mem, cv, width, height, ImageOf(s, s.format), d);
    } else {
      CopyNormalRoute(mem, cv, s, d, width, height);
    }
  }

  // ----- What the copy does -----

  /** Nothing is written when either view is a 4:2:0 view of odd width or height, when the
      crop is empty, or when, with their default layouts, the two views pass the as-written
      early-return test: one format, equal plane pointers and different pitches on every
      plane, which are two different views. */
  lemma CopiedNothing(cv: Conversions, m: seq<Byte>, dst: BitmapData, src: BitmapData)
    requires IsOddYUV420(src) || IsOddYUV420(dst) || CropSize(src, dst).0 == 0 || CropSize(src, dst).1 == 0
             || EarlyReturnAsWritten(Defaults(src), Defaults(dst))
    ensures Copied(cv, m, dst, src) == m
  {
  }

  /** The as-written formats of one format on both sides are equal to each other and to
      the format's intended adjustment. */
  lemma NormalFormatsOfOne(f: BitmapFormat)
    ensures NormalFormatsAsWritten(f, f) == NormalFormats(f, f)
    ensures NormalFormats(f, f).0 == NormalFormats(f, f).1
  {
    NormalFormatsAgree(f, f);
  }

  /** Copying a view onto itself changes nothing, as written: the early return is not
      taken, but every route then stores each byte back where it was read. */
  lemma CopiedSelf(cv: Conversions, m: seq<Byte>, v: BitmapData)
    ensures Copied(cv, m, v, v) == m
  {
    if Proceeds(v, v) {
      var s := Defaults(v);
      var (w, h) := CropSize(v, v);
      if !EarlyReturnAsWritten(s, s) {
        if s.format.IsYUV420() {
          var sc := ComponentBuffers(s);
          if |sc| == 3 {
            ByteCopy.PlanesCopiedSelf(m, ChannelPlanes(sc, sc, w, h));
          }
        } else {
          NormalFormatsOfOne(s.format);
          var g := NormalFormatsAsWritten(s.format, s.format).0;
          ByteCopy.PlanesCopiedSelf(m, BytePlanes(s, s, g, w, h));
        }
      }
    }
  }

  /** For two normal views that are the same view, the as-written routes leave memory as
      the corrected early return does: the byte copy stores every byte onto itself. */
  lemma RoutedSameViewKeepsMemory(cv: Conversions, m: seq<Byte>, s: BitmapData, d: BitmapData, w: nat, h: nat)
    requires s.format.IsNormal() && SameView(s, d)
    ensures Routed(cv, m, s, d, w, h) == m == RoutedIntended(cv, m, s, d, w, h)
  {
    var f := s.format;
    NormalFormatsOfOne(f);
    NormalFormatsKeepLayouts(f, f);
    var g := NormalFormatsAsWritten(f, f).0;
    assert BytePlanes(s, d, g, w, h) == BytePlanes(s, d, f, w, h);
    SameViewByteCopyKeepsMemory(m, s, d, w, h);
  }

  /** Off the two routing quirks (the views pass neither early-return test, and the
      as-written formats are the intended ones) the copy as written and as intended write
      the same memory. */
  lemma CopiedAgrees(cv: Conversions, m: seq<Byte>, dst: BitmapData, src: BitmapData)
    requires !EarlyReturnAsWritten(Defaults(src), Defaults(dst)) && !SameView(Defaults(src), Defaults(dst))
    requires NormalFormatsAsWritten(src.format, dst.format) == NormalFormats(src.format, dst.format)
    ensures Copied(cv, m, dst, src) == CopiedIntended(cv, m, dst, src)
  {
  }

  /** As written, a YUVA source copied to a YUV 4:4:4 target takes the byte copy with the
      row size of RGBA, four bytes a pixel, into rows whose pixels are three bytes wide. */
  lemma YuvaToYuv444CopiesFourBytes(cv: Conversions, m: seq<Byte>, s: BitmapData, d: BitmapData, w: nat, h: nat)
    requires s.format == YUVA && d.format == YUV444
    ensures CopiedNormal(cv, m, s, d, w, h) == ByteCopy.PlanesCopied(m, BytePlanes(s, d, RGBA, w, h))
    ensures RowSize(RGBA, w) == 4 * w && RowSize(YUV444, w) == 3 * w
  {
    NormalFormatsAsWrittenCounterexample();
  }

  /** The start of row `y` of plane `i`. */
  function PlaneRow(bd: BitmapData, i: nat, y: nat): Ptr
    requires i < 4
  {
    bd.PlaneData(i) + y * bd.PlanePitch(i)
  }

  /** Two views of one normal format take the byte-copy route, over that format's planes
      and row size. */
  lemma SameFormatRoute(cv: Conversions, m: seq<Byte>, dst: BitmapData, src: BitmapData)
    requires src.format == dst.format && src.format.IsNormal() && Proceeds(src, dst)
    requires !EarlyReturnAsWritten(Defaults(src), Defaults(dst))
    ensures var s, d, w, h := Defaults(src), Defaults(dst), CropSize(src, dst).0, CropSize(src, dst).1;
      Copied(cv, m, dst, src) == ByteCopy.PlanesCopied(m, BytePlanes(s, d, src.format, w, h))
  {
    var f := src.format;
    var s, d, w, h := Defaults(src), Defaults(dst), CropSize(src, dst).0, CropSize(src, dst).1;
    NormalFormatsOfOne(f);
    NormalFormatsKeepLayouts(f, f);
    var g := NormalFormatsAsWritten(f, f).0;
    assert BytePlanes(s, d, g, w, h) == BytePlanes(s, d, f, w, h);
  }

  /** The byte copy puts byte `o` of row `y` of source plane `i` at byte `o` of row `y` of
      target plane `i`, for every row and every byte below the row size, when the target
      rows are apart from each other and from the source rows. */
  lemma BytePlanesCopyRows(m: seq<Byte>, s: BitmapData, d: BitmapData, f: BitmapFormat, w: nat, h: nat, i: nat, y: nat, o: nat)
    requires i < f.PlanesCount() && y < h && o < RowSize(f, w)
    requires var ps := BytePlanes(s, d, f, w, h); ByteCopy.PlanesIn(|m|, ps) && ByteCopy.PlanesSeparated(ps)
    ensures Peek(ByteCopy.PlanesCopied(m, BytePlanes(s, d, f, w, h)), ByteCopy.Cell(PlaneStrip(d, i), y, o))
            == Peek(m, ByteCopy.Cell(PlaneStrip(s, i), y, o))
  {
    ByteCopy.PlanesCopiedContent(m, BytePlanes(s, d, f, w, h), i, y, o);
  }

  /** Plane `i` of a view as a channel of one-byte samples. */
  function PlaneStrip(bd: BitmapData, i: nat): (r: ByteCopy.Strip)
    requires i < 4
    ensures forall y: nat, o: nat :: ByteCopy.Cell(r, y, o) == PlaneRow(bd, i, y) + o
  {
    var r := ByteCopy.Strip(bd.PlaneData(i), 1, bd.PlanePitch(i));
    forall y: nat, o: nat ensures ByteCopy.Cell(r, y, o) == PlaneRow(bd, i, y) + o {
      ByteCopy.CellAddress(r, y, o);
    }
    r
  }

  /** The byte copy leaves every byte outside the first row-size bytes of each of the
      `h` rows of each target plane as it was. */
  lemma BytePlanesSparePadding(m: seq<Byte>, s: BitmapData, d: BitmapData, f: BitmapFormat, w: nat, h: nat, a: Ptr)
    requires forall i, y :: 0 <= i < f.PlanesCount() && 0 <= y < h ==>
               !(PlaneRow(d, i, y) <= a < PlaneRow(d, i, y) + RowSize(f, w))
    ensures Peek(ByteCopy.PlanesCopied(m, BytePlanes(s, d, f, w, h)), a) == Peek(m, a)
  {
    var ps := BytePlanes(s, d, f, w, h);
    forall k | 0 <= k < |ps| ensures !ByteCopy.RectHas(ps[k].dst, ps[k].w, ps[k].h, a) {
      var p := ps[k];
      assert p.dst == PlaneStrip(d, k) && p.w == RowSize(f, w) && p.h == h;
      forall y | 0 <= y < h ensures !(ByteCopy.Cell(p.dst, y, 0) <= a < ByteCopy.Cell(p.dst, y, 0) + p.w) {
        assert ByteCopy.Cell(p.dst, y, 0) == PlaneRow(d, k, y);
      }
      ByteCopy.DenseRectHas(p.dst, p.w, p.h, a);
    }
    ByteCopy.PlanesWriteIndex(ps, a);
    ByteCopy.PlanesCopiedFrame(m, ps, a);
  }

  /** On two identical views the byte copy that the as-written test lets through stores
      every byte back onto itself, so for this route the as-written early return and the
      corrected one leave the same memory. */
  lemma SameViewByteCopyKeepsMemory(m: seq<Byte>, s: BitmapData, d: BitmapData, w: nat, h: nat)
    requires s.format.IsNormal() && SameView(s, d)
    ensures ByteCopy.PlanesCopied(m, BytePlanes(s, d, s.format, w, h)) == m
  {
    ByteCopy.PlanesCopiedSelf(m, BytePlanes(s, d, s.format, w, h));
  }

  /** With one normal format on both sides, byte `o` of row `y` of plane `i` of the target
      holds that byte of the source, for every row of the crop and every byte below the row
      size, when the target rows are apart from each other and from the source rows. */
  lemma CopiedSameFormatBytes(cv: Conversions, m: seq<Byte>, dst: BitmapData, src: BitmapData, i: nat, y: nat, o: nat)
    requires src.format == dst.format && src.format.IsNormal() && Proceeds(src, dst)
    requires !EarlyReturnAsWritten(Defaults(src), Defaults(dst))
    requires i < src.format.PlanesCount() && y < CropSize(src, dst).1 && o < RowSize(src.format, CropSize(src, dst).0)
    requires var ps := BytePlanes(Defaults(src), Defaults(dst), src.format, CropSize(src, dst).0, CropSize(src, dst).1);
      ByteCopy.PlanesIn(|m|, ps) && ByteCopy.PlanesSeparated(ps)
    ensures Peek(Copied(cv, m, dst, src), PlaneRow(Defaults(dst), i, y) + o) == Peek(m, PlaneRow(Defaults(src), i, y) + o)
  {
    var s, d, w, h := Defaults(src), Defaults(dst), CropSize(src, dst).0, CropSize(src, dst).1;
    SameFormatRoute(cv, m, dst, src);
    BytePlanesCopyRowBytes(m, Copied(cv, m, dst, src), s, d, src.format, w, h, i, y, o);
  }

  /** `BytePlanesCopyRows` at the row addresses of the planes. */
  lemma BytePlanesCopyRowBytes(m: seq<Byte>, m': seq<Byte>, s: BitmapData, d: BitmapData, f: BitmapFormat, w: nat, h: nat, i: nat, y: nat, o: nat)
    requires i < f.PlanesCount() && y < h && o < RowSize(f, w)
    requires var ps := BytePlanes(s, d, f, w, h); ByteCopy.PlanesIn(|m|, ps) && ByteCopy.PlanesSeparated(ps) && m' == ByteCopy.PlanesCopied(m, ps)
    ensures Peek(m', PlaneRow(d, i, y) + o) == Peek(m, PlaneRow(s, i, y) + o)
  {
    BytePlanesCopyRows(m, s, d, f, w, h, i, y, o);
    PlaneRowBytes(m, m', s, d, i, y, o);
  }

  /** A byte of a target plane row that holds the source plane's byte, seen through the
      plane channels, holds it at the row addresses. */
  lemma PlaneRowBytes(m: seq<Byte>, m': seq<Byte>, s: BitmapData, d: BitmapData, i: nat, y: nat, o: nat)
    requires i < 4
    requires Peek(m', ByteCopy.Cell(PlaneStrip(d, i), y, o)) == Peek(m, ByteCopy.Cell(PlaneStrip(s, i), y, o))
    ensures Peek(m', PlaneRow(d, i, y) + o) == Peek(m, PlaneRow(s, i, y) + o)
  {
    assert ByteCopy.Cell(PlaneStrip(d, i), y, o) == PlaneRow(d, i, y) + o;
    assert ByteCopy.Cell(PlaneStrip(s, i), y, o) == PlaneRow(s, i, y) + o;
  }

  /** With one normal format on both sides, a target byte outside the first row-size bytes
      of each of the crop's rows of each plane keeps its value: row padding and the bytes
      right of the crop are not written. */
  lemma CopiedSameFormatSparesPadding(cv: Conversions, m: seq<Byte>, dst: BitmapData, src: BitmapData, a: Ptr)
    requires src.format == dst.format && src.format.IsNormal() && Proceeds(src, dst)
    requires var d, w, h := Defaults(dst), CropSize(src, dst).0, CropSize(src, dst).1;
      forall i, y :: 0 <= i < src.format.PlanesCount() && 0 <= y < h ==>
        !(PlaneRow(d, i, y) <= a < PlaneRow(d, i, y) + RowSize(src.format, w))
    ensures Peek(Copied(cv, m, dst, src), a) == Peek(m, a)
  {
    if !EarlyReturnAsWritten(Defaults(src), Defaults(dst)) {
      SameFormatRoute(cv, m, dst, src);
      BytePlanesSparePadding(m, Defaults(src), Defaults(dst), src.format, CropSize(src, dst).0, CropSize(src, dst).1, a);
    }
  }

  /** Between two 4:2:0 views, sample `j` of row `i` of channel `k` (Y, U, V in that order,
      at full size for Y and half size for U and V) of the target holds that sample of the
      source, whatever the two layouts, when the target channels are apart from each other
      and from the source channels.  The sample is the one the plane loop reaches by `i`
      pitch steps and `j` sample-stride steps, at `data + i * pitch + j * sampleStride`
      (`ByteCopy.CellAddress`). */
  lemma RoutedCopies420Channels(cv: Conversions, m: seq<Byte>, s: BitmapData, d: BitmapData, w: nat, h: nat, k: nat, i: nat, j: nat)
    requires s.format.IsYUV420() && d.format.IsYUV420() && !EarlyReturnAsWritten(s, d)
    requires |ComponentBuffers(s)| == 3 && |ComponentBuffers(d)| == 3 && k < 3
    requires i < (if k == 0 then h else h / 2) && j < (if k == 0 then w else w / 2)
    requires var ps := ChannelPlanes(ComponentBuffers(s), ComponentBuffers(d), w, h);
      ByteCopy.PlanesIn(|m|, ps) && ByteCopy.PlanesSeparated(ps)
    ensures var sc, dc := ComponentBuffers(s), ComponentBuffers(d);
      Peek(Routed(cv, m, s, d, w, h), ByteCopy.Cell(StripOf(dc[k]), i, j)) == Peek(m, ByteCopy.Cell(StripOf(sc[k]), i, j))
  {
    var sc, dc := ComponentBuffers(s), ComponentBuffers(d);
    var ps := ChannelPlanes(sc, dc, w, h);
    assert Routed(cv, m, s, d, w, h) == ByteCopy.PlanesCopied(m, ps);
    ByteCopy.PlanesCopiedContent(m, ps, k, i, j);
  }

  // ----- The conversion routes, pixel by pixel -----

  /** Between two normal views whose as-written adjusted formats differ, each target pixel
      of the crop holds the source pixel read through the adjusted source codec and stored
      through the adjusted target codec; it reads back so through every target format but
      YUVA_PA, whose reader takes alpha from the fourth plane pointer. */
  lemma RoutedConvertsPixel(cv: Conversions, m: seq<Byte>, s: BitmapData, d: BitmapData, w: nat, h: nat, x: nat, y: nat)
    requires s.format.IsNormal() && d.format.IsNormal() && !EarlyReturnAsWritten(s, d)
    requires NormalFormatsAsWritten(s.format, d.format).0 != NormalFormatsAsWritten(s.format, d.format).1
    requires x < w && y < h
    requires var fs := NormalFormatsAsWritten(s.format, d.format);
      var si, di := ImageOf(s, fs.0), ImageOf(d, fs.1);
      ImageIn(|m|, di, w, h) && ImageSeparated(di, w, h) && ImagesApart(si, di, w, h)
    ensures var fs := NormalFormatsAsWritten(s.format, d.format);
      var c := PixelAt(ImageOf(d, fs.1), x, y);
      var e := Decode(cv, fs.1, Encode(cv, fs.1, Load(cv, fs.0, m, PixelAt(ImageOf(s, fs.0), x, y))));
      Stored(cv, fs.1, Routed(cv, m, s, d, w, h), c) == e
      && (!fs.1.YUVA_PA? ==> Load(cv, fs.1, Routed(cv, m, s, d, w, h), c) == e)
  {
    var fs := NormalFormatsAsWritten(s.format, d.format);
    NormalFormatsAsWrittenStayNormal(s.format, d.format);
    assert Routed(cv, m, s, d, w, h)
      == CopyImage(ProcOf(cv, fs.0), ProcOf(cv, fs.1), ImageOf(s, fs.0), ImageOf(d, fs.1), m, w, h);
    CopyPixelsNormalStores(cv, ProcOf(cv, fs.0), ProcOf(cv, fs.1), ImageOf(s, fs.0), ImageOf(d, fs.1), m, w, h, x, y);
  }

  /** From a YUV 4:2:0 view to an RGB view (other than 5-6-5), each target pixel of the
      even-sized crop reads back as the RGB colour of its own luma byte and its block's
      chroma bytes. */
  lemma RoutedUpsamplesPixel(cv: Conversions, m: seq<Byte>, s: BitmapData, d: BitmapData, w: nat, h: nat, x: nat, y: nat)
    requires s.format.IsYUV420() && d.format.IsNormal() && d.format.ColorSpaceOf() == SpaceRGB && !Is565(d.format)
    requires d.format.IsPrecomputedAlpha() ==> AlphaInverse(cv)
    requires |ComponentBuffers(s)| == 3 && x < 2 * (w / 2) && y < 2 * (h / 2)
    requires Upsample420.UpsampleApart(|m|, ComponentBuffers(s), ImageOf(d, d.format), w, h)
    ensures var p := Upsample420.PlanesOf(ComponentBuffers(s));
      Load(cv, d.format, Routed(cv, m, s, d, w, h), PixelAt(ImageOf(d, d.format), x, y))
      == FromYuv(cv, Peek(m, Upsample420.LumaAt(p, x, y)), Peek(m, Upsample420.UAt(p, x, y)), Peek(m, Upsample420.VAt(p, x, y)), 255)
  {
    assert !EarlyReturnAsWritten(s, d) && !d.format.IsYUV420();
    Upsample420.UpsampledRgbConverts(cv, m, ComponentBuffers(s), ImageOf(d, d.format), w, h, x, y);
  }

  /** From a YUV 4:2:0 view to a normal YUV view, each target pixel of the even-sized crop
      holds its own luma byte and its block's chroma bytes unchanged, with an opaque alpha. */
  lemma RoutedUpsamplesYuvBytes(cv: Conversions, m: seq<Byte>, s: BitmapData, d: BitmapData, w: nat, h: nat, x: nat, y: nat)
    requires s.format.IsYUV420() && d.format.IsNormal() && d.format.ColorSpaceOf() == SpaceYUV
    requires d.format.IsPrecomputedAlpha() ==> AlphaInverse(cv)
    requires |ComponentBuffers(s)| == 3 && x < 2 * (w / 2) && y < 2 * (h / 2)
    requires Upsample420.UpsampleApart(|m|, ComponentBuffers(s), ImageOf(d, d.format), w, h)
    ensures var p := Upsample420.PlanesOf(ComponentBuffers(s));
      Load(cv, d.format.CompatibleRGBFormat(), Routed(cv, m, s, d, w, h), PixelAt(Upsample420.TwinImage(ImageOf(d, d.format)), x, y))
      == Rgba(Peek(m, Upsample420.LumaAt(p, x, y)), Peek(m, Upsample420.UAt(p, x, y)), Peek(m, Upsample420.VAt(p, x, y)), 255)
  {
    assert !EarlyReturnAsWritten(s, d) && !d.format.IsYUV420();
    Upsample420.UpsampledYuvKeepsBytes(cv, m, ComponentBuffers(s), ImageOf(d, d.format), w, h, x, y);
  }

  /** From an RGB or gray view to a YUV 4:2:0 view, each luma byte of the even-sized crop
      is the Y value of the colour of its source pixel. */
  lemma RoutedDownsamplesLuma(cv: Conversions, m: seq<Byte>, s: BitmapData, d: BitmapData, w: nat, h: nat, x: nat, y: nat)
    requires s.format.IsNormal() && s.format.ColorSpaceOf() != SpaceYUV && d.format.IsYUV420()
    requires |ComponentBuffers(d)| == 3 && x < 2 * (w / 2) && y < 2 * (h / 2)
    requires Downsample420.DownsampleApart(|m|, ImageOf(s, s.format), ComponentBuffers(d), w, h)
    ensures var col := Load(cv, s.format, m, PixelAt(ImageOf(s, s.format), x, y));
      Peek(Routed(cv, m, s, d, w, h), Upsample420.LumaAt(Upsample420.PlanesOf(ComponentBuffers(d)), x, y))
      == cv.rgbToYuv(col.r, col.g, col.b).0
  {
    assert !EarlyReturnAsWritten(s, d) && !s.format.IsYUV420();
    Downsample420.DownsampledRgbConverts(cv, m, ImageOf(s, s.format), ComponentBuffers(d), w, h, x, y);
  }

  /** From a normal view to a YUV 4:2:0 view, the two chroma bytes of each 2x2 block of the
      even-sized crop are the floored means of the block's four U and four V values. */
  lemma RoutedDownsamplesChroma(cv: Conversions, m: seq<Byte>, s: BitmapData, d: BitmapData, w: nat, h: nat, i: nat, j: nat)
    requires s.format.IsNormal() && d.format.IsYUV420()
    requires |ComponentBuffers(d)| == 3 && i < w / 2 && j < h / 2
    requires Downsample420.DownsampleApart(|m|, ImageOf(s, s.format), ComponentBuffers(d), w, h)
    ensures var r, p := Routed(cv, m, s, d, w, h), Upsample420.PlanesOf(ComponentBuffers(d));
      var img, f := Upsample420.TwinImage(ImageOf(s, s.format)), Upsample420.TwinFormat(s.format);
      var sa := Downsample420.SamplingOf(cv, s.format);
      var p0 := Downsample420.YuvOf(sa, Load(cv, f, m, PixelAt(img, 2 * i, 2 * j)));
      var p1 := Downsample420.YuvOf(sa, Load(cv, f, m, PixelAt(img, 2 * i + 1, 2 * j)));
      var p2 := Downsample420.YuvOf(sa, Load(cv, f, m, PixelAt(img, 2 * i, 2 * j + 1)));
      var p3 := Downsample420.YuvOf(sa, Load(cv, f, m, PixelAt(img, 2 * i + 1, 2 * j + 1)));
      Peek(r, Upsample420.UAt(p, 2 * i, 2 * j)) == Downsample420.Mean4(p0.1, p1.1, p2.1, p3.1)
      && Peek(r, Upsample420.VAt(p, 2 * i, 2 * j)) == Downsample420.Mean4(p0.2, p1.2, p2.2, p3.2)
  {
    assert !EarlyReturnAsWritten(s, d) && !s.format.IsYUV420();
    Downsample420.DownsampledChroma(cv, m, ImageOf(s, s.format), ComponentBuffers(d), w, h, i, j);
  }

  // ----- Channel views against the codecs -----

  /** Channel `k` of a colour, in R, G, B, A order. */
  function Channel(col: Rgba, k: nat): Byte {
    if k == 0 then col.r else if k == 1 then col.g else if k == 2 then col.b else col.a
  }

  /** The channel views agree with the codecs: for a format with one byte per channel, the
      first byte of view `k` is the byte from which the straight-alpha RGB twin of the
      format decodes channel `k` of the first pixel. */
  lemma ComponentBuffersMatchCodecs(cv: Conversions, m: seq<Byte>, bd: BitmapData, k: nat)
    requires bd.format.IsNormal() && !Is565(bd.format) && !bd.format.GRAY8? && k < |ComponentBuffers(bd)|
    ensures var b, g := Defaults(bd), bd.format.NonPrecomputedAlphaFormat().CompatibleRGBFormat();
      g.IsNormal() && Channel(Load(cv, g, m, Quad(b.data, b.data1, b.data2, b.data3)), k) == Peek(m, ComponentBuffers(bd)[k].data)
  {
    var b := Defaults(bd);
    ViewBuffersMatchCodecs(cv, m, b, k);
  }

  /** The same agreement for a view whose defaults are filled. */
  lemma ViewBuffersMatchCodecs(cv: Conversions, m: seq<Byte>, b: BitmapData, k: nat)
    requires b.format.IsNormal() && !Is565(b.format) && !b.format.GRAY8? && k < |ViewBuffers(b)|
    ensures var g := b.format.NonPrecomputedAlphaFormat().CompatibleRGBFormat();
      g.IsNormal() && Channel(Load(cv, g, m, Quad(b.data, b.data1, b.data2, b.data3)), k) == Peek(m, ViewBuffers(b)[k].data)
  {
    var f := b.format;
    if IsPacked4(f) {
      Packed4ViewsMatchCodecs(cv, m, b, k);
    } else if IsPacked3(f) {
      Packed3ViewsMatchCodecs(cv, m, b, k);
    } else {
      PlanarViewsMatchCodecs(cv, m, b, k);
    }
  }

  /** Byte offsets of R, G, B, A within a four-byte packed sample. */
  function Offsets4(f: BitmapFormat): (r: seq<int>)
    ensures |r| == 4 && forall k :: 0 <= k < 4 ==> 0 <= r[k] < 4
  {
    if f.BGRA? || f.BGRA_PA? then [2, 1, 0, 3]
    else if f.ARGB? || f.ARGB_PA? then [1, 2, 3, 0]
    else if f.ABGR? || f.ABGR_PA? then [3, 2, 1, 0]
    else [0, 1, 2, 3]
  }

  /** The straight RGB decoders of the four-byte formats read channel `k` from the byte at
      `Offsets4(f)[k]`. */
  lemma Decode4Channels(cv: Conversions, f: BitmapFormat, bs: seq<Byte>, k: nat)
    requires (f.RGBA? || f.BGRA? || f.ARGB? || f.ABGR?) && |bs| == 4 && k < 4
    ensures Channel(Decode4(cv, f, bs[0], bs[1], bs[2], bs[3]), k) == bs[Offsets4(f)[k]]
  {
    var col := Decode4(cv, f, bs[0], bs[1], bs[2], bs[3]);
    if f.RGBA? {
      assert col == Rgba(bs[0], bs[1], bs[2], bs[3]) && Offsets4(f) == [0, 1, 2, 3];
    } else if f.BGRA? {
      assert col == Rgba(bs[2], bs[1], bs[0], bs[3]) && Offsets4(f) == [2, 1, 0, 3];
    } else if f.ARGB? {
      assert col == Rgba(bs[1], bs[2], bs[3], bs[0]) && Offsets4(f) == [1, 2, 3, 0];
    } else {
      assert col == Rgba(bs[3], bs[2], bs[1], bs[0]) && Offsets4(f) == [3, 2, 1, 0];
    }
  }

  /** The straight RGB twin of a four-byte packed format keeps its channel offsets. */
  lemma Packed4Twin(f: BitmapFormat)
    requires IsPacked4(f)
    ensures var g := f.NonPrecomputedAlphaFormat().CompatibleRGBFormat();
      (g.RGBA? || g.BGRA? || g.ARGB? || g.ABGR?) && Offsets4(g) == Offsets4(f)
  {
  }

  /** A straight four-byte RGB codec reads channel `k` at offset `Offsets4(g)[k]`. */
  lemma Packed4Loads(cv: Conversions, g: BitmapFormat, m: seq<Byte>, c: Quad, k: nat)
    requires (g.RGBA? || g.BGRA? || g.ARGB? || g.ABGR?) && k < 4
    ensures Channel(Load(cv, g, m, c), k) == Peek(m, c.p0 + Offsets4(g)[k])
  {
    var bs := Gather(m, SampleAddrs(g, c));
    Packed4Bytes(cv, g, m, c);
    Decode4Channels(cv, g, bs, k);
  }

  /** A four-byte packed codec decodes the four bytes from the sample's address on. */
  lemma Packed4Bytes(cv: Conversions, g: BitmapFormat, m: seq<Byte>, c: Quad)
    requires IsPacked4(g) && !g.YUVA_PA?
    ensures var bs := Gather(m, SampleAddrs(g, c)); Load(cv, g, m, c) == Decode4(cv, g, bs[0], bs[1], bs[2], bs[3])
  {
    var bs := Gather(m, SampleAddrs(g, c));
    assert ReadAddrs(g, c) == SampleAddrs(g, c);
  }

  /** View `k` of a four-byte packed format starts at offset `Offsets4(f)[k]`. */
  lemma Packed4Views(b: BitmapData, k: nat)
    requires IsPacked4(b.format) && k < 4
    ensures ViewBuffers(b)[k].data == b.data + Offsets4(b.format)[k]
  {
    assert ViewBuffers(b) == PackedBuffers(b, 4, Offsets4(b.format));
  }

  lemma Packed4ViewsMatchCodecs(cv: Conversions, m: seq<Byte>, b: BitmapData, k: nat)
    requires IsPacked4(b.format) && k < 4
    ensures var g := b.format.NonPrecomputedAlphaFormat().CompatibleRGBFormat();
      g.IsNormal() && Channel(Load(cv, g, m, Quad(b.data, b.data1, b.data2, b.data3)), k) == Peek(m, ViewBuffers(b)[k].data)
  {
    var g := b.format.NonPrecomputedAlphaFormat().CompatibleRGBFormat();
    Packed4Twin(b.format);
    Packed4Loads(cv, g, m, Quad(b.data, b.data1, b.data2, b.data3), k);
    Packed4Views(b, k);
  }

  /** Byte offsets of R, G, B within a three-byte packed sample. */
  function Offsets3(f: BitmapFormat): (r: seq<int>)
    ensures |r| == 3 && forall k :: 0 <= k < 3 ==> 0 <= r[k] < 3
  {
    if f.BGR? then [2, 1, 0] else [0, 1, 2]
  }

  /** A straight three-byte RGB codec reads channel `k` at offset `Offsets3(g)[k]`. */
  lemma Packed3Loads(cv: Conversions, g: BitmapFormat, m: seq<Byte>, c: Quad, k: nat)
    requires (g.RGB? || g.BGR?) && k < 3
    ensures Channel(Load(cv, g, m, c), k) == Peek(m, c.p0 + Offsets3(g)[k])
  {
    var bs := Gather(m, SampleAddrs(g, c));
    Packed3Bytes(cv, g, m, c);
    if g.RGB? {
      assert Decode3(cv, g, bs[0], bs[1], bs[2]) == Rgba(bs[0], bs[1], bs[2], 255) && Offsets3(g) == [0, 1, 2];
    } else {
      assert Decode3(cv, g, bs[0], bs[1], bs[2]) == Rgba(bs[2], bs[1], bs[0], 255) && Offsets3(g) == [2, 1, 0];
    }
  }

  /** A three-byte packed codec decodes the three bytes from the sample's address on. */
  lemma Packed3Bytes(cv: Conversions, g: BitmapFormat, m: seq<Byte>, c: Quad)
    requires IsPacked3(g)
    ensures var bs := Gather(m, SampleAddrs(g, c)); Load(cv, g, m, c) == Decode3(cv, g, bs[0], bs[1], bs[2])
  {
    var bs := Gather(m, SampleAddrs(g, c));
    assert ReadAddrs(g, c) == SampleAddrs(g, c);
  }

  /** View `k` of a three-byte packed format starts at offset `Offsets3(f)[k]`. */
  lemma Packed3Views(b: BitmapData, k: nat)
    requires IsPacked3(b.format) && k < 3
    ensures ViewBuffers(b)[k].data == b.data + Offsets3(b.format)[k]
  {
    assert ViewBuffers(b) == PackedBuffers(b, 3, Offsets3(b.format));
  }

  lemma Packed3ViewsMatchCodecs(cv: Conversions, m: seq<Byte>, b: BitmapData, k: nat)
    requires IsPacked3(b.format) && k < 3
    ensures var g := b.format.NonPrecomputedAlphaFormat().CompatibleRGBFormat();
      g.IsNormal() && Channel(Load(cv, g, m, Quad(b.data, b.data1, b.data2, b.data3)), k) == Peek(m, ViewBuffers(b)[k].data)
  {
    var g := b.format.NonPrecomputedAlphaFormat().CompatibleRGBFormat();
    assert (g.RGB? || g.BGR?) && Offsets3(g) == Offsets3(b.format);
    Packed3Loads(cv, g, m, Quad(b.data, b.data1, b.data2, b.data3), k);
    Packed3Views(b, k);
  }

  /** A straight planar RGB codec reads channel `k` from plane `k`. */
  lemma PlanarLoads(cv: Conversions, g: BitmapFormat, m: seq<Byte>, c: Quad, k: nat)
    requires (g.RGBA_PLANAR? && k < 4) || (g.RGB_PLANAR? && k < 3)
    ensures Channel(Load(cv, g, m, c), k) == Peek(m, [c.p0, c.p1, c.p2, c.p3][k])
  {
    var ps := if g.RGBA_PLANAR? then [c.p0, c.p1, c.p2, c.p3] else [c.p0, c.p1, c.p2];
    assert SampleAddrs(g, c) == ps;
    var bs := Gather(m, ps);
    assert bs[k] == Peek(m, ps[k]);
  }

  lemma PlanarViewsMatchCodecs(cv: Conversions, m: seq<Byte>, b: BitmapData, k: nat)
    requires (IsPlanar4(b.format) && k < 4) || (IsPlanar3(b.format) && k < 3)
    ensures var g := b.format.NonPrecomputedAlphaFormat().CompatibleRGBFormat();
      g.IsNormal() && Channel(Load(cv, g, m, Quad(b.data, b.data1, b.data2, b.data3)), k) == Peek(m, ViewBuffers(b)[k].data)
  {
    var f := b.format;
    var g := f.NonPrecomputedAlphaFormat().CompatibleRGBFormat();
    var c := Quad(b.data, b.data1, b.data2, b.data3);
    assert if IsPlanar4(f) then g.RGBA_PLANAR? else g.RGB_PLANAR?;
    PlanarLoads(cv, g, m, c, k);
    assert ViewBuffers(b) == PlaneBuffers(b, if IsPlanar4(f) then 4 else 3);
    assert ViewBuffers(b)[k].data == b.PlaneData(k) == [c.p0, c.p1, c.p2, c.p3][k];
  }
}
