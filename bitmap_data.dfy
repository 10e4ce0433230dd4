/** A bitmap view: width, height, format and up to four planes, each a start address and
    a row pitch in bytes.  This module holds the layout rules: row-size alignment, the
    defaults chosen for unset pitches and plane pointers, the total byte size, and the
    per-channel buffer views. */
module BitmapLayout {
  import opened Memory
  import opened BitmapFormats

  // ----- Row-size alignment -----

  /** `r` is the smallest multiple of `n` bytes that can hold `bits` bits. */
  predicate IsAlignedRowSize(r: int, n: nat, bits: nat) {
    n > 0 && r >= 0 && r % n == 0 && r * 8 >= bits && (r - n) * 8 < bits
  }

  /** Any other multiple of `n` that holds `bits` bits is at least as large. */
  lemma AlignedRowSizeIsSmallest(r: int, n: nat, bits: nat, q: int)
    requires IsAlignedRowSize(r, n, bits)
    requires q % n == 0 && q * 8 >= bits
    ensures r <= q
  {
    assert r - n < q;
    var a, b := r / n, q / n;
    assert r == a * n && q == b * n;
    if a > b {
      MulMonotone(a, b + 1, n);
      assert false;
    }
  }

  lemma MulMonotone(x: int, y: int, n: nat)
    requires x >= y
    ensures x * n >= y * n
  {
  }

  function PitchAlign1(width: nat, bitsPerSample: nat): (r: int)
    ensures IsAlignedRowSize(r, 1, width * bitsPerSample)
  {
    (width * bitsPerSample + 7) / 8
  }

  function PitchAlign2(width: nat, bitsPerSample: nat): (r: int)
    ensures IsAlignedRowSize(r, 2, width * bitsPerSample)
  {
    (width * bitsPerSample + 15) / 16 * 2
  }

  function PitchAlign4(width: nat, bitsPerSample: nat): (r: int)
    ensures IsAlignedRowSize(r, 4, width * bitsPerSample)
  {
    (width * bitsPerSample + 31) / 32 * 4
  }

  function PitchAlign8(width: nat, bitsPerSample: nat): (r: int)
    ensures IsAlignedRowSize(r, 8, width * bitsPerSample)
  {
    (width * bitsPerSample + 63) / 64 * 8
  }

  function PitchAlign16(width: nat, bitsPerSample: nat): (r: int)
    ensures IsAlignedRowSize(r, 16, width * bitsPerSample)
  {
    (width * bitsPerSample + 127) / 128 * 16
  }

  /** The chroma pitch of I420: aligning half the width to 16 bytes gives at most the
      luma pitch and holds half a row; for an even width it is the luma pitch counted in
      16-byte units, halved with rounding up, as ceil(m/2/16) = ceil(ceil(m/16)/2). */
  lemma HalfPitchAlign16(width: nat)
    ensures PitchAlign16(width / 2, 8) <= PitchAlign16(width, 8)
    ensures PitchAlign16(width / 2, 8) * 2 >= width - 1
    ensures width % 2 == 0 ==> PitchAlign16(width / 2, 8) == (PitchAlign16(width, 8) / 16 + 1) / 2 * 16
  {
    var q := PitchAlign16(width, 8);
    AlignedRowSizeIsSmallest(PitchAlign16(width / 2, 8), 16, width / 2 * 8, q);
  }

  // ----- The bitmap view -----

  datatype BitmapData = BitmapData(
    width: nat, height: nat, format: BitmapFormat,
    data: Ptr, pitch: int,
    data1: Ptr, pitch1: int,
    data2: Ptr, pitch2: int,
    data3: Ptr, pitch3: int)
  {
    function PlaneData(i: nat): Ptr
      requires i < 4
    {
      if i == 0 then data else if i == 1 then data1 else if i == 2 then data2 else data3
    }

    function PlanePitch(i: nat): int
      requires i < 4
    {
      if i == 0 then pitch else if i == 1 then pitch1 else if i == 2 then pitch2 else pitch3
    }

    /** This view with plane `i`'s pointer replaced. */
    function WithPlaneData(i: nat, p: Ptr): (r: BitmapData)
      requires i < 4
      ensures r.PlaneData(i) == p
      ensures forall k :: 0 <= k < 4 && k != i ==> r.PlaneData(k) == PlaneData(k)
      ensures forall k :: 0 <= k < 4 ==> r.PlanePitch(k) == PlanePitch(k)
      ensures r.width == width && r.height == height && r.format == format
    {
      if i == 0 then this.(data := p) else if i == 1 then this.(data1 := p)
      else if i == 2 then this.(data2 := p) else this.(data3 := p)
    }

    /** This view with plane `i`'s pitch replaced. */
    function WithPlanePitch(i: nat, p: int): (r: BitmapData)
      requires i < 4
      ensures r.PlanePitch(i) == p
      ensures forall k :: 0 <= k < 4 && k != i ==> r.PlanePitch(k) == PlanePitch(k)
      ensures forall k :: 0 <= k < 4 ==> r.PlaneData(k) == PlaneData(k)
      ensures r.width == width && r.height == height && r.format == format
    {
      if i == 0 then this.(pitch := p) else if i == 1 then this.(pitch1 := p)
      else if i == 2 then this.(pitch2 := p) else this.(pitch3 := p)
    }
  }

  /** The view built by the default constructor. */
  function EmptyBitmapData(): (r: BitmapData)
    ensures r.format.Null? && r.width == 0 && r.height == 0
    ensures forall i :: 0 <= i < 4 ==> r.PlaneData(i) == NullPtr && r.PlanePitch(i) == 0
  {
    BitmapData(0, 0, Null, NullPtr, 0, NullPtr, 0, NullPtr, 0, NullPtr, 0)
  }

  /** A 4:2:0 view whose width or height is odd has no valid layout. */
  predicate IsOddYUV420(bd: BitmapData) {
    bd.format.IsYUV420() && (bd.width % 2 == 1 || bd.height % 2 == 1)
  }

  predicate IsThreePlaneYUV420(f: BitmapFormat) {
    f.YUV_I420? || f.YUV_YV12?
  }

  // ----- Default layout -----

  /** The pitch a generic (not 4:2:0) format gets for plane `i`. */
  function GenericPitch(bd: BitmapData, i: nat): int
    requires i < 4
  {
    if i < bd.format.PlanesCount() && bd.PlanePitch(i) == 0
    then PitchAlign4(bd.width, bd.format.BitsPerSample())
    else bd.PlanePitch(i)
  }

  /** The pointer a generic format gets for plane `i`: an unset plane starts right after
      the previous plane's `pitch * height` bytes. */
  function GenericData(bd: BitmapData, i: nat): Ptr
    requires i < 4
  {
    if 1 <= i < bd.format.PlanesCount() && bd.PlaneData(i) == NullPtr
    then GenericData(bd, i - 1) + GenericPitch(bd, i - 1) * bd.height
    else bd.PlaneData(i)
  }

  /** The view with every unset pitch and plane pointer replaced by its default. */
  function Defaults(bd: BitmapData): (r: BitmapData)
    ensures r.width == bd.width && r.height == bd.height && r.format == bd.format
    ensures r.data == bd.data
    ensures forall i :: 0 <= i < 4 && bd.PlanePitch(i) != 0 ==> r.PlanePitch(i) == bd.PlanePitch(i)
    ensures forall i :: 0 <= i < 4 && bd.PlaneData(i) != NullPtr ==> r.PlaneData(i) == bd.PlaneData(i)
    ensures forall i :: bd.format.PlanesCount() <= i < 4 ==>
              r.PlanePitch(i) == bd.PlanePitch(i) && r.PlaneData(i) == bd.PlaneData(i)
    ensures bd.format.Null? || IsOddYUV420(bd) ==> r == bd
  {
    if bd.format.Null? || IsOddYUV420(bd) then bd
    else if IsThreePlaneYUV420(bd.format) then
      var pitch := if bd.pitch == 0 then PitchAlign16(bd.width, 8) else bd.pitch;
      var data1 := if bd.data1 == NullPtr then bd.data + pitch * bd.height else bd.data1;
      var pitch1 := if bd.pitch1 == 0 then PitchAlign16(bd.width / 2, 8) else bd.pitch1;
      var data2 := if bd.data2 == NullPtr then data1 + pitch1 * (bd.height / 2) else bd.data2;
      var pitch2 := if bd.pitch2 == 0 then pitch1 else bd.pitch2;
      bd.(pitch := pitch, data1 := data1, pitch1 := pitch1, data2 := data2, pitch2 := pitch2)
    else if bd.format.IsYUV420() then
      var pitch := if bd.pitch == 0 then bd.width else bd.pitch;
      var data1 := if bd.data1 == NullPtr then bd.data + pitch * bd.height else bd.data1;
      var pitch1 := if bd.pitch1 == 0 then bd.width else bd.pitch1;
      bd.(pitch := pitch, data1 := data1, pitch1 := pitch1)
    else
      BitmapData(bd.width, bd.height, bd.format,
        GenericData(bd, 0), GenericPitch(bd, 0),
        GenericData(bd, 1), GenericPitch(bd, 1),
        GenericData(bd, 2), GenericPitch(bd, 2),
        GenericData(bd, 3), GenericPitch(bd, 3))
  }

  /** Default pitches of a generic format hold one row of samples, 4-byte aligned. */
  lemma DefaultPitchHoldsRow(bd: BitmapData, i: nat)
    requires bd.format.IsNormal() && i < bd.format.PlanesCount() && bd.PlanePitch(i) == 0
    ensures IsAlignedRowSize(Defaults(bd).PlanePitch(i), 4, bd.width * bd.format.BitsPerSample())
  {
  }

  lemma {:induction false} GenericDataStable(bd: BitmapData, i: nat)
    requires bd.format.IsNormal() && i < 4
    ensures GenericData(Defaults(bd), i) == GenericData(bd, i)
  {
    var r := Defaults(bd);
    if 1 <= i < bd.format.PlanesCount() && r.PlaneData(i) == NullPtr {
      GenericDataStable(bd, i - 1);
      assert GenericPitch(r, i - 1) == GenericPitch(bd, i - 1);
    }
  }

  /** Filling defaults twice is the same as filling them once. */
  lemma DefaultsIdempotent(bd: BitmapData)
    ensures Defaults(Defaults(bd)) == Defaults(bd)
  {
    var r := Defaults(bd);
    if bd.format.IsNormal() {
      forall i | 0 <= i < 4
        ensures GenericData(r, i) == r.PlaneData(i) && GenericPitch(r, i) == r.PlanePitch(i)
      {
        GenericDataStable(bd, i);
      }
    }
  }

  /** The canonical 4:2:0 layouts, field by field: a three-plane format gets 16-byte
      aligned rows, the U/V planes following the luma plane and each other, and the last
      chroma pitch copied from the first; a semi-planar format gets rows exactly `width`
      bytes wide and its interleaved chroma plane right after the luma plane.  Every field
      already set keeps its value. */
  lemma YUV420Defaults(bd: BitmapData)
    requires bd.format.IsYUV420() && !IsOddYUV420(bd)
    ensures var r := Defaults(bd);
      IsThreePlaneYUV420(bd.format) ==>
        && (bd.pitch == 0 ==> r.pitch == PitchAlign16(bd.width, 8))
        && (bd.data1 == NullPtr ==> r.data1 == bd.data + r.pitch * bd.height)
        && (bd.pitch1 == 0 ==> r.pitch1 == PitchAlign16(bd.width / 2, 8))
        && (bd.data2 == NullPtr ==> r.data2 == r.data1 + r.pitch1 * (bd.height / 2))
        && (bd.pitch2 == 0 ==> r.pitch2 == r.pitch1)
    ensures var r := Defaults(bd);
      !IsThreePlaneYUV420(bd.format) ==>
        && (bd.pitch == 0 ==> r.pitch == bd.width)
        && (bd.data1 == NullPtr ==> r.data1 == bd.data + r.pitch * bd.height)
        && (bd.pitch1 == 0 ==> r.pitch1 == bd.width)
        && r.data2 == bd.data2 && r.pitch2 == bd.pitch2
  {
  }

  /** Fills the unset pitches and plane pointers of a copy of `bd`. */
  method FillDefaultValues(bd: BitmapData) returns (r: BitmapData)
    ensures r == Defaults(bd)
  {
    r := bd;
    if r.format.Null? {
      return;
    }
    if r.format.IsYUV420() {
      if r.width % 2 == 1 {
        return;
      }
      if r.height % 2 == 1 {
        return;
      }
      if r.format == YUV_I420 || r.format == YUV_YV12 {
        var w2 := r.width / 2;
        var h2 := r.height / 2;
        if r.pitch == 0 {
          r := r.(pitch := PitchAlign16(r.width, 8));
        }
        if r.data1 == NullPtr {
          r := r.(data1 := r.data + r.pitch * r.height);
        }
        if r.pitch1 == 0 {
          r := r.(pitch1 := PitchAlign16(w2, 8));
        }
        if r.data2 == NullPtr {
          r := r.(data2 := r.data1 + r.pitch1 * h2);
        }
        if r.pitch2 == 0 {
          r := r.(pitch2 := r.pitch1);
        }
      } else {
        if r.pitch == 0 {
          r := r.(pitch := r.width);
        }
        if r.data1 == NullPtr {
          r := r.(data1 := r.data + r.pitch * r.height);
        }
        if r.pitch1 == 0 {
          r := r.(pitch1 := r.width);
        }
      }
    } else {
      var n := r.format.PlanesCount();
      var i := 0;
      while i < n
        invariant 0 <= i <= n
        invariant r.width == bd.width && r.height == bd.height && r.format == bd.format
        invariant forall k :: 0 <= k < 4 ==> r.PlaneData(k) == bd.PlaneData(k)
        invariant forall k :: 0 <= k < i ==> r.PlanePitch(k) == GenericPitch(bd, k)
        invariant forall k :: i <= k < 4 ==> r.PlanePitch(k) == bd.PlanePitch(k)
      {
        if r.PlanePitch(i) == 0 {
          r := r.WithPlanePitch(i, PitchAlign4(r.width, r.format.BitsPerSample()));
        }
        i := i + 1;
      }
      i := 1;
      while i < n
        invariant 1 <= i <= n
        invariant r.width == bd.width && r.height == bd.height && r.format == bd.format
        invariant forall k :: 0 <= k < 4 ==> r.PlanePitch(k) == GenericPitch(bd, k)
        invariant forall k :: 0 <= k < i ==> r.PlaneData(k) == GenericData(bd, k)
        invariant forall k :: i <= k < 4 ==> r.PlaneData(k) == bd.PlaneData(k)
      {
        if r.PlaneData(i) == NullPtr {
          r := r.WithPlaneData(i, r.PlaneData(i - 1) + r.PlanePitch(i - 1) * r.height);
        }
        i := i + 1;
      }
    }
  }

  // ----- Total size -----

  /** Sum of `pitch_i * height` over the first `n` planes. */
  function PlanesSize(b: BitmapData, n: nat): int
    requires n <= 4
  {
    if n == 0 then 0 else PlanesSize(b, n - 1) + b.PlanePitch(n - 1) * b.height
  }

  /** Number of bytes the view spans once its defaults are filled. */
  function TotalSize(bd: BitmapData): (r: int)
    ensures bd.format.Null? || IsOddYUV420(bd) ==> r == 0
  {
    if bd.format.Null? then 0
    else
      var b := Defaults(bd);
      if b.format.IsYUV420() then
        if b.width % 2 == 1 || b.height % 2 == 1 then 0
        else if IsThreePlaneYUV420(b.format) then
          b.pitch * b.height + b.pitch1 * (b.height / 2) + b.pitch2 * (b.height / 2)
        else
          b.pitch * b.height + b.pitch1 * (b.height / 2)
      else
        PlanesSize(b, b.format.PlanesCount())
  }

  /** No pitch and no secondary plane pointer is set. */
  predicate LayoutUnset(bd: BitmapData) {
    bd.pitch == 0 && bd.pitch1 == 0 && bd.pitch2 == 0 && bd.pitch3 == 0
    && bd.data1 == NullPtr && bd.data2 == NullPtr && bd.data3 == NullPtr
  }

  /** First address after the last plane of a (defaults-filled) view. */
  function LayoutEnd(b: BitmapData): Ptr
    requires !b.format.Null?
  {
    if IsThreePlaneYUV420(b.format) then b.data2 + b.pitch2 * (b.height / 2)
    else if b.format.IsYUV420() then b.data1 + b.pitch1 * (b.height / 2)
    else
      var n := b.format.PlanesCount();
      b.PlaneData(n - 1) + b.PlanePitch(n - 1) * b.height
  }

  lemma {:induction false} GenericPlanesContiguous(bd: BitmapData, i: nat)
    requires bd.format.IsNormal() && LayoutUnset(bd)
    requires i < bd.format.PlanesCount()
    ensures GenericData(bd, i) == bd.data + PlanesSize(Defaults(bd), i)
  {
    if i > 0 {
      GenericPlanesContiguous(bd, i - 1);
    }
  }

  /** With nothing but `data` set, the default layout places the planes back to back
      from `data`, and the last one ends exactly `TotalSize` bytes later. */
  lemma DefaultLayoutSpansTotalSize(bd: BitmapData)
    requires !bd.format.Null? && !IsOddYUV420(bd) && LayoutUnset(bd)
    ensures LayoutEnd(Defaults(bd)) == bd.data + TotalSize(bd)
  {
    if bd.format.IsNormal() {
      var n := bd.format.PlanesCount();
      GenericPlanesContiguous(bd, n - 1);
    }
  }

  /** With nothing but `data` set, an even-sized 4:2:0 view spans its luma plane plus two
      quarter planes (three-plane formats, rows rounded up to 16 bytes) or one half-height
      interleaved plane (semi-planar formats, rows exactly `width` bytes). */
  lemma YUV420CanonicalSize(bd: BitmapData)
    requires bd.format.IsYUV420() && !IsOddYUV420(bd) && LayoutUnset(bd)
    ensures IsThreePlaneYUV420(bd.format) ==>
      TotalSize(bd) == PitchAlign16(bd.width, 8) * bd.height + 2 * (PitchAlign16(bd.width / 2, 8) * (bd.height / 2))
    ensures !IsThreePlaneYUV420(bd.format) ==>
      TotalSize(bd) == bd.width * bd.height + bd.width * (bd.height / 2)
  {
  }

  // ----- Per-channel buffers -----

  /** A view of one colour channel: `width x height` samples, `sampleStride` bytes apart
      within a row and rows `pitch` bytes apart, the first at `data`. */
  datatype ColorComponentBuffer = ColorComponentBuffer(
    width: nat, height: nat, sampleStride: int, data: Ptr, pitch: int)

  /** Channel views into a packed format: channel `k` at byte offset `offsets[k]` of each sample. */
  function PackedBuffers(b: BitmapData, stride: int, offsets: seq<int>): (r: seq<ColorComponentBuffer>)
    ensures |r| == |offsets|
  {
    seq(|offsets|, k requires 0 <= k < |offsets| =>
      ColorComponentBuffer(b.width, b.height, stride, b.data + offsets[k], b.pitch))
  }

  function PlaneBuffer(b: BitmapData, i: nat): ColorComponentBuffer
    requires i < 4
  {
    ColorComponentBuffer(b.width, b.height, 1, b.PlaneData(i), b.PlanePitch(i))
  }

  /** Channel views into a planar format: channel `k` is plane `k`. */
  function PlaneBuffers(b: BitmapData, count: nat): (r: seq<ColorComponentBuffer>)
    requires count <= 4
    ensures |r| == count
  {
    seq(count, k requires 0 <= k < count => PlaneBuffer(b, k))
  }

  function ChromaBuffer(b: BitmapData, stride: int, data: Ptr, pitch: int): ColorComponentBuffer {
    ColorComponentBuffer(b.width / 2, b.height / 2, stride, data, pitch)
  }

  /** Y, U, V views of an even-sized 4:2:0 format. */
  function YUV420Buffers(b: BitmapData): (r: seq<ColorComponentBuffer>)
    requires b.format.IsYUV420()
    ensures |r| == 3
  {
    var y := PlaneBuffer(b, 0);
    match b.format
    case YUV_I420 => [y, ChromaBuffer(b, 1, b.data1, b.pitch1), ChromaBuffer(b, 1, b.data2, b.pitch2)]
    case YUV_YV12 => [y, ChromaBuffer(b, 1, b.data2, b.pitch2), ChromaBuffer(b, 1, b.data1, b.pitch1)]
    case YUV_NV21 => [y, ChromaBuffer(b, 2, b.data1 + 1, b.pitch1), ChromaBuffer(b, 2, b.data1, b.pitch1)]
    case YUV_NV12 => [y, ChromaBuffer(b, 2, b.data1, b.pitch1), ChromaBuffer(b, 2, b.data1 + 1, b.pitch1)]
  }

  predicate IsFourChannel(f: BitmapFormat) {
    f.RGBA? || f.RGBA_PA? || f.YUVA? || f.YUVA_PA? || f.BGRA? || f.BGRA_PA?
    || f.ARGB? || f.ARGB_PA? || f.ABGR? || f.ABGR_PA?
    || f.RGBA_PLANAR? || f.RGBA_PLANAR_PA? || f.YUVA_PLANAR? || f.YUVA_PLANAR_PA?
  }

  /** The channel views of a view whose defaults are filled, in R,G,B(,A) or Y,U,V(,A)
      order whatever the byte order of the format; empty for the null format and for
      odd-sized 4:2:0 views. */
  function ViewBuffers(b: BitmapData): (r: seq<ColorComponentBuffer>)
    ensures |r| == 4 <==> IsFourChannel(b.format)
    ensures |r| == 3 <==> (b.format.IsNormal() && !IsFourChannel(b.format))
                          || (b.format.IsYUV420() && !IsOddYUV420(b))
    ensures |r| == 0 <==> b.format.Null? || IsOddYUV420(b)
    ensures forall k :: 0 <= k < |r| ==>
              r[k].width == (if k > 0 && b.format.IsYUV420() then b.width / 2 else b.width)
              && r[k].height == (if k > 0 && b.format.IsYUV420() then b.height / 2 else b.height)
  {
    match b.format
    case Null => []
    case RGBA | RGBA_PA | YUVA | YUVA_PA => PackedBuffers(b, 4, [0, 1, 2, 3])
    case BGRA | BGRA_PA => PackedBuffers(b, 4, [2, 1, 0, 3])
    case ARGB | ARGB_PA => PackedBuffers(b, 4, [1, 2, 3, 0])
    case ABGR | ABGR_PA => PackedBuffers(b, 4, [3, 2, 1, 0])
    case RGB | YUV444 => PackedBuffers(b, 3, [0, 1, 2])
    case BGR => PackedBuffers(b, 3, [2, 1, 0])
    case RGB565BE | RGB565LE | BGR565BE | BGR565LE => PackedBuffers(b, 2, [0, 0, 0])
    case GRAY8 => PackedBuffers(b, 1, [0, 0, 0])
    case RGBA_PLANAR | RGBA_PLANAR_PA | YUVA_PLANAR | YUVA_PLANAR_PA => PlaneBuffers(b, 4)
    case RGB_PLANAR | YUV444_PLANAR => PlaneBuffers(b, 3)
    case YUV_I420 | YUV_YV12 | YUV_NV21 | YUV_NV12 => if IsOddYUV420(b) then [] else YUV420Buffers(b)
  }

  /** The channel views of `bd`: those of its defaults-filled layout. */
  function ComponentBuffers(bd: BitmapData): (r: seq<ColorComponentBuffer>)
    ensures |r| == 4 <==> IsFourChannel(bd.format)
    ensures |r| == 3 <==> (bd.format.IsNormal() && !IsFourChannel(bd.format))
                          || (bd.format.IsYUV420() && !IsOddYUV420(bd))
    ensures |r| == 0 <==> bd.format.Null? || IsOddYUV420(bd)
    ensures forall k :: 0 <= k < |r| ==>
              r[k].width == (if k > 0 && bd.format.IsYUV420() then bd.width / 2 else bd.width)
              && r[k].height == (if k > 0 && bd.format.IsYUV420() then bd.height / 2 else bd.height)
  {
    ViewBuffers(Defaults(bd))
  }

  /** Which plane feeds which channel of an even-sized 4:2:0 view: I420 takes U from the
      second plane and V from the third, YV12 the other way round; NV12 reads U at the
      start of the interleaved plane and V one byte later, two bytes apart, and NV21 swaps
      them.  Luma is always the first plane, one byte per sample. */
  lemma YUV420ComponentBuffers(bd: BitmapData)
    requires bd.format.IsYUV420() && !IsOddYUV420(bd)
    ensures var b, c := Defaults(bd), ComponentBuffers(bd);
      && |c| == 3
      && c[0] == ColorComponentBuffer(bd.width, bd.height, 1, bd.data, b.pitch)
      && (bd.format.YUV_I420? ==> c[1].data == b.data1 && c[1].pitch == b.pitch1 && c[2].data == b.data2 && c[2].pitch == b.pitch2)
      && (bd.format.YUV_YV12? ==> c[1].data == b.data2 && c[1].pitch == b.pitch2 && c[2].data == b.data1 && c[2].pitch == b.pitch1)
      && (bd.format.YUV_NV12? ==> c[1].data == b.data1 && c[2].data == b.data1 + 1)
      && (bd.format.YUV_NV21? ==> c[1].data == b.data1 + 1 && c[2].data == b.data1)
      && (IsThreePlaneYUV420(bd.format) ==> c[1].sampleStride == 1 && c[2].sampleStride == 1)
      && (!IsThreePlaneYUV420(bd.format) ==> c[1].sampleStride == 2 && c[2].sampleStride == 2 && c[1].pitch == c[2].pitch == b.pitch1)
  {
  }

  /** Writes the packed channel views; channel `k` lands in `buffers[k]`. */
  method SetPackedBuffers(buffers: array<ColorComponentBuffer>, b: BitmapData, stride: int, offsets: seq<int>)
    requires |offsets| <= buffers.Length
    modifies buffers
    ensures buffers[..|offsets|] == PackedBuffers(b, stride, offsets)
    ensures buffers[|offsets|..] == old(buffers[|offsets|..])
  {
    var i := 0;
    while i < |offsets|
      invariant 0 <= i <= |offsets|
      invariant forall k :: 0 <= k < i ==> buffers[k] == PackedBuffers(b, stride, offsets)[k]
      invariant forall k :: i <= k < buffers.Length ==> buffers[k] == old(buffers[k])
    {
      buffers[i] := ColorComponentBuffer(b.width, b.height, stride, b.data + offsets[i], b.pitch);
      i := i + 1;
    }
  }

  /** Writes the planar channel views; plane `k` lands in `buffers[k]`. */
  method SetPlaneBuffers(buffers: array<ColorComponentBuffer>, b: BitmapData, count: nat)
    requires count <= 4 && count <= buffers.Length
    modifies buffers
    ensures buffers[..count] == PlaneBuffers(b, count)
    ensures buffers[count..] == old(buffers[count..])
  {
    var i := 0;
    while i < count
      invariant 0 <= i <= count
      invariant forall k :: 0 <= k < i ==> buffers[k] == PlaneBuffer(b, k)
      invariant forall k :: i <= k < buffers.Length ==> buffers[k] == old(buffers[k])
    {
      buffers[i] := PlaneBuffer(b, i);
      i := i + 1;
    }
  }

  /** Writes the Y, U, V views of an even-sized 4:2:0 layout. */
  method SetYUV420Buffers(buffers: array<ColorComponentBuffer>, b: BitmapData)
    requires b.format.IsYUV420() && 3 <= buffers.Length
    modifies buffers
    ensures buffers[..3] == YUV420Buffers(b)
    ensures buffers[3..] == old(buffers[3..])
  {
    var w2, h2 := b.width / 2, b.height / 2;
    buffers[0] := ColorComponentBuffer(b.width, b.height, 1, b.data, b.pitch);
    if b.format == YUV_I420 {
      buffers[1] := ColorComponentBuffer(w2, h2, 1, b.data1, b.pitch1);
      buffers[2] := ColorComponentBuffer(w2, h2, 1, b.data2, b.pitch2);
    } else if b.format == YUV_YV12 {
      buffers[1] := ColorComponentBuffer(w2, h2, 1, b.data2, b.pitch2);
      buffers[2] := ColorComponentBuffer(w2, h2, 1, b.data1, b.pitch1);
    } else if b.format == YUV_NV21 {
      buffers[1] := ColorComponentBuffer(w2, h2, 2, b.data1 + 1, b.pitch1);
      buffers[2] := ColorComponentBuffer(w2, h2, 2, b.data1, b.pitch1);
    } else {
      buffers[1] := ColorComponentBuffer(w2, h2, 2, b.data1, b.pitch1);
      buffers[2] := ColorComponentBuffer(w2, h2, 2, b.data1 + 1, b.pitch1);
    }
  }

  /** Fills the caller's buffer array, when one is given, with the channel views of `bd`
      and returns how many there are.  The 4:2:0 cases write to the array unconditionally. */
  method GetColorComponentBuffers(bd: BitmapData, buffers: array?<ColorComponentBuffer>) returns (n: nat)
    requires bd.format.IsYUV420() && !IsOddYUV420(bd) ==> buffers != null
    requires buffers != null ==> |ComponentBuffers(bd)| <= buffers.Length
    modifies buffers
    ensures n == |ComponentBuffers(bd)|
    ensures buffers != null ==> buffers[..n] == ComponentBuffers(bd)
    ensures buffers != null ==> buffers[n..] == old(buffers[n..])
  {
    var b := FillDefaultValues(bd);
    match b.format {
      case Null =>
        return 0;
      case RGBA | RGBA_PA | YUVA | YUVA_PA =>
        if buffers != null {
          SetPackedBuffers(buffers, b, 4, [0, 1, 2, 3]);
        }
        return 4;
      case BGRA | BGRA_PA =>
        if buffers != null {
          SetPackedBuffers(buffers, b, 4, [2, 1, 0, 3]);
        }
        return 4;
      case ARGB | ARGB_PA =>
        if buffers != null {
          SetPackedBuffers(buffers, b, 4, [1, 2, 3, 0]);
        }
        return 4;
      case ABGR | ABGR_PA =>
        if buffers != null {
          SetPackedBuffers(buffers, b, 4, [3, 2, 1, 0]);
        }
        return 4;
      case RGB | YUV444 =>
        if buffers != null {
          SetPackedBuffers(buffers, b, 3, [0, 1, 2]);
        }
        return 3;
      case BGR =>
        if buffers != null {
          SetPackedBuffers(buffers, b, 3, [2, 1, 0]);
        }
        return 3;
      case RGB565BE | RGB565LE | BGR565BE | BGR565LE =>
        if buffers != null {
          SetPackedBuffers(buffers, b, 2, [0, 0, 0]);
        }
        return 3;
      case GRAY8 =>
        if buffers != null {
          SetPackedBuffers(buffers, b, 1, [0, 0, 0]);
        }
        return 3;
      case RGBA_PLANAR | RGBA_PLANAR_PA | YUVA_PLANAR | YUVA_PLANAR_PA =>
        if buffers != null {
          SetPlaneBuffers(buffers, b, 4);
        }
        return 4;
      case RGB_PLANAR | YUV444_PLANAR =>
        if buffers != null {
          SetPlaneBuffers(buffers, b, 3);
        }
        return 3;
      case YUV_I420 | YUV_YV12 | YUV_NV21 | YUV_NV12 =>
        if b.width % 2 == 1 {
          return 0;
        }
        if b.height % 2 == 1 {
          return 0;
        }
        SetYUV420Buffers(buffers, b);
        return 3;
    }
  }

  // ----- Views over caller memory -----

  /** An RGBA view over an array of 4-byte colours, `stride` colours per row
      (0 meaning tightly packed). */
  function SetFromColors(width: nat, height: nat, colors: Ptr, stride: int): (r: BitmapData)
    ensures r.format == RGBA && r.width == width && r.height == height && r.data == colors
    ensures r.pitch == 4 * (if stride == 0 then width else stride)
    ensures forall i :: 1 <= i < 4 ==> r.PlaneData(i) == NullPtr && r.PlanePitch(i) == 0
  {
    var pitch := stride * 4;
    var pitch := if pitch == 0 then width * 4 else pitch;
    BitmapData(width, height, RGBA, colors, pitch, NullPtr, 0, NullPtr, 0, NullPtr, 0)
  }

  /** The view made by `SetFromColors` is already complete: filling defaults changes
      nothing, R,G,B,A sit at byte offsets 0..3 of each colour, and a tightly packed
      view spans `4 * width * height` bytes. */
  lemma SetFromColorsLayout(width: nat, height: nat, colors: Ptr, stride: int)
    ensures var r := SetFromColors(width, height, colors, stride);
      && Defaults(r) == r
      && (forall k :: 0 <= k < 4 ==>
            ComponentBuffers(r)[k] == ColorComponentBuffer(width, height, 4, colors + k, r.pitch))
      && TotalSize(r) == r.pitch * height
      && (stride == 0 ==> TotalSize(r) == 4 * width * height)
  {
    var r := SetFromColors(width, height, colors, stride);
    assert GenericData(r, 0) == colors;
    assert PlanesSize(r, 1) == r.pitch * height;
  }
}
