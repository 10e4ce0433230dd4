/** The pixel formats a bitmap view can carry, and the per-format attributes the
    conversion engine consults.  The attribute tables live in a header that is not part
    of this model; the values below are stated explicitly, one per format, following the
    byte layout each sample codec reads and writes. */
module BitmapFormats {

  datatype ColorSpace = SpaceRGB | SpaceYUV | SpaceGray

  /** One constructor per format value that the conversion switches name. */
  datatype BitmapFormat =
    | Null
    | RGBA | RGBA_PA | BGRA | BGRA_PA | ARGB | ARGB_PA | ABGR | ABGR_PA
    | RGB | BGR
    | RGB565BE | RGB565LE | BGR565BE | BGR565LE
    | GRAY8
    | RGBA_PLANAR | RGBA_PLANAR_PA | RGB_PLANAR
    | YUVA | YUVA_PA | YUVA_PLANAR | YUVA_PLANAR_PA
    | YUV444 | YUV444_PLANAR
    | YUV_I420 | YUV_YV12 | YUV_NV21 | YUV_NV12
  {
    /** Chroma subsampled 2x2: three-plane I420/YV12 and two-plane NV12/NV21. */
    predicate IsYUV420() {
      YUV_I420? || YUV_YV12? || YUV_NV21? || YUV_NV12?
    }

    /** A "normal" format: one sample per pixel, read and written by a sample codec. */
    predicate IsNormal() {
      !Null? && !IsYUV420()
    }

    function PlanesCount(): (r: nat)
      ensures r <= 4
      ensures r == 0 <==> Null?
      ensures IsNormal() ==> r == 1 || r == 3 || r == 4
    {
      match this
      case Null => 0
      case RGBA_PLANAR | RGBA_PLANAR_PA | YUVA_PLANAR | YUVA_PLANAR_PA => 4
      case RGB_PLANAR | YUV444_PLANAR | YUV_I420 | YUV_YV12 => 3
      case YUV_NV21 | YUV_NV12 => 2
      case _ => 1
    }

    /** Bits one pixel occupies, summed over planes for the planar formats' per-plane view:
        a planar sample is one byte in each plane. */
    function BitsPerSample(): (r: nat)
      ensures r % 4 == 0 && r <= 32
      ensures r == 0 <==> Null?
      ensures IsNormal() ==> r % 8 == 0
    {
      match this
      case Null => 0
      case RGBA | RGBA_PA | BGRA | BGRA_PA | ARGB | ARGB_PA | ABGR | ABGR_PA | YUVA | YUVA_PA => 32
      case RGB | BGR | YUV444 => 24
      case RGB565BE | RGB565LE | BGR565BE | BGR565LE => 16
      case GRAY8 | RGBA_PLANAR | RGBA_PLANAR_PA | RGB_PLANAR
        | YUVA_PLANAR | YUVA_PLANAR_PA | YUV444_PLANAR => 8
      case YUV_I420 | YUV_YV12 | YUV_NV21 | YUV_NV12 => 12
    }

    function ColorSpaceOf(): (r: ColorSpace)
      ensures IsYUV420() ==> r == SpaceYUV
    {
      match this
      case YUVA | YUVA_PA | YUVA_PLANAR | YUVA_PLANAR_PA | YUV444 | YUV444_PLANAR
        | YUV_I420 | YUV_YV12 | YUV_NV21 | YUV_NV12 => SpaceYUV
      case GRAY8 => SpaceGray
      case _ => SpaceRGB
    }

    predicate IsPrecomputedAlpha() {
      RGBA_PA? || BGRA_PA? || ARGB_PA? || ABGR_PA? || RGBA_PLANAR_PA? || YUVA_PA? || YUVA_PLANAR_PA?
    }

    /** The same layout with straight (non-premultiplied) alpha. */
    function NonPrecomputedAlphaFormat(): (r: BitmapFormat)
      ensures !r.IsPrecomputedAlpha()
      ensures r.IsNormal() == IsNormal()
      ensures !IsPrecomputedAlpha() ==> r == this
      ensures IsPrecomputedAlpha() ==> r != this
    {
      match this
      case RGBA_PA => RGBA
      case BGRA_PA => BGRA
      case ARGB_PA => ARGB
      case ABGR_PA => ABGR
      case RGBA_PLANAR_PA => RGBA_PLANAR
      case YUVA_PA => YUVA
      case YUVA_PLANAR_PA => YUVA_PLANAR
      case _ => this
    }

    /** The RGB format with the same byte layout as a YUV normal format: its Y, U, V
        bytes sit where that format keeps R, G, B. */
    function CompatibleRGBFormat(): (r: BitmapFormat)
      ensures IsNormal() ==> r.IsNormal() && r.ColorSpaceOf() != SpaceYUV
      ensures r.IsPrecomputedAlpha() == IsPrecomputedAlpha()
      ensures ColorSpaceOf() != SpaceYUV || IsYUV420() ==> r == this
    {
      match this
      case YUVA => RGBA
      case YUVA_PA => RGBA_PA
      case YUVA_PLANAR => RGBA_PLANAR
      case YUVA_PLANAR_PA => RGBA_PLANAR_PA
      case YUV444 => RGB
      case YUV444_PLANAR => RGB_PLANAR
      case _ => this
    }
  }

  /** Straightening the alpha keeps the planes, the sample size and the colour space. */
  lemma NonPrecomputedAlphaFormatKeepsLayout(f: BitmapFormat)
    ensures var g := f.NonPrecomputedAlphaFormat();
      g.PlanesCount() == f.PlanesCount() && g.BitsPerSample() == f.BitsPerSample()
      && g.ColorSpaceOf() == f.ColorSpaceOf()
  {
  }

  /** The RGB twin of an RGB twin is that twin. */
  lemma CompatibleRGBFormatIdempotent(f: BitmapFormat)
    ensures f.CompatibleRGBFormat().CompatibleRGBFormat() == f.CompatibleRGBFormat()
  {
  }

  /** The RGB twin keeps the planes and the sample size. */
  lemma CompatibleRGBFormatKeepsLayout(f: BitmapFormat)
    ensures var g := f.CompatibleRGBFormat();
      g.PlanesCount() == f.PlanesCount() && g.BitsPerSample() == f.BitsPerSample()
  {
  }

  /** The YUV normal formats are exactly those with an RGB twin of the same layout. */
  lemma CompatibleRGBFormatMovesExactlyYUV(f: BitmapFormat)
    requires f.IsNormal()
    ensures f.CompatibleRGBFormat() != f <==> f.ColorSpaceOf() == SpaceYUV
  {
  }
}
