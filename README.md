# Bitmap pixel-buffer layout and conversion engine

A model of the raw pixel engine behind `BitmapData` in SLib's graphics library
(`src/slib/graphics/bitmap_data.cpp`). A `BitmapData` is a view of a bitmap held in
memory the engine does not own. It has a width, a height, a pixel format, and up to
four planes, each a start address and a row pitch in bytes. The engine has five parts:

- **Row alignment.** The `calculatePitchAlign1/2/4/8/16` helpers round the byte size of
  a row up to a multiple of 1, 2, 4, 8 or 16 bytes.
- **Default layout.** `fillDefaultValues` fills every unset pitch and every null plane
  pointer with its canonical default. `getTotalSize` gives the resulting byte span.
- **Channel views.** `getColorComponentBuffers` returns one view per colour channel:
  start address, sample stride, pitch, width and height. Views come in R,G,B(,A) or
  Y,U,V(,A) order, whatever the byte order of the format.
- **Sample codecs.** Each `*_PROC` class reads or writes one (r,g,b,a) sample through
  four byte cursors and advances them past the sample.
- **Copying.** `copyPixelsFrom` and the `_BitmapData_copyPixels_*` loops check and crop
  the two views, then pick one of five routes:
  - a plane copy between two 4:2:0 views;
  - 4:2:0 upsampling, where chroma is replicated;
  - 4:2:0 downsampling, where chroma is averaged and rounded down;
  - a byte copy between views of the same format;
  - a decode-then-encode conversion.

`setFromColors` builds an RGBA view over an array of colours.

## Memory and values

Memory is one flat sequence of bytes (`Memory.Byte`, an unsigned 8-bit value),
addressed by integer pointers. Address 0 is the null pointer. A view is a value
(`BitmapLayout.BitmapData`), because the C++ code copies it by value before changing it.

Each copy routine is a `method` over a byte `array`. It is proved to leave exactly the
memory given by a specification function (`CopyImage`, `SpreadImage`, `PoolImage`,
`RectCopied`, `PlanesCopied`, `Copied`). The loop functions (`CopyImage`, `SpreadImage`,
`PoolImage`, `RectCopied`, `PlanesCopied`) are defined store by store, in the order the
C loops run, so a later read sees the earlier stores. There is one exception: in
`PoolImage` each source sample is read whole before its luma byte is stored, while the
C code's raw YUV path stores the luma byte while it reads (see "## Left out"). `Copied` composes them along the
routine's branches as the code writes them. That includes the two routing slips listed
under "## Findings": the early-return test at line 1804 and the target format at line
1877. The codecs are modelled as written as well, including the 565 packing and the
premultiplied packed YUVA reader. Each of the four slips also has a corrected member
beside it (`...Intended`, `Stored`). A lemma states where the corrected member and the
as-written one agree. Lemmas then state properties of these functions under stated
separation conditions:
- what ends up in each target sample;
- that nothing outside the target rectangle changes.

The colour-space conversions `YUV::convertYUVToRGB` / `convertRGBToYUV` and the alpha
conversions `Color::convertPAtoNPA` / `convertNPAtoPA` are not part of this model. They
are the function-valued fields of a `SampleCodecs.Conversions` parameter. No property is
assumed of them except where a lemma states it as a hypothesis:
- `CodecLaws.YuvInverse`: the YUV conversions undo each other;
- `CodecLaws.AlphaInverse`: the alpha conversions undo each other.

The `BitmapFormat` attribute tables (planes count, bits per sample, colour space,
premultiplied alpha and the two related-format maps) are in a header that is not part
of this model. `BitmapFormats` states one explicit value per format. Each value follows
the byte layout that the matching codec reads and writes.

## Model

| member | source | states |
|---|---|---|
| BitmapLayout.PitchAlign1 | src/slib/graphics/bitmap_data.cpp:74-77 | the result is the least whole number of bytes that holds `width * bitsPerSample` bits |
| BitmapLayout.PitchAlign2 | src/slib/graphics/bitmap_data.cpp:79-82 | the result is the least multiple of 2 bytes that holds a row |
| BitmapLayout.PitchAlign4 | src/slib/graphics/bitmap_data.cpp:84-87 | the result is the least multiple of 4 bytes that holds a row |
| BitmapLayout.PitchAlign8 | src/slib/graphics/bitmap_data.cpp:89-92 | the result is the least multiple of 8 bytes that holds a row |
| BitmapLayout.PitchAlign16 | src/slib/graphics/bitmap_data.cpp:94-97 | the result is the least multiple of 16 bytes that holds a row |
| BitmapLayout.AlignedRowSizeIsSmallest | src/slib/graphics/bitmap_data.cpp:74-97 | no smaller multiple of the alignment holds the row, so every aligned size is a minimum |
| BitmapLayout.HalfPitchAlign16 | src/slib/graphics/bitmap_data.cpp:121-125 | the default chroma pitch of a three-plane 4:2:0 view is at most the luma pitch and holds half a row, and for an even width equals the luma pitch in 16-byte units halved with rounding up, the identity ceil(m/2/16) = ceil(ceil(m/16)/2) noted at 121-123 |
| BitmapLayout.Defaults | src/slib/graphics/bitmap_data.cpp:99-159 | every pitch already non-zero and every plane pointer already non-null is kept, planes past the format's count are untouched, width, height, format and `data` never change, and the null format and odd-sized 4:2:0 views are returned unchanged |
| BitmapLayout.FillDefaultValues | src/slib/graphics/bitmap_data.cpp:99-159 | the method, with its two generic loops over the planes, yields exactly the defaults-filled view |
| BitmapLayout.DefaultsIdempotent | src/slib/graphics/bitmap_data.cpp:99-159 | filling the defaults a second time changes nothing |
| BitmapLayout.DefaultPitchHoldsRow | src/slib/graphics/bitmap_data.cpp:144-150 | an unset pitch of a normal format becomes the least multiple of 4 bytes that holds a row |
| BitmapLayout.GenericDataStable | src/slib/graphics/bitmap_data.cpp:151-157 | the plane pointers the generic loop computes are already fixed points of that loop |
| BitmapLayout.YUV420Defaults | src/slib/graphics/bitmap_data.cpp:111-142 | three-plane 4:2:0 gets 16-byte aligned pitches, U/V planes after the luma plane and after each other, and pitch2 copied from pitch1; semi-planar 4:2:0 gets `width`-byte rows and its chroma plane after the luma plane; set fields are kept |
| BitmapLayout.TotalSize | src/slib/graphics/bitmap_data.cpp:161-188 | the null format and odd-sized 4:2:0 views have size 0 |
| BitmapLayout.GenericPlanesContiguous | src/slib/graphics/bitmap_data.cpp:151-157 | with only `data` set, plane `i` of a normal format starts right after the `pitch * height` bytes of all planes before it |
| BitmapLayout.DefaultLayoutSpansTotalSize | src/slib/graphics/bitmap_data.cpp:161-188 | with only `data` set, the last plane of the default layout ends exactly `getTotalSize` bytes after `data`, for every format |
| BitmapLayout.YUV420CanonicalSize | src/slib/graphics/bitmap_data.cpp:161-181 | with only `data` set, an I420/YV12 view spans an aligned luma plane plus two aligned quarter planes, and an NV12/NV21 view spans `width * height + width * height / 2` bytes |
| BitmapLayout.ViewBuffers | src/slib/graphics/bitmap_data.cpp:190-471 | four views for exactly the four-channel formats, three for the three-channel and even 4:2:0 ones, none for the null format or odd 4:2:0, with chroma views of 4:2:0 at half width and height |
| BitmapLayout.ComponentBuffers | src/slib/graphics/bitmap_data.cpp:190-471 | the same counts and sizes for the views of a defaults-filled copy of any view |
| BitmapLayout.YUV420ComponentBuffers | src/slib/graphics/bitmap_data.cpp:371-466 | luma is the first plane; I420 takes U from plane 1 and V from plane 2, YV12 the reverse; NV12 reads U at the chroma plane start and V one byte on, NV21 the reverse, both with sample stride 2 |
| BitmapLayout.SetPackedBuffers | src/slib/graphics/bitmap_data.cpp:195-320 | the out-array holds one packed view per channel offset and the rest of the array is unchanged |
| BitmapLayout.SetPlaneBuffers | src/slib/graphics/bitmap_data.cpp:321-363 | the out-array holds one view per plane and the rest of the array is unchanged |
| BitmapLayout.SetYUV420Buffers | src/slib/graphics/bitmap_data.cpp:371-466 | the out-array holds the Y, U, V views and the rest of the array is unchanged |
| BitmapLayout.GetColorComponentBuffers | src/slib/graphics/bitmap_data.cpp:190-471 | the count returned is the number of channel views, the array holds exactly those views and nothing else is written; a null array is accepted except for even 4:2:0 views, which the code writes without a check |
| BitmapLayout.SetFromColors | src/slib/graphics/bitmap_data.cpp:1904-1924 | an RGBA view over the colours, pitch `4 * stride` or `4 * width` when the stride is 0, with every other plane cleared |
| BitmapLayout.SetFromColorsLayout | src/slib/graphics/bitmap_data.cpp:1904-1924 | that view needs no defaults, its channel `k` lies at byte `k` of each colour, and it spans `pitch * height` bytes (`4 * width * height` for a zero stride) |
| BitmapFormats.NonPrecomputedAlphaFormatKeepsLayout | src/slib/graphics/bitmap_data.cpp:1871-1874 | setting premultiplied alpha aside keeps planes count, bits per sample and colour space |
| BitmapFormats.CompatibleRGBFormatKeepsLayout | src/slib/graphics/bitmap_data.cpp:1875-1878 | the RGB twin of a format keeps its planes count and bits per sample |
| BitmapFormats.CompatibleRGBFormatMovesExactlyYUV | src/slib/graphics/bitmap_data.cpp:1875-1878 | a normal format has a different RGB twin exactly when it is in YUV colour space |
| BitmapFormats.CompatibleRGBFormatIdempotent | src/slib/graphics/bitmap_data.cpp:1875-1878 | the RGB twin of an RGB twin is that twin |
| SampleCodecs.NormalFamilies | src/slib/graphics/bitmap_data.cpp:1176-1254 | every normal format has one of the six codec families: packed 4-byte, packed 3-byte, RGB565, grey, 4-plane or 3-plane |
| SampleCodecs.Pack565AsWritten | src/slib/graphics/bitmap_data.cpp:776-786 | the word the encoders build as written always has bit 5 clear |
| SampleCodecs.Word565 | src/slib/graphics/bitmap_data.cpp:776-867 | the word an RGB565 or BGR565 encoder builds as written is a 16-bit word whose bit 5 is always clear |
| SampleCodecs.GrayIsTruncatedMean | src/slib/graphics/bitmap_data.cpp:883-892 | the grey byte written is the mean of r, g and b rounded down |
| SampleCodecs.Rgb565Encodes | src/slib/graphics/bitmap_data.cpp:776-867 | an RGB565 sample is the high then the low byte of the as-written 16-bit word |
| SampleCodecs.QuadWrites | src/slib/graphics/bitmap_data.cpp:487-714 | a 4-channel sample stores its four encoded bytes at `p0..p0+3` when packed, or at `p0, p1, p2, p3` when planar |
| SampleCodecs.TripleWrites | src/slib/graphics/bitmap_data.cpp:728-759 | a 3-channel sample stores its three encoded bytes at `p0..p0+2` when packed, or at `p0, p1, p2` when planar |
| SampleCodecs.Rgb565Writes | src/slib/graphics/bitmap_data.cpp:776-867 | big-endian variants store the high byte at the cursor and little-endian ones store it one byte on, so LE is the byte swap of BE |
| SampleCodecs.Rgb565Loads | src/slib/graphics/bitmap_data.cpp:764-774 | big-endian readers take the high byte at the cursor, little-endian ones one byte on |
| SampleCodecs.Rgb565Word | src/slib/graphics/bitmap_data.cpp:764-774 | decoding yields `(s & 0xF800) >> 8`, `(s & 0x07E0) >> 3`, `(s & 0x1F) << 3` and alpha 255, with red and blue swapped for BGR565 |
| SampleCodecs.SampleAddrsCover | src/slib/graphics/bitmap_data.cpp:474-1137 | the addresses a codec touches are exactly the ones its cursors cover |
| SampleCodecs.SampleWritesCover | src/slib/graphics/bitmap_data.cpp:474-1137 | a codec stores to exactly the addresses its cursors cover, and to memory only when the sample lies in it |
| SampleCodecs.ReadAddrsCover | src/slib/graphics/bitmap_data.cpp:474-1137 | the addresses a reader reads are exactly its read footprint (for YUVA_PA the three bytes from `p0` and the byte at `p3`) and lie in memory when that footprint does |
| SampleCodecs.ReadAddrsOwn | src/slib/graphics/bitmap_data.cpp:1034-1047 | a reader reads exactly the sample's own bytes, except the YUVA_PA reader, which does so exactly when `p3` is the sample's fourth byte |
| SampleCodecs.LoadIsStored | src/slib/graphics/bitmap_data.cpp:474-1137 | what a reader reads is the decoding of the sample's own bytes (`Stored`, the corrected reading) except for a YUVA_PA sample whose `p3` is elsewhere |
| SampleProcs.ReadSample | src/slib/graphics/bitmap_data.cpp:474-1137 | reading a sample on the array returns the decoding of the bytes the format's reader reads (for YUVA_PA, alpha at `p3`) and the advanced cursors, for every normal format |
| SampleProcs.ReadPacked4 | src/slib/graphics/bitmap_data.cpp:474-1047 | the packed RGBA-family readers (474-714) and the YUVA ones (987-1047; the lines between are the other codecs) return the decoding of the bytes they read (for YUVA_PA the three bytes from `p0` and the byte at `p3`) and advance `p0` by 4 |
| SampleProcs.ReadPacked3 | src/slib/graphics/bitmap_data.cpp:715-759 | the RGB, BGR and YUV444 readers return the decoded colour and advance `p0` by 3 |
| SampleProcs.Read565BE | src/slib/graphics/bitmap_data.cpp:764-774 | the big-endian 565 readers return the decoded colour and advance `p0` by 2 |
| SampleProcs.Read565LE | src/slib/graphics/bitmap_data.cpp:791-801 | the little-endian 565 readers return the decoded colour and advance `p0` by 2 |
| SampleProcs.ReadPlanar4 | src/slib/graphics/bitmap_data.cpp:894-960 | the 4-plane readers return the decoded colour and advance every cursor by 1 |
| SampleProcs.ReadPlanar3 | src/slib/graphics/bitmap_data.cpp:962-985 | the 3-plane readers return the decoded colour and advance `p0..p2` by 1 |
| SampleProcs.WriteSample | src/slib/graphics/bitmap_data.cpp:474-1137 | writing a sample on the array performs exactly the codec's stores and returns the advanced cursors |
| SampleProcs.WritePacked4 | src/slib/graphics/bitmap_data.cpp:487-714 | the packed 4-byte writers perform exactly the codec's stores |
| SampleProcs.WritePacked3 | src/slib/graphics/bitmap_data.cpp:728-759 | the packed 3-byte writers perform exactly the codec's stores |
| SampleProcs.Write565BE | src/slib/graphics/bitmap_data.cpp:776-786 | the big-endian 565 writers perform exactly the codec's stores |
| SampleProcs.Write565LE | src/slib/graphics/bitmap_data.cpp:803-813 | the little-endian 565 writers perform exactly the codec's stores |
| SampleProcs.WritePlanar4 | src/slib/graphics/bitmap_data.cpp:909-960 | the 4-plane writers perform exactly the codec's stores |
| SampleProcs.WritePlanar3 | src/slib/graphics/bitmap_data.cpp:976-985 | the 3-plane writers perform exactly the codec's stores |
| CodecLaws.PackedSampleFootprint | src/slib/graphics/bitmap_data.cpp:474-893 | a packed sample occupies `bitsPerSample / 8` consecutive bytes from `p0`, which moves past them |
| CodecLaws.PlanarSampleFootprint | src/slib/graphics/bitmap_data.cpp:894-1137 | a planar sample occupies one byte per used plane, and every used cursor moves by 1 |
| CodecLaws.LoadAfterStore | src/slib/graphics/bitmap_data.cpp:474-1137 | reading a sample back from where it was just stored gives the decoding of its encoding; for the YUVA_PA reader only when `p3` is the sample's fourth byte |
| CodecLaws.StoredAfterStore | src/slib/graphics/bitmap_data.cpp:474-1137 | (corrected reading) the sample's own bytes just written decode to the decoding of the encoding, in every format, YUVA_PA included |
| CodecLaws.LoadAgrees | src/slib/graphics/bitmap_data.cpp:474-1137 | a read depends only on the bytes the reader reads, for YUVA_PA the three bytes from `p0` and the byte at `p3` |
| CodecLaws.StoredAgrees | src/slib/graphics/bitmap_data.cpp:474-1137 | (corrected reading) the decoding of a sample's own bytes depends only on those bytes |
| CodecLaws.ProcOf | src/slib/graphics/bitmap_data.cpp:1176-1334 | the codec chosen for a format behaves as that format's codec, stores only inside its sample and reads only its read bytes, and keeps all three laws the loops rely on unless it is YUVA_PA's |
| CodecLaws.ImplementsLawful | src/slib/graphics/bitmap_data.cpp:474-1137 | every codec but YUVA_PA's stores only inside its sample, reads only the sample's bytes and reads back the decoding of what it wrote |
| CodecLaws.ImplementsWritesLocally | src/slib/graphics/bitmap_data.cpp:474-1137 | every codec, YUVA_PA's included, stores only to the bytes of its sample |
| CodecLaws.ImplementsReadsLocally | src/slib/graphics/bitmap_data.cpp:474-1137 | every reader, YUVA_PA's included, depends only on the bytes it reads |
| CodecLaws.ImplementsStoredLawful | src/slib/graphics/bitmap_data.cpp:474-1137 | (corrected reading) with that reader every codec, YUVA_PA's included, keeps all three laws |
| CodecLaws.StraightCodecRoundTrip | src/slib/graphics/bitmap_data.cpp:474-570 | the plain 8-bit RGB codecs return the written colour, with alpha 255 for the 3-channel ones |
| CodecLaws.QuadCodec | src/slib/graphics/bitmap_data.cpp:474-1097 | a 4-channel codec's round trip is its 4-byte decoder on its 4-byte encoding |
| CodecLaws.TripleCodec | src/slib/graphics/bitmap_data.cpp:715-1137 | a 3-channel codec's round trip is its 3-byte decoder on its 3-byte encoding |
| CodecLaws.StraightQuadRoundTrip | src/slib/graphics/bitmap_data.cpp:474-570 | plain 4-channel RGB codecs return the written colour exactly |
| CodecLaws.StraightTripleRoundTrip | src/slib/graphics/bitmap_data.cpp:715-759 | plain 3-channel RGB codecs return the written channels with alpha 255 |
| CodecLaws.StraightRoundTrip | src/slib/graphics/bitmap_data.cpp:474-759 | in memory, a plain RGB sample written and read back at the same cursors gives the colour back |
| CodecLaws.PremultipliedCodecs | src/slib/graphics/bitmap_data.cpp:571-714 | each premultiplied codec is its straight twin, premultiplying before the store and un-premultiplying after the read, at the same addresses and cursor steps |
| CodecLaws.YuvCodecs | src/slib/graphics/bitmap_data.cpp:987-1137 | each YUV codec is its RGB twin, converting to YUV before the store and back after the read, at the same addresses and cursor steps |
| CodecLaws.ToYuv | src/slib/graphics/bitmap_data.cpp:987-1137 | the Y, U, V values a YUV codec stores in its twin's R, G, B places convert back to the colour's R, G, B when the conversions undo each other, and alpha is kept |
| CodecLaws.CodecRoundTrip | src/slib/graphics/bitmap_data.cpp:474-1137 | when the conversions undo each other, every 8-bit codec returns the written colour, with alpha 255 when it has no alpha channel |
| CodecLaws.StraightAlphaRoundTrip | src/slib/graphics/bitmap_data.cpp:474-1137 | non-premultiplied 8-bit codecs round-trip as above when only the YUV conversions undo each other |
| CodecLaws.RgbCodecRoundTrip | src/slib/graphics/bitmap_data.cpp:474-985 | RGB-space 8-bit codecs round-trip without any hypothesis on YUV |
| CodecLaws.GrayCodec | src/slib/graphics/bitmap_data.cpp:869-893 | the grey codec returns the truncated mean of r, g and b on all three channels, with alpha 255, so a grey colour keeps its level |
| CodecLaws.Rgb565CodecTruncates | src/slib/graphics/bitmap_data.cpp:761-867 | as written, a 565 round trip keeps the top five bits of r and b and bits 2-6 of g shifted up by one, ORs the top bit of g into bit 3 of the high-field channel (r for RGB565, b for BGR565), and sets alpha to 255 |
| CodecLaws.Word565Unpacks | src/slib/graphics/bitmap_data.cpp:761-867 | unpacking the encoder's word as written gives those channels, in RGB or BGR order |
| CodecLaws.Rgb565CodecUnpacks | src/slib/graphics/bitmap_data.cpp:761-867 | the round trip is the unpacking of the encoded word |
| CodecLaws.Rgb565WordBytes | src/slib/graphics/bitmap_data.cpp:764-786 | decoding the two bytes of any 16-bit word unpacks that word |
| CodecLaws.Pack565Unpacks | src/slib/graphics/bitmap_data.cpp:764-786 | (corrected packing) unpacking inverts the intended packing on the kept bits |
| CodecLaws.Unpack565Packs | src/slib/graphics/bitmap_data.cpp:764-786 | packing inverts unpacking on every 16-bit word |
| CodecLaws.Word565Agrees | src/slib/graphics/bitmap_data.cpp:776-867 | the as-written word equals the intended word exactly when green is below 4, so only the darkest greens survive as intended |
| CodecLaws.Word565IntendedUnpacks | src/slib/graphics/bitmap_data.cpp:761-867 | (corrected packing) unpacking the intended word gives the top 5, 6 and 5 bits of the channels, in RGB or BGR order |
| CodecLaws.Rgb565IntendedTruncates | src/slib/graphics/bitmap_data.cpp:761-867 | (corrected packing) a sample stored with the intended word decodes to the top 5, 6 and 5 bits of r, g, b with alpha 255 |
| CodecLaws.Rgb565WordsAreFixed | src/slib/graphics/bitmap_data.cpp:761-867 | (corrected packing) every 565 sample re-encodes to the same two bytes after decoding; as written it does not, see `Pack565AsWrittenCounterexample` |
| CodecLaws.Word565OfDecoded | src/slib/graphics/bitmap_data.cpp:761-867 | (corrected packing) the intended word re-encoded from a decoded sample is the word the two bytes held |
| CodecLaws.Pack565AsWrittenUnpacks | src/slib/graphics/bitmap_data.cpp:776-786 | unpacking the as-written word gives green's top bit ORed into red's low bit and green shifted one bit up |
| CodecLaws.Pack565AsWrittenCounterexample | src/slib/graphics/bitmap_data.cpp:779-781 | green 4 is packed as 0x0040 instead of 0x0020 and comes back as 8, the RGB565BE bytes 00 20 are written back as 00 40, and green 128 shows up as red 8; the intended packing returns green 4 |
| CodecLaws.YuvaPaAlphaAsWrittenCounterexample | src/slib/graphics/bitmap_data.cpp:1034-1047 | after a YUVA_PA store of alpha 4, the as-written reader reports the byte at the unused fourth cursor, 9, while the sample's own fourth byte holds 4 |
| NormalCopy.CopyImage | src/slib/graphics/bitmap_data.cpp:1140-1173 | the memory after a format-to-format conversion of a `w` by `h` rectangle has the same length as before |
| NormalCopy.CopyNormal | src/slib/graphics/bitmap_data.cpp:1140-1173 | the row and column loops with their pitch steps produce exactly the conversion's memory, reading every source sample where the source reader reads it |
| NormalCopy.CopyRowLoop | src/slib/graphics/bitmap_data.cpp:1160-1163 | the inner loop produces exactly the row's conversion |
| NormalCopy.CopyStep | src/slib/graphics/bitmap_data.cpp:1161-1162 | one read and one write produce the sample's copy and advance both cursors |
| NormalCopy.CopyPixelsNormal | src/slib/graphics/bitmap_data.cpp:1256-1334 | dispatching on both formats runs the conversion with each format's codec, and does nothing when either format has no codec |
| NormalCopy.CopyImageFrame | src/slib/graphics/bitmap_data.cpp:1140-1173 | no byte outside the target rectangle changes |
| NormalCopy.CopyImageContent | src/slib/graphics/bitmap_data.cpp:1140-1173 | for a source reader that reads only its bytes and a lawful target codec, with the target's samples apart from each other and from the bytes the source reader reads, each target pixel reads back as the target codec's round trip of the source pixel |
| NormalCopy.CopyPixelsNormalStores | src/slib/graphics/bitmap_data.cpp:1140-1334 | over the formats' own codecs, each target pixel's own bytes decode to decode(encode(source pixel as read)); the target reader reads that back for every target format but YUVA_PA |
| NormalCopy.CopyPixelsNormalLossless | src/slib/graphics/bitmap_data.cpp:1140-1334 | when the conversions undo each other and the target is 8-bit per channel, every target pixel's bytes decode to the source pixel, with alpha 255 when the target has none, and the target reader reads that back for every target but YUVA_PA |
| NormalCopy.CopyImageSameWriter | src/slib/graphics/bitmap_data.cpp:1140-1173 | the conversion's memory depends on the target codec's stores only, never on the target's reader |
| NormalCopy.CopyPixelsNormalFrame | src/slib/graphics/bitmap_data.cpp:1140-1334 | with the formats' own codecs, nothing outside the target rectangle changes |
| Upsample420.SpreadImage | src/slib/graphics/bitmap_data.cpp:1353-1385 | the memory after upsampling a grid of 2x2 blocks has the same length as before |
| Upsample420.Upsample | src/slib/graphics/bitmap_data.cpp:1353-1385 | the block-row loop with its double pitch steps produces exactly the upsampled memory |
| Upsample420.UpsampleRow | src/slib/graphics/bitmap_data.cpp:1366-1377 | one block row's loop produces exactly that row's upsampling |
| Upsample420.UpsampleRowStep | src/slib/graphics/bitmap_data.cpp:1366-1377 | one pass of the block loop writes one block and moves every cursor one block on; the rest of the row is then what remains to be written |
| Upsample420.UpsampleBlock | src/slib/graphics/bitmap_data.cpp:1367-1376 | one block writes its four pixels, and every target cursor moves two samples on |
| Upsample420.UpsamplePixel | src/slib/graphics/bitmap_data.cpp:1446-1447 | one target pixel is written from its luma byte and its block's chroma bytes, with alpha 255 |
| Upsample420.SpreadImageContent | src/slib/graphics/bitmap_data.cpp:1353-1385 | under separation, pixel (x, y) reads back as the round trip of the colour made of its own luma and the chroma of block (x/2, y/2) |
| Upsample420.TwinFormat | src/slib/graphics/bitmap_data.cpp:1388-1412 | the codec a YUV target is written with is its RGB twin, of the same layout; any other target keeps its own |
| Upsample420.TwinImageSamples | src/slib/graphics/bitmap_data.cpp:1388-1412 | walked with the codec of its RGB twin, every target pixel has the same cursors and covers the same addresses as in the target itself |
| Upsample420.Upsampled | src/slib/graphics/bitmap_data.cpp:1337-1531 | memory after upsampling, unchanged length; nothing happens when there are not exactly three Y, U, V views |
| Upsample420.CopyFromYUV420 | src/slib/graphics/bitmap_data.cpp:1337-1531 | both routines and their dispatch on the target format produce exactly that memory |
| Upsample420.UpsampledFrame | src/slib/graphics/bitmap_data.cpp:1337-1531 | no byte outside the target rectangle changes |
| Upsample420.UpsampledPixel | src/slib/graphics/bitmap_data.cpp:1366-1376 | every pixel of a 2x2 block gets its own luma and the block's single chroma pair with alpha 255, taken as they are for a YUV target and converted from YUV otherwise |
| Upsample420.UpsampledYuvKeepsBytes | src/slib/graphics/bitmap_data.cpp:1366-1376 | a YUV target's pixel, read back through its RGB twin, gives exactly the Y, U, V bytes the source held, with alpha 255; for premultiplied targets when un-premultiplying undoes premultiplying |
| Upsample420.UpsampledRgbConverts | src/slib/graphics/bitmap_data.cpp:1445-1459 | an 8-bit RGB target pixel reads back as the RGB conversion of its Y, U, V bytes, with alpha 255 |
| Downsample420.Mean4IsFlooredMean | src/slib/graphics/bitmap_data.cpp:1583-1584 | `(a + b + c + d) >> 2` is the mean of the four bytes rounded down, fits a byte, and is the value itself when all four agree |
| Downsample420.PoolImage | src/slib/graphics/bitmap_data.cpp:1553-1595 | the memory after downsampling a grid of 2x2 blocks has the same length as before |
| Downsample420.Downsample | src/slib/graphics/bitmap_data.cpp:1553-1595 | the block-row loop with its double pitch steps produces exactly the downsampled memory |
| Downsample420.DownsampleRow | src/slib/graphics/bitmap_data.cpp:1566-1587 | one block row's loop produces exactly that row's downsampling |
| Downsample420.DownsampleRowStep | src/slib/graphics/bitmap_data.cpp:1566-1587 | one pass of the block loop pools one block and moves every cursor one block on; the rest of the row is then what remains to be pooled |
| Downsample420.DownsampleBlock | src/slib/graphics/bitmap_data.cpp:1567-1586 | one block reads its four pixels, stores their luma and their mean chroma, and every source cursor moves two samples on |
| Downsample420.DownsamplePixel | src/slib/graphics/bitmap_data.cpp:1658-1660 | reading one source pixel stores its Y byte at the luma cursor and returns its Y, U, V values |
| Downsample420.PoolImageLuma | src/slib/graphics/bitmap_data.cpp:1553-1595 | under separation, the luma byte of pixel (x, y) is that pixel's own Y value |
| Downsample420.PoolImageChroma | src/slib/graphics/bitmap_data.cpp:1553-1595 | under separation, the U and V bytes of block (i, j) are the rounded-down means of its four pixels' U and V values |
| Downsample420.Downsampled | src/slib/graphics/bitmap_data.cpp:1535-1753 | memory after downsampling, unchanged length; nothing happens when there are not exactly three Y, U, V views |
| Downsample420.CopyToYUV420 | src/slib/graphics/bitmap_data.cpp:1535-1753 | both routines and their dispatch on the source format produce exactly that memory |
| Downsample420.DownsampledFrame | src/slib/graphics/bitmap_data.cpp:1535-1753 | no byte outside the Y, U, V planes of the target rectangle changes |
| Downsample420.DownsampledLuma | src/slib/graphics/bitmap_data.cpp:1566-1587 | each pixel gets its own, independent luma byte |
| Downsample420.DownsampledChroma | src/slib/graphics/bitmap_data.cpp:1566-1587 | each block's U and V bytes are the rounded-down means of its four pixels' U and V |
| Downsample420.DownsampledRgbConverts | src/slib/graphics/bitmap_data.cpp:1657-1682 | from a non-YUV source, the luma byte is the Y of the RGB-to-YUV conversion of the source pixel |
| Downsample420.DownsampledYuvKeepsLuma | src/slib/graphics/bitmap_data.cpp:1566-1587 | from a straight YUV source, the luma byte is the first byte of the source pixel, unchanged |
| Downsample420.TwinLoadsFirstByte | src/slib/graphics/bitmap_data.cpp:987-1137 | read through its RGB twin, a straight YUV sample's first channel is its first byte |
| ByteCopy.RowCopied | src/slib/graphics/bitmap_data.cpp:1841-1845 | the memory after copying one row of bytes, store by store, has the same length |
| ByteCopy.RectCopied | src/slib/graphics/bitmap_data.cpp:1838-1848 | the memory after copying a rectangle of bytes, row by row, has the same length |
| ByteCopy.CopyRowBytes | src/slib/graphics/bitmap_data.cpp:1841-1845 | the inner loop with its stride steps produces exactly the row's copy |
| ByteCopy.CopyRectBytes | src/slib/graphics/bitmap_data.cpp:1838-1848 | the outer loop with its pitch steps produces exactly the rectangle's copy |
| ByteCopy.RectCopiedFrame | src/slib/graphics/bitmap_data.cpp:1838-1848 | no byte outside the target rectangle changes |
| ByteCopy.RectCopiedSelf | src/slib/graphics/bitmap_data.cpp:1838-1848 | copying a rectangle onto itself changes nothing |
| ByteCopy.RectCopiedContent | src/slib/graphics/bitmap_data.cpp:1838-1848 | with target cells distinct and apart from the source, cell (i, j) of the target holds cell (i, j) of the source |
| ByteCopy.PlanesCopied | src/slib/graphics/bitmap_data.cpp:1825-1849 | the memory after copying several planes in order has the same length |
| ByteCopy.CopyPlaneBytes | src/slib/graphics/bitmap_data.cpp:1825-1849 | the plane loop produces exactly the planes' copy |
| ByteCopy.PlanesCopiedFrame | src/slib/graphics/bitmap_data.cpp:1825-1849 | no byte outside every target rectangle changes |
| ByteCopy.PlanesCopiedContent | src/slib/graphics/bitmap_data.cpp:1825-1849 | with the target planes apart from each other and from the sources, every target cell holds its source cell |
| ByteCopy.PlanesCopiedSelf | src/slib/graphics/bitmap_data.cpp:1879-1895 | copying planes onto themselves changes nothing |
| CopyPixels.ClearLowBit | src/slib/graphics/bitmap_data.cpp:1777-1780 | `x & 0xFFFFFFFE` is the even number `x` or `x - 1` |
| CopyPixels.CropSize | src/slib/graphics/bitmap_data.cpp:1775-1780 | the crop fits both views and has even sides when either view is 4:2:0 |
| CopyPixels.CropSizeIsLargest | src/slib/graphics/bitmap_data.cpp:1775-1780 | every rectangle fitting both views, with even sides when 4:2:0 is involved, is no larger than the crop |
| CopyPixels.EarlyReturnTest | src/slib/graphics/bitmap_data.cpp:1800-1811 | the plane loop as written answers true exactly when the two views have one format and, on every plane, equal pointers and different pitches |
| CopyPixels.EarlyReturnAsWrittenCounterexample | src/slib/graphics/bitmap_data.cpp:1803-1810 | the as-written test does not return early on a view copied onto itself, and it returns early on two views sharing a plane with different pitches |
| CopyPixels.NormalFormatsKeepLayouts | src/slib/graphics/bitmap_data.cpp:1868-1878 | (corrected formats) the intended formats of the normal route keep each side's planes and bits per sample, are never both YUV and never both premultiplied, so they are equal only when the layouts are |
| CopyPixels.NormalFormatsAgree | src/slib/graphics/bitmap_data.cpp:1868-1878 | the as-written formats are the intended ones exactly off a YUV pair or when the two RGB twins coincide; on a YUV pair both as-written formats are the source's twin |
| CopyPixels.NormalFormatsAsWrittenStayNormal | src/slib/graphics/bitmap_data.cpp:1868-1878 | the as-written formats of two normal formats are normal |
| CopyPixels.NormalFormatsAsWrittenCounterexample | src/slib/graphics/bitmap_data.cpp:1875-1878 | as written, a YUVA source and a YUV444 target both become RGBA, of a different sample size than the target, while the corrected formats are RGBA and RGB |
| CopyPixels.Copied420 | src/slib/graphics/bitmap_data.cpp:1813-1849 | memory after the 4:2:0 plane copy, unchanged length |
| CopyPixels.CopiedNormal | src/slib/graphics/bitmap_data.cpp:1868-1899 | memory after the normal-to-normal route as written, over the as-written formats, unchanged length |
| CopyPixels.Routed | src/slib/graphics/bitmap_data.cpp:1800-1899 | memory after the as-written early-return test and the route chosen by the two formats, unchanged length |
| CopyPixels.Copied | src/slib/graphics/bitmap_data.cpp:1755-1902 | memory after `copyPixelsFrom` as written, unchanged length |
| CopyPixels.RoutedIntended | src/slib/graphics/bitmap_data.cpp:1800-1899 | (corrected routing) memory after the route with the early return taken exactly for the same view and each side's own RGB twin, unchanged length |
| CopyPixels.CopiedIntended | src/slib/graphics/bitmap_data.cpp:1755-1902 | (corrected routing) memory after `copyPixelsFrom` with that routing, unchanged length |
| CopyPixels.Copy420 | src/slib/graphics/bitmap_data.cpp:1813-1849 | the plane loop over the channel views produces exactly the 4:2:0 plane copy |
| CopyPixels.CopyNormalRoute | src/slib/graphics/bitmap_data.cpp:1868-1899 | the normal route as written (straight alpha, then the source's RGB twin for both sides of a YUV pair, then byte copy or conversion) produces exactly its memory |
| CopyPixels.CopyPixelsFrom | src/slib/graphics/bitmap_data.cpp:1755-1902 | the whole routine, with the as-written early-return loop, produces exactly `Copied` |
| CopyPixels.CopiedNothing | src/slib/graphics/bitmap_data.cpp:1759-1811 | an odd-sized 4:2:0 side, an empty crop, or two defaults-filled views passing the as-written early-return test (one format, equal pointers and different pitches on every plane) leave memory unchanged |
| CopyPixels.CopiedSelf | src/slib/graphics/bitmap_data.cpp:1800-1899 | copying a view onto itself leaves memory unchanged, although the as-written test does not return early: each route then stores every byte onto itself |
| CopyPixels.RoutedSameViewKeepsMemory | src/slib/graphics/bitmap_data.cpp:1800-1899 | for two normal views that are the same view, the as-written routing and the corrected early return both leave memory unchanged |
| CopyPixels.CopiedAgrees | src/slib/graphics/bitmap_data.cpp:1755-1902 | off the two routing slips (neither early-return test holds, and the as-written formats are the intended ones) the copy as written and as intended leave the same memory |
| CopyPixels.YuvaToYuv444CopiesFourBytes | src/slib/graphics/bitmap_data.cpp:1868-1899 | as written, a YUVA source copied to a YUV444 target takes the byte copy with the RGBA row size, 4 bytes a pixel against the target's 3 |
| CopyPixels.NormalFormatsOfOne | src/slib/graphics/bitmap_data.cpp:1868-1878 | one format on both sides gets two equal adjusted formats, as written and as intended alike |
| CopyPixels.SameFormatRoute | src/slib/graphics/bitmap_data.cpp:1879-1896 | two views of one normal format that do not pass the as-written early-return test take the byte-copy route over their defaults-filled planes |
| CopyPixels.BytePlanesCopyRows | src/slib/graphics/bitmap_data.cpp:1882-1895 | byte `o` of row `y` of plane `i` of the target holds that byte of the source |
| CopyPixels.BytePlanesSparePadding | src/slib/graphics/bitmap_data.cpp:1882-1895 | a byte outside the first `row_size` bytes of every target row (row padding or any other memory) is untouched |
| CopyPixels.SameViewByteCopyKeepsMemory | src/slib/graphics/bitmap_data.cpp:1879-1896 | the byte copy of a view onto the same view changes nothing |
| CopyPixels.CopiedSameFormatBytes | src/slib/graphics/bitmap_data.cpp:1879-1896 | after `copyPixelsFrom` between same-format views that do not pass the as-written early-return test, each of the first `(bitsPerSample * width) >> 3` bytes of every cropped row of every plane equals the source's |
| CopyPixels.CopiedSameFormatSparesPadding | src/slib/graphics/bitmap_data.cpp:1879-1896 | after `copyPixelsFrom` between same-format views, row padding and all other memory outside the copied row bytes are untouched |
| CopyPixels.RoutedCopies420Channels | src/slib/graphics/bitmap_data.cpp:1813-1849 | between two 4:2:0 views of any of the four layouts, every Y, U and V sample of the target holds the source's |
| CopyPixels.RoutedConvertsPixel | src/slib/graphics/bitmap_data.cpp:1868-1898 | between normal formats whose as-written adjusted formats differ, each target pixel's own bytes decode to decode(encode(source pixel)) under those formats, and the target reader reads that back unless the target is YUVA_PA |
| CopyPixels.RoutedUpsamplesPixel | src/slib/graphics/bitmap_data.cpp:1851-1858 | from 4:2:0 to an 8-bit RGB format, each pixel is the RGB conversion of its own luma and its block's chroma, with alpha 255 |
| CopyPixels.RoutedUpsamplesYuvBytes | src/slib/graphics/bitmap_data.cpp:1851-1854 | from 4:2:0 to a YUV format, each pixel, read back through the target's RGB twin, gives its own luma and its block's chroma bytes unchanged, with alpha 255; for premultiplied targets when un-premultiplying undoes premultiplying |
| CopyPixels.RoutedDownsamplesLuma | src/slib/graphics/bitmap_data.cpp:1860-1867 | from a non-YUV normal format to 4:2:0, each luma byte is the Y conversion of its own source pixel |
| CopyPixels.RoutedDownsamplesChroma | src/slib/graphics/bitmap_data.cpp:1860-1867 | from a normal format to 4:2:0, each block's U and V are the rounded-down means over its four pixels |
| CopyPixels.ComponentBuffersMatchCodecs | src/slib/graphics/bitmap_data.cpp:195-363 | for every 8-bit normal format, channel view `k` starts at the byte the codec reads channel `k` from (R,G,B,A or Y,U,V,A), whatever the byte order: BGRA's R at offset 2, ARGB's at offset 1 |
| CopyPixels.ViewBuffersMatchCodecs | src/slib/graphics/bitmap_data.cpp:195-363 | the same for any view whose layout is already filled |
| CopyPixels.Packed4ViewsMatchCodecs | src/slib/graphics/bitmap_data.cpp:195-260 | the same for the packed 4-byte formats |
| CopyPixels.Packed3ViewsMatchCodecs | src/slib/graphics/bitmap_data.cpp:261-289 | the same for the packed 3-byte formats |
| CopyPixels.PlanarViewsMatchCodecs | src/slib/graphics/bitmap_data.cpp:321-363 | the same for the planar formats: channel `k` is plane `k` |

## Left out

- Colour conversions: `YUV::convertYUVToRGB`, `YUV::convertRGBToYUV`, `Color::convertPAtoNPA` and `Color::convertNPAtoPA` are not part of this model. They are parameters. Their colorimetry and rounding are unknown, so any property needing them to undo each other takes that as a hypothesis.
- `BitmapFormat` attributes: the header that defines them is not part of this model. One value per format is stated explicitly in `BitmapFormats`.
- Reference handles: `ref`, `ref1..ref3`, the copy constructor and assignment (src/slib/graphics/bitmap_data.cpp:26-72), and the `ref` field of each channel view. These only keep buffers alive.
- Fixed-width integers: widths, heights, pitches and addresses are unbounded integers. The `& 0xFFFFFFFE` of the crop is modelled as `ClearLowBit`. Overflow of the 32-bit products `bitsPerSample * width`, `stride * 4` and `pitch * height` is not modelled.
- Overlapping source and target: every routine's memory is defined store by store, so any overlap has a defined result. That result is the C code's except for the luma byte of the downsampling, whose store the model places after the whole source read (next line). The content lemmas, however, assume separation: target samples apart from each other and from the source samples. The identical-view case is covered separately (`CopiedSelf`, `SameViewByteCopyKeepsMemory`). What ends up in memory under partial overlap is not characterised.
- Downsample420.PoolImage, Downsample420.DownsamplePixel: the model reads each source sample whole and then stores its luma byte. From a raw YUV source, the C code passes the luma target as the first channel of the reader (`*dsy_u`, `*dsy_d` at src/slib/graphics/bitmap_data.cpp:1567-1579). The straight twin readers (RGBA, RGB and their planar forms) store that channel before they read the others. So when a luma byte overlaps a later byte of its own source sample, the C code reads back the luma value where the model reads the original byte. For example, a YUVA pixel with bytes 10, 20, 30, 40 and its luma target at the second byte gives U 10 in C but 20 in the model. Without that overlap the two orders store the same bytes, and every content lemma assumes the luma plane apart from the source.
- Memory bounds: every routine requires that the bytes it reads and writes lie inside the memory. The C code has no such check and simply dereferences its pointers.
- CopyPixels.RoutedConvertsPixel, RoutedUpsamplesPixel, RoutedUpsamplesYuvBytes, RoutedDownsamplesLuma, RoutedDownsamplesChroma, RoutedCopies420Channels: these speak of `Routed` on the defaults-filled views and the cropped size. `Copied` is exactly that when the guards let the copy proceed (`Proceeds`), by the definition of `Copied`. The lemmas are not restated in terms of `Copied`, except for the same-format byte copy (`CopiedSameFormatBytes`, `CopiedSameFormatSparesPadding`).
- CodecLaws.ImplementsLawful: does not cover YUVA_PA, because its reader takes alpha from `p3` and so neither depends on the sample's bytes only nor reads back what was stored. `ImplementsWritesLocally`, `ImplementsReadsLocally` and `ImplementsStoredLawful` state what does hold for that format.
- CodecLaws.LoadAfterStore: for YUVA_PA it holds only when `p3` is the sample's fourth byte. `StoredAfterStore` states the stored bytes for every format, and `YuvaPaAlphaAsWrittenCounterexample` shows the failure.
- NormalCopy.CopyPixelsNormalStores, NormalCopy.CopyPixelsNormalLossless, CopyPixels.RoutedConvertsPixel: for a YUVA_PA target they state what the target sample's own bytes decode to (`Stored`), not what the as-written reader reads back from them.
- NormalCopy.CopyImageContent, NormalCopy.CopyRowContent: require a lawful target codec, which the YUVA_PA codec is not. The YUVA_PA target is reached through `CodecLaws.WithStoredRead` and `CopyImageSameWriter`.
- Downsample420.Downsample, Downsample420.DownsampleRow, Downsample420.DownsampleRowStep, Downsample420.DownsampleBlock, Downsample420.DownsamplePixel: require a source format outside YUV colour space. The routine always calls them with the RGB twin of the source format (`TwinFormat`), which meets this.
- CopyPixels.CopiedAgrees: relates the as-written and the corrected copy only off the slips. On them, the counterexample lemmas and `RoutedSameViewKeepsMemory` state the difference.
- CopyPixels.RoutedUpsamplesPixel: does not cover RGB565 or grey targets, because those codecs do not round-trip. `UpsampledPixel` states their pixels as the target codec's round trip instead.

## Findings

The model follows the code as written at all four places. Each row names:
- the as-written member, which the rest of the model uses, with a lemma that exhibits
  the discrepancy on a concrete input;
- the corrected member, with the evidently intended property proved about it and a
  lemma stating where the two agree.

| source | as written | input that shows it | evidently intended | confidence | as-written member | corrected member |
|---|---|---|---|---|---|---|
| src/slib/graphics/bitmap_data.cpp:779-781 | the 565 encoders (here and at 806-808, 833-835, 860-862) shift the first channel by 5 and then by 6, giving `((r>>3)<<11) \| ((g>>2)<<6) \| (b>>3)`: bit 5 is always 0 and green's top bit lands on red's lowest bit | r=0, g=4, b=0 is stored as 00 40 instead of 00 20 and decodes back as green 8; r=0, g=128, b=0 decodes back as red 8 | shift by 6 and then by 5, matching the decoder's `0xF800 / 0x07E0 / 0x001F` fields | high; not executed | SampleCodecs.Word565, SampleCodecs.Pack565AsWritten; CodecLaws.Rgb565CodecTruncates, CodecLaws.Pack565AsWrittenCounterexample | SampleCodecs.Word565Intended, SampleCodecs.Pack565; CodecLaws.Rgb565IntendedTruncates, CodecLaws.Rgb565WordsAreFixed, CodecLaws.Word565Agrees |
| src/slib/graphics/bitmap_data.cpp:1039 | `YUVA_PA_PROC::readSample` takes alpha from `p3[0]`, the unused fourth plane cursor, instead of the sample's own fourth byte `p[3]`, which the writer stores | store Rgba(1,2,3,4) at p0=1 with p3=5 in memory [0,1,2,3,0,9]: the reader reports alpha 9 | read alpha from `p[3]` as `YUVA_PROC` does | high; not executed | SampleCodecs.Load, SampleCodecs.ReadAddrs; CodecLaws.YuvaPaAlphaAsWrittenCounterexample | SampleCodecs.Stored; CodecLaws.StoredAfterStore, CodecLaws.ImplementsStoredLawful, SampleCodecs.LoadIsStored |
| src/slib/graphics/bitmap_data.cpp:1804 | the same-view loop breaks when `src_planes[i] != dst_planes[i] \|\| src_pitches[i] == dst_pitches[i]`, so it returns early only when the pointers are equal and the pitches differ | a 2x2 RGBA view at 64 with pitch 8, against itself (no early return) and against the same view with pitch 16 (early return, nothing copied) | break when `src_pitches[i] != dst_pitches[i]`: return early only when both views are the same | high; not executed | CopyPixels.EarlyReturnAsWritten, CopyPixels.EarlyReturnTest, CopyPixels.Routed; CopyPixels.EarlyReturnAsWrittenCounterexample, CopyPixels.CopiedNothing | CopyPixels.SameView, CopyPixels.RoutedIntended; CopyPixels.RoutedSameViewKeepsMemory, CopyPixels.CopiedAgrees |
| src/slib/graphics/bitmap_data.cpp:1877 | `dst.format = src.format.getCompatibleRGBFormat()` reads the source format, already made RGB on the line before, so two YUV formats always take the byte copy with the source's sample size | a YUVA source and a YUV444 target both become RGBA: 4 bytes per pixel copied into a 3-byte-per-pixel target | `dst.format = dst.format.getCompatibleRGBFormat()` | high; not executed | CopyPixels.NormalFormatsAsWritten, CopyPixels.CopiedNormal; CopyPixels.NormalFormatsAsWrittenCounterexample, CopyPixels.YuvaToYuv444CopiesFourBytes | CopyPixels.NormalFormats, CopyPixels.CopiedIntended; CopyPixels.NormalFormatsKeepLayouts, CopyPixels.NormalFormatsAgree |
