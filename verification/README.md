# CImage core: percentile normaliser, pixel-format tags, data size

A Dafny model of three pieces of the `CImage` image descriptor declared in
`libs/IO/Image.h`:

- **`findMinMaxPercentile<T>`**, the dynamic-range heuristic. It maps
  high-precision single-channel data into a displayable range. A first pass
  finds the actual minimum and maximum. A second pass picks the *stored*
  samples whose normalised position `(v - min) / range` is nearest to 0.1
  and nearest to 0.9, using strict `<` so the earliest of equally near
  samples wins. An empty buffer and a constant buffer both yield `(0, 0)`.
  The model has three parts:
  - `Percentile.PercentileBounds`, a loop-free reference definition. It compares samples by an integer gap, `10 * range` times the real distance. `Percentile.NearestByGapIffByDistance` shows that this picks the same sample as the source's real distances;
  - `Percentile.FindMinMaxPercentile`, the two-loop method, proved equal to it;
  - lemmas on what the result means: stored samples, first-nearest, beating the sentinel, shifting.
- **The `PIXELFORMAT` numbering.** `PF_UNKNOWN` is 0 and the uncompressed formats are 1 to 11. The block-compressed formats are 128 to 133. `Tag` and `FromTag` are inverse to each other.
- **The geometry fields and `GetDataSize`.** The buffer holds `dataHeight` lines of `lineWidth` bytes. It is proved to be exactly the concatenation of those lines, with byte `j` of line `i` at offset `i * lineWidth + j`. The expression as written wraps in 32-bit arithmetic; see Findings.

Modules, one per file:

- `Percentile` in `percentile.dfy`.
- `PercentileExamples` in `percentile_examples.dfy`.
- `PixelFormats` in `pixel_format.dfy`.
- `ImageDescriptor` in `image_descriptor.dfy`.

Modelling choices:

- Samples are mathematical integers. This covers the unsigned 16-bit gray instantiation exactly: `aMax - aMin` is computed after integer promotion, so it cannot wrap.
- `double` is modelled as `real`, that is, without rounding.
- The values the out-pointers held before the call are passed in as `callerMin` and `callerMax`. The result is proved not to depend on them.
- Element counts are bounded by `CImage::Size`, a `uint32_t`.

A symmetric reading would expect 90 for the high output of the ramp `0..99`. The code picks 89: |89/99 - 0.9| = 1/990 is less than |90/99 - 0.9| = 9/990. `PercentileExamples.RampGivesNearestSamples` proves `(10, 89)`.

## Model

| member | source | states |
|---|---|---|
| Percentile.FindMinMaxPercentile | libs/IO/Image.h:112-153 | for every buffer of fewer than 2^32 samples and any prior contents of the out-pointers, the two outputs equal the reference result `PercentileBounds`: `(0, 0)` for empty or constant buffers, otherwise the first samples nearest to 0.1 and 0.9 |
| Percentile.ScanRange | libs/IO/Image.h:119-127 | the first pass, with its strict `>`/`<` updates, ends with the true minimum and maximum of a non-empty buffer |
| Percentile.MinFrom | libs/IO/Image.h:120-127 | the minimum of the samples from an index on is one of those samples and no larger than any of them |
| Percentile.MaxFrom | libs/IO/Image.h:120-127 | the maximum of the samples from an index on is one of those samples and no smaller than any of them |
| Percentile.SelectNearest | libs/IO/Image.h:135-152 | the second pass computes the real `percentile`, `minP` and `maxP` as the source does. Starting from the 9999.0 sentinel and the caller's prior values, it stores exactly the samples at the first-nearest indices for 0.1 and 0.9 |
| Percentile.TracksStep | libs/IO/Image.h:144-151 | one strict-`<` update on the real distance keeps this invariant: the stored sample is the first nearest seen so far, and the closest distance is its real distance |
| Percentile.Position | libs/IO/Image.h:140 | the normalised position `(v - min) / range` of a sample, the source's `percentile`, defined for a non-zero range |
| Percentile.Distance | libs/IO/Image.h:141-142 | the source's `minP` and `maxP`: the absolute difference between a sample's position and 0.1 or 0.9 |
| Percentile.GapScalesDistance | libs/IO/Image.h:140-142 | for a positive range, the real distance `abs((v - min) / range - 0.1)` (or `- 0.9`) equals the integer gap `abs(10 * (v - min) - range)` (or `- 9 * range`) divided by `10 * range` |
| Percentile.DistanceOrder | libs/IO/Image.h:140-151 | for a positive range, one sample's real distance is strictly below another's exactly when its gap is smaller |
| Percentile.NearestByGapIffByDistance | libs/IO/Image.h:139-151 | an index is the first nearest by gap if and only if it is the first nearest by the source's real distance |
| Percentile.ArgMinFrom | libs/IO/Image.h:144-151 | the chosen index has a value no greater than any later one and strictly less than every earlier one, so it is the first minimum |
| Percentile.FirstMinimumUnique | libs/IO/Image.h:144-151 | a range has at most one first minimum, so strict-`<` tracking has a single possible result |
| Percentile.ArgNearest | libs/IO/Image.h:139-151 | the selected index is in the buffer and is the first index of smallest gap to the target |
| Percentile.ArgNearestIsFirstNearest | libs/IO/Image.h:139-151 | an index is the selected one if and only if it is the first of smallest gap to the target |
| Percentile.PositionInUnit | libs/IO/Image.h:140 | every normalised position `(v - min) / range` lies in [0, 1] |
| Percentile.DistanceBelowSentinel | libs/IO/Image.h:135-142 | every sample's real distance to 0.1 or 0.9 is below the 9999.0 sentinel |
| Percentile.RangeZeroIffConstant | libs/IO/Image.h:129-133 | the actual range of a non-empty buffer is never negative, and it is zero exactly when all samples are equal |
| Percentile.DegenerateBuffersGiveZero | libs/IO/Image.h:114-117 | an empty or constant buffer gives `(0, 0)` |
| Percentile.NearestSampleIsFirstByDistance | libs/IO/Image.h:139-151 | the sample the selection picks is the first nearest by the source's real distance |
| Percentile.SpreadBuffersPickFirstNearest | libs/IO/Image.h:135-151 | with two distinct samples, each output is a stored sample, namely the first one nearest its target by real distance |
| Percentile.OutputsBeatSentinel | libs/IO/Image.h:135-151 | with two distinct samples, both outputs are nearer their targets than the sentinel, so both pointers are always overwritten |
| Percentile.NearestSampleIsNearest | libs/IO/Image.h:139-151 | no sample is nearer to the target point than the selected one, and a sample that is first nearest by real distance is the selected one |
| Percentile.OutputsAreNearest | libs/IO/Image.h:139-151 | no sample is nearer to 0.1 than the low output or nearer to 0.9 than the high output. The first nearest sample is the one returned |
| Percentile.ShiftMovesExtremes | libs/IO/Image.h:119-127 | adding a constant to every sample moves the actual minimum and maximum by that constant |
| Percentile.ShiftKeepsGaps | libs/IO/Image.h:140-142 | shifting the samples and the minimum by one constant leaves every gap unchanged |
| Percentile.ShiftKeepsArgNearest | libs/IO/Image.h:139-151 | shifting the samples and the minimum by one constant keeps the first-nearest index |
| Percentile.ShiftMovesOutputs | libs/IO/Image.h:129-151 | adding a constant to every sample of a buffer with spread adds it to both outputs |
| Percentile.ShiftKeepsConstantAtZero | libs/IO/Image.h:129-133 | a shifted constant buffer still gives `(0, 0)`, not the shifted value |
| PercentileExamples.RampExtremes | libs/IO/Image.h:119-127 | the ramp `0..99` has actual minimum 0 and maximum 99 |
| PercentileExamples.RampGivesNearestSamples | libs/IO/Image.h:112-153 | the buffer `0, 1, ..., 99` gives `(10, 89)`: stored samples, not interpolated ones |
| PercentileExamples.RampHighIsNotNinety | libs/IO/Image.h:140-151 | on that ramp, 89 is strictly nearer to 0.9 than 90 by real distance. 89 is the first nearest sample and 90 is not |
| PercentileExamples.TieExtremes | libs/IO/Image.h:119-127 | the two three-sample tie buffers range from 0 to 10 |
| PercentileExamples.TieGoesToFirstSample | libs/IO/Image.h:144-147 | in `0, 2, 10`, samples 0 and 2 sit at positions 0 and 0.2, at equal distance 0.1 from 0.1 (also in binary64), and the earlier one, 0, is returned as the low output |
| PercentileExamples.TieDependsOnOrder | libs/IO/Image.h:144-147 | swapping the tied samples to `2, 0, 10` changes the low output to 2 |
| PixelFormats.Tag | libs/IO/Image.h:30-53 | `PF_UNKNOWN` is the only 0; tags 1..11 are the uncompressed formats in declaration order; tags 128..133 are the compressed ones in order; no other value is used; a format is compressed exactly when its tag is at least 128 |
| PixelFormats.FromTag | libs/IO/Image.h:30-53 | a number names a format exactly when it is that format's tag, so tags are distinct and `FromTag` inverts `Tag` |
| ImageDescriptor.Image | libs/IO/Image.h:157-166 | the descriptor record: width, height, data width and height, stride, line width, pixel format, mipmap level count and current level, file name; the size fields are `CImage::Size` values below 2^32 and the level fields are bytes |
| ImageDescriptor.LineOffsetIsProduct | libs/IO/Image.h:84 | the start of line `i` is `i` times the line width |
| ImageDescriptor.GetDataSize | libs/IO/Image.h:84 | the size is where a line after the last one would start; it fits a 64-bit `size_t`; it is 0 exactly when the line width or the data height is 0 |
| ImageDescriptor.OffsetBelowSizeT | libs/IO/Image.h:84 | fewer than 2^32 lines of fewer than 2^32 bytes fit a 64-bit `size_t` |
| ImageDescriptor.FlattenLength | libs/IO/Image.h:84 | lines of equal width laid end to end take as many elements as the start of the line after the last |
| ImageDescriptor.FlattenAt | libs/IO/Image.h:84 | element `j` of line `i` sits at the start of line `i` plus `j` |
| ImageDescriptor.DataSizeCoversLines | libs/IO/Image.h:84 | `dataHeight` lines of `lineWidth` bytes fill exactly `GetDataSize` bytes. Byte `j` of line `i` is at the start of line `i` plus `j` |
| ImageDescriptor.GetDataSizeAsWritten | libs/IO/Image.h:84 | the 32-bit product is below 2^32 and agrees with the true size exactly when the true size is below 2^32 |
| ImageDescriptor.DataSizeWrapsAt4GiB | libs/IO/Image.h:84 | 65536 lines of 65536 bytes hold 2^32 bytes, but the size as written is 0 |

## Left out

- `Reset`, `Close`, `ReadHeader`, `ReadData`, `WriteHeader`, `WriteData`, `Create`, `Dump` (libs/IO/Image.h:69-78, 105-109): stream and file I/O and codec dispatch. Only their declarations are in the header.
- `GetDataSizes`, `GetStride(PIXELFORMAT)`, `FormatHasAlpha`, `FilterFormat`, `FlipRB24`, `CopyFlipRB24` (libs/IO/Image.h:97-103): declared, but their bodies are in a source file that is not part of this model.
- The plain field accessors (`GetWidth`, `GetHeight`, `GetLineWidth` and the others at libs/IO/Image.h:80-95) are the fields of the immutable `Image` record. `GetData` and `GetStream` are buffer and stream plumbing.
- IEEE-754 `double` rounding (libs/IO/Image.h:129-142): modelled as exact `real` arithmetic. Near-ties that rounding would break differently are not claimed to agree bit for bit.
- The unqualified `abs` at libs/IO/Image.h:141 is taken to be the real-valued absolute value. Which C++ overload the build resolves it to is outside the model.
- The floating-point instantiation of `findMinMaxPercentile<T>`: samples are integers. Only the 16-bit unsigned gray instantiation is covered exactly.
- The `reinterpret_cast` of `void*` (libs/IO/Image.h:120) is modelled by taking the samples as a sequence.
- Buffer and stream ownership (`CAutoPtrArr`, `IOSTREAMPTR`, `CSharedPtr`) and logging (`DECLARE_LOG`, `LT_IMAGE`): memory and foreign-type plumbing.
- `ImageDescriptor.Image` omits `m_pStream` and `m_data`, for the same reason.

## Findings

| source | as written | input that shows it | evidently intended | confidence | as-written member | corrected member |
|---|---|---|---|---|---|---|
| libs/IO/Image.h:84 | `m_lineWidth * m_dataHeight` multiplies two `uint32_t` values in 32-bit unsigned arithmetic, so the product wraps modulo 2^32 before it is widened to the `size_t` return type | `lineWidth = 65536`, `dataHeight = 65536` (a 16384-pixel-wide, 65536-line 32-bit image): true size 2^32 bytes, returned size 0 | the full product in `size_t`, which always fits in 64 bits | not executed | ImageDescriptor.GetDataSizeAsWritten, ImageDescriptor.DataSizeWrapsAt4GiB | ImageDescriptor.GetDataSize |
