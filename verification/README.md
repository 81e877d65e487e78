# poly3.2 image editor core, in Dafny

This project models the pixel-processing core of the poly3.2 browser image editor and proves properties of that model. The editor is written in TypeScript and React. The model covers:

- the GrayBit-7 (GB7) reader and writer;
- nearest-neighbour and bilinear resampling;
- edge padding and k×k convolution, with the preset kernels of the kernel filter dialog;
- the tone-curve dialog's histogram, three-segment lookup table and per-channel remapping;
- the colour utilities: sRGB to XYZ (D65) to CIELAB and LCh, WCAG 2.1 relative luminance, contrast ratio, and the 4.5:1 threshold of success criterion 1.4.3;
- the layer panel's list operations;
- the base-layer upsert;
- the compositing pass, modelled as the ordered list of draw commands it issues.

Pixel buffers are `Raster.Image`: a width, a height and RGBA samples interleaved in one `seq<int>`. `Raster.Valid` is the `ImageData` invariant: both sides are at least 1, there are 4·W·H samples, and each sample is a byte. JavaScript number behaviour that matters is written out in `JsNumber`:

- `NaN` from 0/0;
- `x || 0`;
- `Math.round` as floor(x + 1/2);
- a `Uint8ClampedArray` store: NaN becomes 0, then the value is clamped and rounded half to even;
- the modular `setUint8` and `setUint16` stores.

All other arithmetic uses exact reals.

Files and modules:

| file | module | models |
|---|---|---|
| options.dfy | Options | `Option` |
| js_number.dfy | JsNumber | number semantics above |
| raster.dfy | Raster | RGBA buffers, coordinate clamping |
| gb7.dfy | Gb7 | `parseGrayBit7` validation and unpacking, `encodeGb7` |
| resample.dfy | Resample | `nearestNeighborInterpolation`, `bilinearInterpolation` |
| convolution.dfy | Convolution | `edgePadding`, `applyKernel` |
| kernel_dialog.dfy | KernelDialog | the kernel filter dialog's presets, grid and reset |
| tone_curve.dfy | ToneCurve | `calculateHistogram`, `buildLUT`, `applyLUT`, preview and apply |
| colour.dfy | Colour | `colorUtils` conversions and contrast |
| layers.dfy | Layers | the layer panel's operations |
| compositor.dfy | Compositor | the base-layer effect and the composite effect of the app |

`Math.pow`, `Math.cbrt`, `Math.sqrt` and `Math.atan2` are fields of a `Colour.MathLib` value that is passed in. Each colour lemma assumes only the facts it needs about them, for example `pow(1, 2.4) = 1`, that `atan2` lies in [−π, π], or that `cbrt` never decreases and meets the linear piece of the Lab companding at its threshold. Random layer ids, image elements, and the element rebuilt from saved pixels are parameters too.

## Model

| member | source | states |
|---|---|---|
| JsNumber.Div | src/features/curves/ui/CurvesDialog.tsx:59 | Division is NaN exactly when the divisor is 0. It is only taken with a zero numerator then, so it is 0/0. Otherwise the quotient times the divisor is the dividend. |
| JsNumber.OrZero | src/features/filters/ui/KernelFilterDialog.tsx:49 | `x \|\| 0` on a number: NaN becomes 0 and any other value is kept. |
| JsNumber.RoundHalfUp | src/features/upload/model/parseGrayBit7.ts:58 | `Math.round`: the result is within one half of x, and a tie goes up. |
| JsNumber.Round | src/features/curves/ui/CurvesDialog.tsx:59-61 | `Math.round` on a number that may be NaN: NaN stays NaN, and a finite value is rounded as above. |
| JsNumber.ClampReal | src/features/filters/model/applyKernel.ts:52-54 | `Math.min(hi, Math.max(lo, v))`: the result lies in [lo, hi], equals v inside, and equals the bound beyond either end. |
| JsNumber.ClampInt | src/features/curves/ui/CurvesDialog.tsx:62 | On whole numbers the clamp is `JsNumber.ClampReal`, and its result is again a whole number. |
| JsNumber.ToUint8Clamp | src/features/filters/model/applyKernel.ts:52-55 | A `Uint8ClampedArray` store gives a byte. NaN stores 0, values beyond either end store that end, values inside store an integer within 0.5, and a tie inside the range goes to the even neighbour. |
| JsNumber.StoreTies | src/features/scaling/model/interpolation.ts:61 | Ties round to even: 127.5, the blend halfway between 127 and 128, stores 128; 0.5 stores 0 and 254.5 stores 254. |
| JsNumber.StoreBetween | src/features/scaling/model/interpolation.ts:61 | Storing a value that lies between two bytes gives a byte between them. |
| JsNumber.ToUint8 | src/features/export/model/exportToGb7.ts:52 | `setUint8` keeps a byte and reduces anything else modulo 256. |
| JsNumber.ToUint16 | src/features/export/model/exportToGb7.ts:28-31 | `setUint16` keeps values below 65536 and reduces anything else modulo 65536. |
| Raster.ClampCoord | src/features/filters/model/edgePadding.ts:22-25 | A coordinate moved into [0, dim): it is unchanged inside, 0 below, and dim − 1 above. |
| Raster.SamplesDetermineImage | src/features/filters/model/edgePadding.ts:27-34 | Buffer extensionality, the step that `Convolution.PaddingIsUnique` rests on: two valid buffers of the same size that agree on every (x, y, channel) sample are equal. |
| Gb7.BigEndian16 | src/features/upload/model/parseGrayBit7.ts:27-28 | `(hi << 8) \| lo` is below 65536, and it splits back into hi and lo. |
| Gb7.Low7 | src/features/upload/model/parseGrayBit7.ts:56 | The gray level lies in [0, 128). It and the mask bit rebuild the byte. |
| Gb7.MaskBit | src/features/upload/model/parseGrayBit7.ts:57 | The mask bit is 0 or 1, and it is 1 exactly when the byte is at least 128. |
| Gb7.MaskingIsBitwise | src/features/upload/model/parseGrayBit7.ts:56-57 | The arithmetic gray level and mask bit equal `b & 0x7F` and `(b >> 7) & 1` on 8-bit vectors. |
| Gb7.MagicTest | src/features/upload/model/parseGrayBit7.ts:13-21 | The four byte comparisons pass exactly when the file starts with 47 42 37 1D. A read past the end fails them. |
| Gb7.Width | src/features/upload/model/parseGrayBit7.ts:27 | The width is bytes[6]·256 + bytes[7]. |
| Gb7.Height | src/features/upload/model/parseGrayBit7.ts:28 | The height is bytes[8]·256 + bytes[9]. |
| Gb7.GrayLevel | src/features/upload/model/parseGrayBit7.ts:58 | A 7-bit level widens to the byte nearest level·255/127. Level 0 gives 0 and 127 gives 255. |
| Gb7.Expand | src/features/upload/model/parseGrayBit7.ts:55-64 | R, G and B are the widened gray. Alpha is 255 when there is no mask or bit 7 is set, and 0 exactly when there is a mask and bit 7 is clear. |
| Gb7.Unpack | src/features/upload/model/parseGrayBit7.ts:54-65 | The first n pixel bytes unpack to 4n samples, and sample k comes from pixel byte k/4. |
| Gb7.Decode | src/features/upload/model/parseGrayBit7.ts:11-65 | The result is null on bad magic, non-zero reserved bytes or too few pixel bytes, and so on any file shorter than 12 bytes. A zero side is a rejection. Otherwise the result is a valid W×H buffer with the big-endian sizes, and pixel i is expanded from byte 12 + i. |
| Gb7.Quantise | src/features/export/model/exportToGb7.ts:46-49 | The written level is the integer nearest luma/255·127, and it lies in [0, 127]. |
| Gb7.Header | src/features/export/model/exportToGb7.ts:16-34 | The header is 12 bytes: magic, version 1, flag 0, big-endian u16 width and height, and two zero bytes. |
| Gb7.Encode | src/features/export/model/exportToGb7.ts:7-61 | The output is 12 + W·H bytes: the header, then for each pixel its quantised level, which is below 128, so the mask bit is never set and alpha is ignored. |
| Gb7.GrayRoundTrip | src/features/export/model/exportToGb7.ts:46-49 | Quantising the widened gray of a 7-bit level gives the level back. |
| Gb7.HeaderReadsBack | src/features/upload/model/parseGrayBit7.ts:13-33 | The writer's header passes the reader's checks, reads back the same width and height, and has no mask. |
| Gb7.DecodeEncode | src/features/export/model/exportToGb7.ts:16-53 | Reading the writer's output always succeeds with the same size. Alpha is 255 everywhere, and R, G, B are the widened quantised luma. |
| Gb7.EncodeDecode | src/features/export/model/exportToGb7.ts:40-53 | Writing what was read reproduces the magic and the size fields, writes version 1 and flag 0, and writes each pixel byte with its mask bit dropped. |
| Gb7.DecodeIgnoresTrailing | src/features/upload/model/parseGrayBit7.ts:35-40 | Bytes after the last pixel do not change the result. |
| Gb7.DecodeIgnoresVersion | src/features/upload/model/parseGrayBit7.ts:23 | The version byte does not change the result. |
| Gb7.DecodeWhite | src/features/upload/model/parseGrayBit7.ts:54-65 | A file without a mask whose pixels all carry 7-bit level 127 reads as opaque white: every sample is 255. |
| Gb7.EncodeRed | src/features/export/model/exportToGb7.ts:46-49 | Pure red is written as level 27. |
| Resample.NearestIndex | src/features/scaling/model/interpolation.ts:13-15 | floor(d·src/dst) lies in [0, src), and it is the index s with s·dst ≤ d·src < (s+1)·dst. |
| Resample.NearestNeighbor | src/features/scaling/model/interpolation.ts:1-25 | The output is a valid dstW×dstH buffer, and each pixel copies all four channels of one source pixel at the nearest indices. |
| Resample.NearestIndexSameSize | src/features/scaling/model/interpolation.ts:13-15 | With equal sizes the index map is the identity. |
| Resample.NearestIndexDouble | src/features/scaling/model/interpolation.ts:13-15 | At twice the size, index d maps to d/2. |
| Resample.NearestNeighborIdentity | src/features/scaling/model/interpolation.ts:12-23 | Resampling to the source's own size returns the source. |
| Resample.NearestNeighborDouble | src/features/scaling/model/interpolation.ts:12-23 | A 2× upscale replicates each source pixel into a 2×2 block. |
| Resample.SourceCoord | src/features/scaling/model/interpolation.ts:45-50 | The source coordinate lies in [0, src − 1]. It is 0 for a destination side of 1 (the `\|\| 0` fallback) and for the first pixel, and otherwise it is d·(src−1)/(dst−1). |
| Resample.SourceCoordInRange | src/features/scaling/model/interpolation.ts:45-50 | The NaN-or-quotient expression read through `\|\| 0` lies in [0, src − 1]. |
| Resample.Lerp | src/features/scaling/model/interpolation.ts:55-61 | `a(1−t) + bt` for t in [0, 1] lies between a and b. It is a at t = 0, and a when a = b. |
| Resample.GetPixel | src/features/scaling/model/interpolation.ts:38-42 | A clamped neighbour read gives a byte, and inside the image it is the source sample. |
| Resample.Blend | src/features/scaling/model/interpolation.ts:55-61 | The bilinear blend lies between the least and the greatest of the four clamped neighbours. |
| Resample.BilinearSample | src/features/scaling/model/interpolation.ts:44-62 | The stored sample is a byte between the least and the greatest of its four neighbours. |
| Resample.Bilinear | src/features/scaling/model/interpolation.ts:27-66 | The output is a valid dstW×dstH buffer whose samples are the stored blends. |
| Resample.BilinearBetweenNeighbours | src/features/scaling/model/interpolation.ts:55-61 | Every output sample lies between the least and the greatest of its four neighbours. |
| Resample.SourceCoordSameSize | src/features/scaling/model/interpolation.ts:45-50 | With equal sizes the source coordinate is d itself. |
| Resample.SourceCoordLast | src/features/scaling/model/interpolation.ts:45-50 | The last destination pixel maps to src − 1 when the destination side exceeds 1. |
| Resample.BilinearOnGrid | src/features/scaling/model/interpolation.ts:44-62 | A destination pixel that lands exactly on a source pixel copies it. |
| Resample.BilinearIdentity | src/features/scaling/model/interpolation.ts:44-62 | Bilinear resampling to the source's own size returns the source. |
| Resample.BilinearCorners | src/features/scaling/model/interpolation.ts:44-62 | The output corners equal the source corners, along each axis whose destination side exceeds 1. |
| Resample.UniformChannelSurvives | src/features/scaling/model/interpolation.ts:12-62 | A channel that is constant in the source is the same constant after either resampler, at any size. A 1×1 source is the special case. |
| Convolution.EdgePadding | src/features/filters/model/edgePadding.ts:9-39 | The output is a valid (W+2p)×(H+2p) buffer. Pixel (x, y) is the source pixel at (clamp(x−p), clamp(y−p)), all four channels. |
| Convolution.PaddedSample | src/features/filters/model/edgePadding.ts:18-34 | A replicated sample is a byte. |
| Convolution.PaddingKeepsInterior | src/features/filters/model/edgePadding.ts:18-34 | Padded pixel (x+p, y+p) is source pixel (x, y). |
| Convolution.PaddingRepeatsEdges | src/features/filters/model/edgePadding.ts:22-25 | Left of, right of, above and below the image, the padding repeats the nearest edge pixel. |
| Convolution.PaddingByZero | src/features/filters/model/edgePadding.ts:11-34 | Padding by 0 returns the image. |
| Convolution.PaddingComposes | src/features/filters/model/edgePadding.ts:18-25 | Padding by a and then by b equals padding by a + b. |
| Convolution.RowSumIsCentred | src/features/filters/model/applyKernel.ts:33-43 | A row of taps over the padded image equals the same row read from the source with coordinates clamped around the centre. |
| Convolution.WindowSumIsCentred | src/features/filters/model/applyKernel.ts:32-46 | The whole window sum over the padding equals the centred, clamped sum over the source. |
| Convolution.StoreSum | src/features/filters/model/applyKernel.ts:52-54 | The clamp and the store give a byte. Sums ≤ 0 store 0, and sums ≥ 255 store 255. A sum in between stores an integer within 0.5 of it, and a tie goes to the even neighbour (a Gaussian sum of 0.5 stores 0). |
| Convolution.ColourSample | src/features/filters/model/applyKernel.ts:26-54 | An output colour sample is a byte. |
| Convolution.LastTapAlpha | src/features/filters/model/applyKernel.ts:29-55 | The output alpha is a byte, taken from a single tap. |
| Convolution.ApplyKernel | src/features/filters/model/applyKernel.ts:13-60 | The output is a valid buffer of the input's size. R, G, B are the stored window sums over the padding by floor(k/2). Alpha is the last tap's alpha. |
| Convolution.ApplyKernelIsCentredConvolution | src/features/filters/model/applyKernel.ts:15-54 | Each output colour sample is the stored centred convolution of the source with edge clamping. |
| Convolution.ApplyKernelAlphaIsShifted | src/features/filters/model/applyKernel.ts:29-55 | For an empty kernel alpha is 0. For odd k it is the source alpha at (min(x+h, W−1), min(y+h, H−1)), with h = floor(k/2). |
| Convolution.IdentityKernelMovesAlpha | src/features/filters/model/applyKernel.ts:44-55 | The 3×3 identity kernel changes the image [transparent, opaque]: the first pixel comes out opaque. |
| Convolution.ApplyKernelKeepingAlpha | src/features/filters/model/applyKernel.ts:13-60 | The same R, G, B as the filter, with each pixel keeping its own alpha. |
| Convolution.FlatChannel | src/features/filters/model/applyKernel.ts:32-54 | On a channel that is constant at v, a kernel whose weights sum to 1 gives v, and one whose weights sum to 0 gives 0. |
| Convolution.ImpulseKeepsColour | src/features/filters/model/applyKernel.ts:32-54 | A centred impulse kernel reproduces R, G and B exactly. |
| Convolution.ImpulseKeepsImage | src/features/filters/model/applyKernel.ts:32-55 | With alpha kept, a centred impulse kernel returns the image unchanged. |
| KernelDialog.PresetOfKey | src/features/filters/ui/KernelFilterDialog.tsx:26-56 | A selector key that names a preset gives back that preset's key. |
| KernelDialog.PresetKeyRoundTrip | src/features/filters/ui/KernelFilterDialog.tsx:26-33 | Every preset is found from its key, so the six keys are distinct. |
| KernelDialog.PresetValues | src/features/filters/ui/KernelFilterDialog.tsx:26-33 | Every preset has three rows of three weights. |
| KernelDialog.PresetsAre3x3 | src/features/filters/ui/KernelFilterDialog.tsx:26-33 | Every preset is a square 3×3 kernel. |
| KernelDialog.IdentityIsImpulse | src/features/filters/ui/KernelFilterDialog.tsx:27 | The identity preset has 1 at the centre and 0 elsewhere. |
| KernelDialog.PresetWeights | src/features/filters/ui/KernelFilterDialog.tsx:27-32 | The weights of identity, sharpen, Gaussian and box sum to 1, and those of Prewitt X and Y sum to 0. |
| KernelDialog.PrewittTranspose | src/features/filters/ui/KernelFilterDialog.tsx:31-32 | Prewitt Y is the transpose of Prewitt X. |
| KernelDialog.SetCell | src/features/filters/ui/KernelFilterDialog.tsx:47-50 | Exactly one weight changes, to the new value. |
| KernelDialog.SharedInitial | src/features/filters/ui/KernelFilterDialog.tsx:36-38 | On first render the grid shows the pristine identity preset, identity is selected, preview is off, and every preset in the table is 3×3. |
| KernelDialog.SharedReset | src/features/filters/ui/KernelFilterDialog.tsx:40-73 | Opening and reset select identity and point the grid at the identity preset's rows, without touching the table. |
| KernelDialog.SharedSelect | src/features/filters/ui/KernelFilterDialog.tsx:53-57 | Choosing a preset points the grid at its rows. |
| KernelDialog.SharedEdit | src/features/filters/ui/KernelFilterDialog.tsx:47-51 | As written, an edit sets one weight of the shared rows, so the preset being shown changes. Every other preset stays as it was. |
| KernelDialog.SharedResetKeepsEdit | src/features/filters/ui/KernelFilterDialog.tsx:47-73 | As written, after an edit of the identity grid, reset shows the edited weight. |
| KernelDialog.SharedResetFails | src/features/filters/ui/KernelFilterDialog.tsx:47-73 | As written: open, type 3 in the centre, reset. The grid is not the identity kernel, even after identity is chosen again. |
| KernelDialog.CopiedInitial | src/features/filters/ui/KernelFilterDialog.tsx:36-38 | With the grid holding its own copy, the dialog starts at the identity weights, identity is selected, and preview is off. |
| KernelDialog.CopiedReset | src/features/filters/ui/KernelFilterDialog.tsx:70-73 | Reset gives back the identity weights and the identity selection, and keeps the preview switch. |
| KernelDialog.CopiedSelect | src/features/filters/ui/KernelFilterDialog.tsx:53-57 | Choosing a preset shows that preset's weights. |
| KernelDialog.CopiedEdit | src/features/filters/ui/KernelFilterDialog.tsx:47-51 | An edit changes one weight of the grid's own copy, and the grid stays 3×3. |
| KernelDialog.CopiedResetIsIdentity | src/features/filters/ui/KernelFilterDialog.tsx:70-73 | After any edits, reset gives a kernel that, with alpha kept, leaves every image unchanged. |
| KernelDialog.ModelsAgreeOnPristinePresets | src/features/filters/ui/KernelFilterDialog.tsx:40-57 | Before any edit, both models show the same weights for every select and reset. |
| KernelDialog.Apply | src/features/filters/ui/KernelFilterDialog.tsx:64-68 | Without pixel data nothing happens. Otherwise the caller receives the layer's pixels and the current kernel. |
| KernelDialog.SetPreview | src/features/filters/ui/KernelFilterDialog.tsx:108-117 | The preview switch changes only the preview flag. |
| ToneCurve.ChannelOffset | src/features/curves/ui/CurvesDialog.tsx:48-75 | A named channel's offset lies within a pixel. |
| ToneCurve.Bump | src/features/curves/ui/CurvesDialog.tsx:43-50 | `bins[v]++` increases bin v by one and leaves every other bin unchanged. |
| ToneCurve.CalculateHistogram | src/features/curves/ui/CurvesDialog.tsx:36-54 | The loop yields the 256-bin histogram of the channel, or the pooled R, G, B histogram for `rgb`. |
| ToneCurve.TallyCounts | src/features/curves/ui/CurvesDialog.tsx:49-51 | Bin v of a channel's histogram counts the pixels whose sample is v. |
| ToneCurve.RgbTallyIsSum | src/features/curves/ui/CurvesDialog.tsx:41-46 | The `rgb` histogram is the binwise sum of the red, green and blue histograms. |
| ToneCurve.HistogramTotal | src/features/curves/ui/CurvesDialog.tsx:37-53 | The counts sum to the pixel count for a channel, and to three times it for `rgb`. |
| ToneCurve.Histograms | src/features/curves/ui/CurvesDialog.tsx:100-112 | With no pixel data there are no histograms. For `rgb` there are the red, green and blue ones, otherwise the channel's own. |
| ToneCurve.ControlInput | src/features/curves/ui/CurvesDialog.tsx:213-237 | A control-point input is held in [0, 255], and in-range values are kept. |
| ToneCurve.Neutral | src/features/curves/ui/CurvesDialog.tsx:152-156 | The default control points (0, 0) and (255, 255) are in range. |
| ToneCurve.OpeningCurves | src/features/curves/ui/CurvesDialog.tsx:91-98 | Opening uses the layer's saved control points, and the default ones without. |
| ToneCurve.Segment | src/features/curves/ui/CurvesDialog.tsx:59-61 | The three-piece curve is NaN only at i = 0 with x0 = 0 (0/0). |
| ToneCurve.LutEntry | src/features/curves/ui/CurvesDialog.tsx:57-62 | A table entry is a byte: 0 for the NaN, otherwise the rounded curve value clamped to [0, 255]. |
| ToneCurve.BuildLut | src/features/curves/ui/CurvesDialog.tsx:56-65 | The table has 256 byte entries, each the entry for its index. |
| ToneCurve.NeutralLutIsIdentity | src/features/curves/ui/CurvesDialog.tsx:58-62 | The table for (0, 0, 255, 255) is the identity. |
| ToneCurve.FirstEntryWithZeroX0 | src/features/curves/ui/CurvesDialog.tsx:59-62 | With x0 = 0, entry 0 is 0, because the 0/0 is stored as 0. |
| ToneCurve.LutThroughControlPoints | src/features/curves/ui/CurvesDialog.tsx:59-61 | For integer control points: lut[x0] = y0 when x0 > 0, lut[x1] = y1 when x1 > x0, and lut[255] = 255 when x0 and x1 are both below 255. |
| ToneCurve.CurveValueBounds | src/features/curves/ui/CurvesDialog.tsx:59-61 | With y0 ≤ y1, each piece stays between its end values. |
| ToneCurve.LutMonotone | src/features/curves/ui/CurvesDialog.tsx:56-65 | With x0 ≤ x1 and y0 ≤ y1, the table never decreases. |
| ToneCurve.Remap | src/features/curves/ui/CurvesDialog.tsx:67-80 | The result has the same size. Each sample of an affected channel goes through the table: R, G, B for `rgb`, otherwise only the named offset. Every other sample is unchanged. |
| ToneCurve.ApplyLut | src/features/curves/ui/CurvesDialog.tsx:67-80 | The in-place loop over pixels computes the remapped buffer. |
| ToneCurve.RemapSample | src/features/curves/ui/CurvesDialog.tsx:70-77 | Per pixel and channel, an affected sample is looked up in the table and alpha under `rgb` is left alone. |
| ToneCurve.RemapIdentity | src/features/curves/ui/CurvesDialog.tsx:67-80 | The identity table leaves the buffer unchanged. |
| ToneCurve.RemapCompose | src/features/curves/ui/CurvesDialog.tsx:67-80 | Remapping twice equals one remap through the composed table. |
| ToneCurve.NeutralCurveChangesNothing | src/features/curves/ui/CurvesDialog.tsx:56-80 | The default curve leaves any buffer unchanged on any channel. |
| ToneCurve.Preview | src/features/curves/ui/CurvesDialog.tsx:114-124 | There is a preview exactly when preview is on and the layer has pixel data. It is the remapped copy. |
| ToneCurve.ApplyCurves | src/features/curves/ui/CurvesDialog.tsx:136-150 | Without pixel data nothing is applied. Otherwise the caller receives the remapped copy and the control points. |
| ToneCurve.ApplyNeutral | src/features/curves/ui/CurvesDialog.tsx:136-150 | Applying the default curve hands back the layer's own pixels. |
| Colour.Linearise | src/entities/color/model/colorUtils.ts:62-64 | The sRGB transfer function fixes 0, fixes 1 when pow(1, 2.4) = 1, and keeps a channel in [0, 1] inside [0, 1] when pow does. |
| Colour.RgbToXyz | src/entities/color/model/colorUtils.ts:57-71 | Black maps to XYZ (0, 0, 0). White maps to (95.05, 100, 108.9), the matrix row sums. For channels in [0, 255] each component lies between 0 and that row sum. |
| Colour.LabCompand | src/entities/color/model/colorUtils.ts:78 | The companding gives 16/116 at 0 and 1 at 1 when cbrt(1) = 1. On [0, 1] it stays within [16/116, 1] for a sound cube root. |
| Colour.LabCompandMonotone | src/entities/color/model/colorUtils.ts:78 | For a sound cube root the companding never decreases, including across the 0.008856 threshold. |
| Colour.XyzToLab | src/entities/color/model/colorUtils.ts:73-89 | A colour in the D65 white's X:Y proportion has a = 0, one in its Y:Z proportion has b = 0, and a Y in [0, 100] gives L in [0, 100] for a sound cube root. |
| Colour.LabMonotone | src/entities/color/model/colorUtils.ts:73-89 | For a sound cube root, L rises with Y. With Y held, a rises with X and b falls with Z. |
| Colour.BlackLab | src/entities/color/model/colorUtils.ts:73-89 | XYZ (0, 0, 0) maps to Lab (0, 0, 0). |
| Colour.WhitePointLab | src/entities/color/model/colorUtils.ts:53-89 | The D65 white maps to Lab (100, 0, 0), given cbrt(1) = 1. |
| Colour.WhiteRgbLightness | src/entities/color/model/colorUtils.ts:57-89 | sRGB white, taken through both conversions, has L exactly 100. |
| Colour.LabComponents | src/entities/color/model/colorUtils.ts:84-86 | L depends on Y alone, a on X and Y, and b on Y and Z. |
| Colour.LabToLch | src/entities/color/model/colorUtils.ts:91-97 | Lightness passes through, and the chroma is sqrt(a² + b²). |
| Colour.LchRanges | src/entities/color/model/colorUtils.ts:92-94 | Given that atan2 lies in [−π, π], the chroma is at least 0 and the hue lies in [0, 360). |
| Colour.NeutralHasNoChroma | src/entities/color/model/colorUtils.ts:92 | a = b = 0 gives chroma 0. |
| Colour.LabToOklch | src/entities/color/model/colorUtils.ts:99-101 | The placeholder keeps L and reports chroma 0 and hue 0, ignoring a and b. |
| Colour.OklchAgreesWithLch | src/entities/color/model/colorUtils.ts:91-101 | The placeholder agrees with LCh on lightness, and on chroma for neutral colours. |
| Colour.ChannelLuminance | src/entities/color/model/colorUtils.ts:107-110 | The WCAG channel curve gives 0 for 0 and 1 for 255 when pow(1, 2.4) = 1. It keeps a channel in [0, 255] within [0, 1] when pow is sound. |
| Colour.ThresholdsAgree | src/entities/color/model/colorUtils.ts:62-110 | For whole-number channels the 0.03928 and 0.04045 thresholds select the same branch. |
| Colour.LuminanceIsY | src/entities/color/model/colorUtils.ts:57-117 | For whole-number channels in 0..255, the luminance is rgbToXyz's Y over 100. |
| Colour.Luminance | src/entities/color/model/colorUtils.ts:106-117 | Black has luminance 0 and white 1 (given pow(1, 2.4) = 1). For channels in [0, 255] the luminance lies in [0, 1] when pow is sound. |
| Colour.ContrastSymmetric | src/entities/color/model/colorUtils.ts:120-124 | The contrast ratio does not depend on the order of its arguments. |
| Colour.ContrastRatio | src/entities/color/model/colorUtils.ts:120-124 | The ratio is at least 1, and equals 1 exactly when the two luminances are equal, in both directions. |
| Colour.ContrastAtMost21 | src/entities/color/model/colorUtils.ts:121-123 | With luminances in [0, 1] the ratio is at most 21. |
| Colour.AccessibleIffLuminanceGap | src/entities/color/model/colorUtils.ts:120-128 | The 4.5:1 check passes exactly when the lighter luminance + 0.05 is at least 4.5 times the darker + 0.05. |
| Colour.IsAccessible | src/entities/color/model/colorUtils.ts:126-128 | The 4.5:1 threshold is inclusive. What it means for two colours is stated by `Colour.AccessibleIffLuminanceGap`. |
| Colour.WhiteOnBlack | src/entities/color/model/colorUtils.ts:106-128 | White on black is 21:1 and passes, given pow(1, 2.4) = 1. |
| Colour.SameColourFails | src/entities/color/model/colorUtils.ts:120-128 | A colour against itself is 1:1 and fails. |
| Layers.AddFillLayer | src/features/layers/ui/LayerManager.tsx:63-84 | Adding is refused exactly when the stack already holds maxLayers layers. Otherwise one layer is appended after the unchanged list. The index reported for activation is the new layer's. The new layer has the given id, name and colour, is visible with alpha visible, opacity 1 and normal mode, and has no image, pixel data, saved original or curve. |
| Layers.AddKeepsCapacity | src/features/layers/ui/LayerManager.tsx:63-67 | Adding never takes the stack beyond maxLayers. |
| Layers.MoveLayer | src/features/layers/ui/LayerManager.tsx:159-165 | The layer swaps with index ∓ 1, and every other position is kept. A target out of range leaves the list unchanged. Length and the multiset of layers are preserved. |
| Layers.MoveUpThenDown | src/features/layers/ui/LayerManager.tsx:159-165 | Moving a layer up and then back down restores the list. |
| Layers.MoveAtEnds | src/features/layers/ui/LayerManager.tsx:160-161 | Moving the first layer up, or the last layer down, changes nothing. |
| Layers.ToggleVisible | src/features/layers/ui/LayerManager.tsx:167-171 | Only that layer's `visible` flips, and every other layer is unchanged. |
| Layers.ToggleAlphaVisible | src/features/layers/ui/LayerManager.tsx:173-177 | Only that layer's `alphaVisible` flips, and every other layer is unchanged. |
| Layers.ToggleTwice | src/features/layers/ui/LayerManager.tsx:167-177 | Toggling either flag twice restores the list. |
| Layers.DeleteAlpha | src/features/layers/ui/LayerManager.tsx:185-189 | Only that layer's alpha image is dropped. |
| Layers.ChangeOpacity | src/features/layers/ui/LayerManager.tsx:225-229 | Only that layer's opacity changes, to the new value. |
| Layers.ChangeBlendMode | src/features/layers/ui/LayerManager.tsx:231-235 | Only that layer's blend mode changes, to the new value. |
| Layers.SettingsOverride | src/features/layers/ui/LayerManager.tsx:225-235 | A later setting of the same field overrides an earlier one. |
| Layers.SettingsRestore | src/features/layers/ui/LayerManager.tsx:225-235 | Setting the old value back restores the list. |
| Layers.DeleteLayer | src/features/layers/ui/LayerManager.tsx:179-183 | Exactly the layer at the index is removed, whichever layer it is, and the rest keep their order. An index past the end changes nothing. |
| Layers.DeleteThenReinsert | src/features/layers/ui/LayerManager.tsx:179-183 | Putting the deleted layer back at its index restores the list, so the multiset loses exactly that layer. |
| Layers.DeleteCurves | src/features/layers/ui/LayerManager.tsx:191-223 | With a saved original, the pixel data and image are restored from it, and the saved copy and curve are cleared. Without one, only the curve is cleared. |
| Layers.DeleteCurvesKeepsPixels | src/features/layers/ui/LayerManager.tsx:216-222 | Without a saved original, the pixels and the image are kept. |
| Layers.DeleteCurvesIdempotent | src/features/layers/ui/LayerManager.tsx:191-223 | Deleting the curve twice equals deleting it once. |
| Compositor.FindBase | src/App.tsx:30 | The index found is that of the first layer with id "base-layer", and there is none exactly when no layer has that id. |
| Compositor.UpsertBaseLayer | src/App.tsx:26-52 | Without an image element the list is untouched. Without a base layer, one is put at index 0: visible, alpha visible, opacity 1, normal mode. Otherwise only the base layer's image is replaced. |
| Compositor.UpsertShowsImage | src/App.tsx:30-51 | After an upsert with an image, there is a base layer showing that image. |
| Compositor.UpsertIdempotent | src/App.tsx:26-52 | Loading the same image again changes nothing. |
| Compositor.UpsertLength | src/App.tsx:32-51 | The list grows by one exactly when an image arrives and there was no base layer. |
| Compositor.OpFor | src/App.tsx:71-81 | multiply, screen and overlay map to their own operations, and anything else maps to source-over. |
| Compositor.DimensionOr | src/App.tsx:59-60 | `d \|\| fallback`: an absent or zero dimension falls back. |
| Compositor.LayerDraws | src/App.tsx:78-95 | A hidden layer draws nothing. A visible one issues one content draw when it has an image or a non-empty fill colour, plus one alpha-preview draw when its alpha is shown. The content draw is the image when there is one, otherwise the fill, with the layer's opacity and mapped mode. A layer with an image issues no fill. The alpha draw comes last, source-over at half the opacity. |
| Compositor.Composite | src/App.tsx:54-95 | An empty stack has no composite. Otherwise the canvas is at least 1×1. Its size is layer 0's natural size, each axis falling back to 800 or 600 when that size is 0 or there is no image. The draws are the stack's, in order. |
| Compositor.DrawsAppend | src/App.tsx:78 | The draws of a stack are those of its parts, in array order. |
| Compositor.HiddenLayerDrawsNothing | src/App.tsx:79 | A hidden layer contributes nothing, wherever it sits. |
| Compositor.DrawsBound | src/App.tsx:78-95 | A stack of n layers issues at most 2n draws. |
| Compositor.AllHiddenDrawNothing | src/App.tsx:78-79 | With every layer hidden, nothing is drawn. |
| Compositor.ToggleTwiceSameComposite | src/App.tsx:54-95 | Toggling a layer's visibility twice gives the same composite. |

## Where the description and the code differ

The model follows the code.

- The GB7 reader does not reject every bad file with a value. A zero width or height passes its checks, and then creating the pixel buffer throws, so the promise is rejected (`Gb7.Outcome.Rejected`).
- The writer has no clamp to [0, 127]. `Gb7.Quantise` shows that none is needed.
- `getLuminance` does not use the same curve as `rgbToXyz`. Its threshold is 0.03928, not 0.04045. They agree on whole-number channels (`Colour.ThresholdsAgree`).
- The base layer is not protected: `deleteLayer` removes any index.
- The composite is sized by layer 0's image, with 800×600 as the fallback, not by the base layer. Layer 0 may be another layer after a move or a delete.
- A visible layer with no image and no fill is not skipped as a whole: its alpha preview is still drawn.
- `applyLUT` changes its argument in place. The dialog passes it a copy, so the model treats it as a function to a new buffer (`ToneCurve.ApplyLut`, `ToneCurve.Preview`, `ToneCurve.ApplyCurves`).
- With x0 = 0, entry 0 of the table is 0 (0/0 stored as 0), not the identity.
- Stores into the output buffers of the resampler and the filter round half to even. This is modelled, not left out.
- After adding a layer, the layer panel reports the new index through `onSetActiveLayerIndex`. The app mounts the panel without that callback (`src/App.tsx:148`), so the call throws after the list has changed. The layer is added, but nothing becomes active and the add dialog stays open. `Layers.AddFillLayer` gives the index the panel reports; the failing callback is not modelled.
- `lut[255] = 255` needs x0 < 255 as well as x1 < 255. With x0 = 255 the first piece covers index 255 and gives y0.

## Left out

- The image-element, canvas, `FileReader` and `toDataURL` plumbing around the reader, the writer's download, the file branch of `handleAddLayer`, and the asynchronous restore in `deleteCurves`. These are browser I/O. `deleteCurves` takes the rebuilt element as a parameter, and the case where no 2D context is available is not modelled.
- The pixel arithmetic of the canvas blend modes and of `drawImage`. It is library behaviour, so only the draw commands are modelled. The canvas also ignores a `globalAlpha` outside [0, 1], and that is not modelled.
- IEEE-754 rounding. All arithmetic is on exact reals, so `Gb7.EncodeRed` and `Resample.Lerp` state exact values.
- `Math.pow`, `Math.cbrt`, `Math.sqrt` and `Math.atan2` are parameters. Only the facts listed on each lemma are assumed about them.
- The colour-info panel and the eyedropper that call the colour utilities, the scale dialog, the image canvas and the status bar. They are UI outside the modelled core.
- The SVG drawing of the curve and histograms, and the dialog's text fields.
- `Number("abc")` as a control point (NaN) and `parseFloat` returning ±Infinity. Control points are reals in [0, 255], and grid entries are NaN or finite.
- Convolution.ApplyKernel: requires every kernel row to have at least `kernel.length` weights (`IsSquare`). A shorter row would read `undefined` and turn the sums into NaN.
- The empty preview effect of the kernel dialog, which has no body yet.
- The Russian display names of the kernel presets.
- `genId`, which is random. Ids are parameters.
- Layers.MoveLayer: requires an existing index, which is all the panel passes. For index = length the source would grow the array with a hole.
- Layers.ToggleVisible: requires an existing index, as do ToggleAlphaVisible, DeleteAlpha, ChangeOpacity, ChangeBlendMode and DeleteCurves. Out of range, the source throws on `undefined`.
- Blend-mode strings that are property names of `Object.prototype` (such as "constructor"), whose lookup is not `undefined`. `Compositor.OpFor` maps every string other than the three named modes to source-over.
- The mutation of shared layer objects in place. Each operation is modelled on values, which is what the returned list shows.

## Findings

| source | as written | input that shows it | evidently intended | confidence | as-written member | corrected member |
|---|---|---|---|---|---|---|
| src/features/filters/model/applyKernel.ts:44-55 | Alpha is overwritten at every tap, so the output takes the alpha of the last tap, the bottom-right of the window. | The 2×1 image [transparent black, opaque black] with the 3×3 identity kernel: pixel (0, 0) comes out opaque. | Alpha is not convolved and each pixel keeps its own alpha, so the identity preset leaves the image unchanged. | not executed | Convolution.IdentityKernelMovesAlpha | Convolution.ImpulseKeepsImage |
| src/features/filters/ui/KernelFilterDialog.tsx:47-73 | `[...kernel]` copies only the outer array, so an edit writes into the rows of the preset table. | Open the dialog, type 3 into the centre cell, press reset: the identity preset now has 3 at its centre, and so does the grid. | Reset restores the identity kernel whatever was edited before. | not executed | KernelDialog.SharedResetFails | KernelDialog.CopiedResetIsIdentity |
