# Texture toolkit pixel engine, sun/moon field and contrast rule, in Dafny

This project models the logic of five parts of a personal web site.

- **Texture channel splitter.** It renders each channel (red, green, blue, alpha) of an RGBA texture as a separate image. The image is either a gray mask or the isolated colour.
- **Texture channel combiner.** It builds one RGBA texture from up to four channel images. A channel with no image takes a fill level (0, 128 or 255).
- **Texture resizer.** This covers the decisions only: the target size in percentage, preset and explicit-size mode; the aspect lock; the positivity guard; the MIME type and quality handed to the encoder; the download file name. The resampling itself is not modelled.
- **Sun/moon puzzle field.** A click cycles a block through empty, sun and moon. A sun or moon is flagged when its row or column holds more than two suns or more than two moons.
- **YIQ contrast rule.** It picks black or white text for an RGB background.

Rasters are byte buffers in R, G, B, A order, four bytes per pixel, `width * height * 4` bytes long. The places where the source loops over a buffer or mutates a copy are Dafny methods over arrays, with loop invariants:

- `ChannelSplitter.ExtractChannel` and its loop `FillChannel`;
- `ChannelCombiner.AssemblePixels` and its loop `FillPixels`;
- the marking loops of `SunMoonField.HandleBlockClick`.

Each of these methods is proved equal to a pure function: `Extract`, `Combined` or `Click`. The properties are proved as lemmas about those functions. The component state becomes three classes: `Splitter`, `Combiner` and `Resizer`. Their methods are the event handlers.

Files:

- `pixels.dfy`: `Option`, bytes, channels and the `PerChannel` record.
- `splitter.dfy`: the splitter.
- `combiner.dfy`: the combiner.
- `splitcombine.dfy`: what happens when the splitter's outputs are fed into the combiner.
- `resizer.dfy`: decimal rendering of numbers, and the resizer.
- `field.dfy`: the puzzle field.
- `yiq.dfy`: the contrast rule.

The code and the intent it states disagree in places, and the model follows the code:

- **Colour-mode round trip.** Splitting a texture in colour mode and combining the four images brings back red, green and blue, but alpha comes back as 0, not as the source alpha. The reason: the colour-mode alpha image has colour bytes (0, 0, 0), and the combiner reads only a slot's colour bytes (`SplitCombine.ColourRoundTrip`). Grayscale mode does round-trip exactly (`SplitCombine.GrayscaleRoundTrip`).
- **Preset lookup.** A preset name that is empty or not in the table does not fail. It falls through to the typed target size.
- **Field threshold.** The comments on the field's checks say "2 or more". The code flags a row or column only with more than 2 suns or more than 2 moons, and the model uses `> 2`.
- **Contrast doc comment.** The doc comment of `getContrastColor` says it returns black for dark backgrounds. The code returns black for bright backgrounds (brightness at least 128), and the model follows the code.
- **Resizer download name.** The name is computed from the settings at the time of the download, not from the size the result was made at. `Resizer.DownloadName` therefore reads the current settings.

## Model

| member | source | states |
|---|---|---|
| Pixels.Offset | src/app/texturemanipulator/components/texturechannelsplitter.tsx:111-114 | each channel has its own byte position inside a pixel: R 0, G 1, B 2, A 3 |
| Pixels.ChannelName | src/app/texturemanipulator/components/texturechannelsplitter.tsx:7 | the names `red`, `green`, `blue`, `alpha`; `ChannelNameInjective` proves them distinct |
| Pixels.PerChannel.Set | src/app/texturemanipulator/components/texturechannelcombiner.tsx:121-128 | replacing one channel's entry of a four-channel record changes that entry and leaves the other three as they were |
| Pixels.ChannelNameInjective | src/app/texturemanipulator/components/texturechannelsplitter.tsx:7 | different channels have different names |
| ChannelSplitter.ExtractPixel | src/app/texturemanipulator/components/texturechannelsplitter.tsx:116-135 | the rendering of one pixel is again a four-byte pixel |
| ChannelSplitter.Extract | src/app/texturemanipulator/components/texturechannelsplitter.tsx:107-110 | the output buffer has as many bytes as the source |
| ChannelSplitter.ExtractByteAt | src/app/texturemanipulator/components/texturechannelsplitter.tsx:110-135 | the pixel-by-pixel rendering agrees, byte for byte, with an independent byte-at-a-time statement of what the loop writes at `i`, `i+1`, `i+2`, `i+3` |
| ChannelSplitter.ExtractIsPerPixel | src/app/texturemanipulator/components/texturechannelsplitter.tsx:110-135 | output pixel p is the rendering of source pixel p and depends on nothing else |
| ChannelSplitter.FromPixelBytes | src/app/texturemanipulator/components/texturechannelsplitter.tsx:110-135 | a buffer with the right byte at every pixel and position is the whole rendering |
| ChannelSplitter.GrayscaleOutput | src/app/texturemanipulator/components/texturechannelsplitter.tsx:116-128 | in grayscale mode all four bytes of every output pixel, alpha included, are the selected channel's source byte |
| ChannelSplitter.ColourOutput | src/app/texturemanipulator/components/texturechannelsplitter.tsx:130-134 | in colour mode for red, green or blue, that byte is copied, the other two colour bytes are 0 and alpha is 255 |
| ChannelSplitter.ColourAlphaOutput | src/app/texturemanipulator/components/texturechannelsplitter.tsx:130-134 | in colour mode for alpha, red, green and blue are 0 and alpha is the source alpha |
| ChannelSplitter.GrayscaleIdempotent | src/app/texturemanipulator/components/texturechannelsplitter.tsx:116-128 | grayscale-extracting any channel of a grayscale-extracted image returns that image unchanged |
| ChannelSplitter.ColourIdempotent | src/app/texturemanipulator/components/texturechannelsplitter.tsx:130-134 | colour-extracting the same channel twice equals extracting it once |
| ChannelSplitter.ExtractChannel | src/app/texturemanipulator/components/texturechannelsplitter.tsx:94-140 | a fresh buffer of `width * height * 4` bytes holding the rendering of the source; the source array is not modified |
| ChannelSplitter.FillChannel | src/app/texturemanipulator/components/texturechannelsplitter.tsx:110-136 | the loop stepping four bytes at a time leaves the target buffer equal to the rendering of the source |
| ChannelSplitter.AllChannelImages | src/app/texturemanipulator/components/texturechannelsplitter.tsx:86-91 | each of the four channel images is that channel's rendering in the one given mode |
| ChannelSplitter.DownloadName | src/app/texturemanipulator/components/texturechannelsplitter.tsx:148 | the name `<channel>-channel.png`; `DownloadNames` pins it down |
| ChannelSplitter.DownloadNames | src/app/texturemanipulator/components/texturechannelsplitter.tsx:148 | the download name is the channel name followed by `-channel.png`; different channels never share a name |
| ChannelSplitter.Splitter.constructor | src/app/texturemanipulator/components/texturechannelsplitter.tsx:11-27 | no source, size 0 by 0, grayscale mode, four empty channel images |
| ChannelSplitter.Splitter.UpdateChannelImages | src/app/texturemanipulator/components/texturechannelsplitter.tsx:80-92 | with no source pixels or width 0 nothing changes; otherwise all four images are regenerated in the given mode |
| ChannelSplitter.Splitter.Load | src/app/texturemanipulator/components/texturechannelsplitter.tsx:57-76 | the decoded pixels and natural size are stored, then the channels are rendered in the current mode |
| ChannelSplitter.Splitter.ToggleGrayscale | src/app/texturemanipulator/components/texturechannelsplitter.tsx:191-193 | the mode flips, and the images are regenerated in the new mode; source and size stay |
| ChannelSplitter.Splitter.ClearAll | src/app/texturemanipulator/components/texturechannelsplitter.tsx:155-159 | the source becomes null, the size 0 by 0 and all four images empty; the mode is kept |
| ChannelSplitter.Splitter.DownloadChannel | src/app/texturemanipulator/components/texturechannelsplitter.tsx:143-148 | nothing is saved for an empty image; otherwise the file is named `<channel>-channel.png` |
| ChannelCombiner.Max | src/app/texturemanipulator/components/texturechannelcombiner.tsx:244 | the larger of two values: at least both, and one of them |
| ChannelCombiner.ChannelIntensity | src/app/texturemanipulator/components/texturechannelcombiner.tsx:230-245 | the intensity read at a pixel is the maximum of its red, green and blue bytes, whether or not they are equal; the alpha byte is not read |
| ChannelCombiner.IntensityProperties | src/app/texturemanipulator/components/texturechannelcombiner.tsx:234-244 | the intensity is one of the three colour bytes and none of them exceeds it; two pixels with the same colour bytes have the same intensity whatever their alpha |
| ChannelCombiner.IntensityExamples | src/app/texturemanipulator/components/texturechannelcombiner.tsx:239-244 | a gray pixel (10, 10, 10) reads 10; (10, 20, 30) reads 30 |
| ChannelCombiner.Loaded | src/app/texturemanipulator/components/texturechannelcombiner.tsx:143-145 | the loaded slots are exactly the slots that hold pixels |
| ChannelCombiner.ValidateDimensions | src/app/texturemanipulator/components/texturechannelcombiner.tsx:139-160 | with no loaded slot the result is invalid with no size; it is valid exactly when every loaded slot has the first loaded slot's size, and then carries that size; otherwise there is no size |
| ChannelCombiner.LoadedNonEmpty | src/app/texturemanipulator/components/texturechannelcombiner.tsx:143-149 | the loaded list is non-empty exactly when some slot holds pixels |
| ChannelCombiner.CanCombine | src/app/texturemanipulator/components/texturechannelcombiner.tsx:298-301 | combining is enabled exactly when at least one slot is loaded, that is, when 1 to 4 slots are |
| ChannelCombiner.SomeLoadedItems | src/app/texturemanipulator/components/texturechannelcombiner.tsx:143-145 | the four slots listed in red, green, blue, alpha order contain a loaded one exactly when some channel's slot is loaded |
| ChannelCombiner.SizesAgree | src/app/texturemanipulator/components/texturechannelcombiner.tsx:175-209 | when all loaded slots have the validated size, every loaded slot's buffer has as many bytes as the output |
| ChannelCombiner.OutputByte | src/app/texturemanipulator/components/texturechannelcombiner.tsx:198-209 | one output byte: the slot's intensity when loaded, its fill level otherwise; `CombinedAt` states it of the combined buffer |
| ChannelCombiner.Combined | src/app/texturemanipulator/components/texturechannelcombiner.tsx:188-216 | the combined buffer has `w * h * 4` bytes |
| ChannelCombiner.CombinedAt | src/app/texturemanipulator/components/texturechannelcombiner.tsx:192-215 | byte `c` of output pixel q is slot c's intensity at the same index when that slot is loaded, and slot c's fill level otherwise |
| ChannelCombiner.FromOutputBytes | src/app/texturemanipulator/components/texturechannelcombiner.tsx:192-215 | a buffer holding the right byte at every pixel and channel is the combined buffer |
| ChannelCombiner.AssemblePixels | src/app/texturemanipulator/components/texturechannelcombiner.tsx:188-216 | a fresh buffer of `w * h * 4` bytes equal to the combined buffer |
| ChannelCombiner.FillPixels | src/app/texturemanipulator/components/texturechannelcombiner.tsx:192-216 | the per-pixel loop leaves the output buffer equal to the combined buffer |
| ChannelCombiner.Combiner.constructor | src/app/texturemanipulator/components/texturechannelcombiner.tsx:19-46 | four empty slots, every fill level 255, no result, not processing, no error |
| ChannelCombiner.Combiner.LoadChannel | src/app/texturemanipulator/components/texturechannelcombiner.tsx:120-130 | the decoded image replaces that channel's slot alone, and the error is cleared |
| ChannelCombiner.Combiner.LoadFailed | src/app/texturemanipulator/components/texturechannelcombiner.tsx:132-134 | the error becomes `Failed to load <channel> channel image` |
| ChannelCombiner.LoadError | src/app/texturemanipulator/components/texturechannelcombiner.tsx:133 | the message `Failed to load <channel> channel image`; `Combiner.LoadFailed` sets it |
| ChannelCombiner.Combiner.SetDefault | src/app/texturemanipulator/components/texturechannelcombiner.tsx:345-355 | one channel's fill level is set to one of 0, 128 and 255; the others stay |
| ChannelCombiner.Combiner.Combine | src/app/texturemanipulator/components/texturechannelcombiner.tsx:163-227 | on failed validation, the error is set, processing is cleared and the previous result stays; otherwise the result is the combined buffer at the validated size, with no error; slots and fill levels never change |
| ChannelCombiner.Combiner.ClearChannel | src/app/texturemanipulator/components/texturechannelcombiner.tsx:277-281 | only that channel's slot is reset; the other three are unchanged |
| ChannelCombiner.Combiner.ClearAll | src/app/texturemanipulator/components/texturechannelcombiner.tsx:260-268 | all four slots, the result and the error are reset; the fill levels stay |
| ChannelCombiner.Combiner.CanCombineNow | src/app/texturemanipulator/components/texturechannelcombiner.tsx:298-301 | combining is enabled exactly when some channel's slot holds pixels |
| ChannelCombiner.Combiner.DownloadName | src/app/texturemanipulator/components/texturechannelcombiner.tsx:248-253 | nothing is saved without a result; otherwise the file is named `combined-channels.png` |
| SplitCombine.SplitSlots | src/app/texturemanipulator/components/texturechannelsplitter.tsx:86-91 | the splitter's four images, loaded into the combiner, are well-formed slots of the source's size |
| SplitCombine.SplitSlotsValid | src/app/texturemanipulator/components/texturechannelcombiner.tsx:139-160 | the four split images pass the combiner's size check, with the source's size |
| SplitCombine.GrayscaleRoundTrip | src/app/texturemanipulator/components/texturechannelsplitter.tsx:116-128 | grayscale split then combine gives back the source buffer exactly, whatever the fill levels |
| SplitCombine.ColourIntensity | src/app/texturemanipulator/components/texturechannelcombiner.tsx:230-245 | the combiner reads a colour-split image as the kept byte for red, green or blue, and as 0 for alpha |
| SplitCombine.ColourRoundTrip | src/app/texturemanipulator/components/texturechannelsplitter.tsx:130-134 | colour split then combine restores red, green and blue of every pixel but makes alpha 0 |
| SplitCombine.ColourRoundTripExample | src/app/texturemanipulator/components/texturechannelcombiner.tsx:192-216 | an opaque pixel (12, 34, 56, 255) comes back as (12, 34, 56, 0) in colour mode and unchanged in grayscale mode |
| Decimal.DigitChar | src/app/texturemanipulator/components/textureresizer.tsx:231 | the character of a decimal digit is a digit character with that value |
| Decimal.NatToString | src/app/texturemanipulator/components/textureresizer.tsx:231 | a natural number renders as at least one character; `NatToStringDigits` and `ParseNatToString` pin down the digits |
| Decimal.NatToStringDigits | src/app/texturemanipulator/components/textureresizer.tsx:231 | a number renders as a non-empty string of digits |
| Decimal.ParseNatToString | src/app/texturemanipulator/components/textureresizer.tsx:231 | reading the rendering back as a decimal number gives the number, so different numbers render differently |
| Decimal.IntToString | src/app/texturemanipulator/components/textureresizer.tsx:231 | an integer renders as a non-empty string that starts with `-` exactly when the integer is negative |
| Decimal.IntToStringSymbols | src/app/texturemanipulator/components/textureresizer.tsx:231 | an integer renders with digits and `-` only |
| Decimal.NegativeMagnitude | src/app/texturemanipulator/components/textureresizer.tsx:231 | a negative number renders as `-` followed by its magnitude's digits |
| Decimal.IntToStringInjective | src/app/texturemanipulator/components/textureresizer.tsx:231 | different integers, negative ones included, render differently |
| TextureResizer.RoundDiv | src/app/texturemanipulator/components/textureresizer.tsx:108-109 | `Math.round(a / b)`: the integer within one half of `a / b`, halves rounded up |
| TextureResizer.RoundDivUnique | src/app/texturemanipulator/components/textureresizer.tsx:108-109 | only one integer lies within that window, so the window defines the rounding |
| TextureResizer.RoundDivExact | src/app/texturemanipulator/components/textureresizer.tsx:108-109 | rounding an exact quotient changes nothing |
| TextureResizer.SizeNameInjective | src/app/texturemanipulator/components/textureresizer.tsx:231 | a `<w>x<h>` name determines its width and height, for every pair of integers |
| TextureResizer.SizeName | src/app/texturemanipulator/components/textureresizer.tsx:231 | the `<w>x<h>` name of a size; `SizeNameInjective`, `SizeNameNoDot` and `PresetNames` pin it down |
| TextureResizer.PresetSizes | src/app/texturemanipulator/components/textureresizer.tsx:44-54 | the table has eight entries, square, the powers of two from 32 to 4096 in order |
| TextureResizer.PresetNames | src/app/texturemanipulator/components/textureresizer.tsx:44-54 | every preset is named `<width>x<height>` after its own size |
| TextureResizer.PresetNamesDistinct | src/app/texturemanipulator/components/textureresizer.tsx:44-54 | no two presets share a name |
| TextureResizer.FindPreset | src/app/texturemanipulator/components/textureresizer.tsx:114 | the result is the first table entry with that name, and there is no result exactly when no entry has it |
| TextureResizer.FindDistinct | src/app/texturemanipulator/components/textureresizer.tsx:114 | in a table with distinct names, looking up an entry's name finds that entry |
| TextureResizer.TargetDimensions | src/app/texturemanipulator/components/textureresizer.tsx:105-122 | percentage mode rounds `W * p / 100` and `H * p / 100`; preset mode with a known non-empty name gives that preset's size; an empty or unknown name, and explicit-size mode, give the typed target size |
| TextureResizer.FullPercentage | src/app/texturemanipulator/components/textureresizer.tsx:106-111 | at 100 percent the target is exactly the original size |
| TextureResizer.PresetTargets | src/app/texturemanipulator/components/textureresizer.tsx:113-117 | selecting any preset of the table gives that preset's size |
| TextureResizer.AspectLockExample | src/app/texturemanipulator/components/textureresizer.tsx:125-130 | in a fresh session with the aspect lock on, loading a 200 by 100 texture and typing width 100 gives height 50 |
| TextureResizer.AspectRoundTrip | src/app/texturemanipulator/components/textureresizer.tsx:125-130 | with the aspect lock, typing the original width back restores the original height |
| TextureResizer.MimeType | src/app/texturemanipulator/components/textureresizer.tsx:190-195 | the MIME type is `image/` followed by the format's name |
| TextureResizer.QualityValue | src/app/texturemanipulator/components/textureresizer.tsx:197-198 | png gets no quality; jpeg and webp get the quality setting divided by 100 |
| TextureResizer.Extension | src/app/texturemanipulator/components/textureresizer.tsx:230 | the extension is the format's name, except that jpeg is written `jpg` |
| TextureResizer.EncodingsDistinct | src/app/texturemanipulator/components/textureresizer.tsx:190-198 | different formats never share a MIME type or an extension |
| TextureResizer.SizeNameNoDot | src/app/texturemanipulator/components/textureresizer.tsx:231 | a size name contains no `.`, whatever the signs of its sides |
| TextureResizer.CutAt | src/app/texturemanipulator/components/textureresizer.tsx:231 | a part free of a separator and followed by it is determined by the whole string, and so is the rest |
| TextureResizer.FileNameParts | src/app/texturemanipulator/components/textureresizer.tsx:231 | the file name is `resized-`, then the size name, a dot and the extension |
| TextureResizer.FileName | src/app/texturemanipulator/components/textureresizer.tsx:229-231 | the download name `resized-<w>x<h>.<ext>`; `FileNameParts` and `FileNameInjective` pin it down |
| TextureResizer.FileNameInjective | src/app/texturemanipulator/components/textureresizer.tsx:229-231 | `resized-<w>x<h>.<ext>` names of different sizes or formats always differ, for all integer sizes, negative typed sizes included |
| TextureResizer.Resizer.constructor | src/app/texturemanipulator/components/textureresizer.tsx:15-39 | no texture, result or error; size 0 by 0; percentage mode at 100; target 800 by 600; aspect lock on; no preset; quality 90; png |
| TextureResizer.Resizer.FileRead | src/app/texturemanipulator/components/textureresizer.tsx:74-80 | loading a file sets the texture and clears the previous result and the error |
| TextureResizer.Resizer.DimensionsLoaded | src/app/texturemanipulator/components/textureresizer.tsx:87-96 | the natural size becomes the original size and the typed target size |
| TextureResizer.Resizer.DimensionsFailed | src/app/texturemanipulator/components/textureresizer.tsx:98-100 | the error becomes `Failed to load texture dimensions` |
| TextureResizer.Resizer.Target | src/app/texturemanipulator/components/textureresizer.tsx:149 | the target size of the current settings; `TargetDimensions` states it for each mode |
| TextureResizer.Resizer.SetWidth | src/app/texturemanipulator/components/textureresizer.tsx:125-131 | the width is taken as typed; with the aspect lock and an original width above 0, the height becomes the rounding of `newWidth * H / W`; otherwise the height stays |
| TextureResizer.Resizer.SetHeight | src/app/texturemanipulator/components/textureresizer.tsx:133-139 | the same with width and height exchanged |
| TextureResizer.Resizer.Resize | src/app/texturemanipulator/components/textureresizer.tsx:142-201 | nothing happens without a texture; a target side of 0 or less sets `Target dimensions must be positive numbers` and keeps the previous result; otherwise the result is the target size with the chosen MIME type and quality, and can be downloaded under its size's name |
| TextureResizer.Resizer.DownloadName | src/app/texturemanipulator/components/textureresizer.tsx:226-231 | nothing is saved without a result; otherwise the name is built from the current target size and format |
| TextureResizer.Resizer.ClearAll | src/app/texturemanipulator/components/textureresizer.tsx:242-248 | texture, result, original size, error, percentage (to 100) and preset (to none) are reset; target size, mode, format, quality and aspect lock are not touched |
| SunMoonField.Ordinal | src/components/game/types.tsx:7-11 | the values are numbered 0, 1 and 2 |
| SunMoonField.FromOrdinal | src/components/game/types.tsx:7-11 | each of 0, 1, 2 names the value with that number |
| SunMoonField.Next | src/components/game/field.tsx:27-31 | the clicked value becomes `(value + 1) % 3` |
| SunMoonField.NextCycle | src/components/game/field.tsx:27-31 | empty, sun, moon, empty: three clicks restore a value, and one or two never do |
| SunMoonField.InitialField | src/components/game/field.tsx:10-20 | the initial field is 8 by 8 blocks, all empty, unlocked and unflagged |
| SunMoonField.CountInRow | src/components/game/field.tsx:45-46 | a row holds at most as many blocks of a value as it has blocks |
| SunMoonField.CountInColumn | src/components/game/field.tsx:57-58 | a column holds at most as many blocks of a value as there are rows |
| SunMoonField.RowConflict | src/components/game/field.tsx:45-47 | a row is in conflict when it holds more than two suns or more than two moons; `ClickProperties` and `TwoSunsAllowed` pin down the threshold |
| SunMoonField.ColumnConflict | src/components/game/field.tsx:57-59 | the same for a column |
| SunMoonField.Flagged | src/components/game/field.tsx:44-66 | a block is flagged when it is a sun or a moon and its row or its column is in conflict; `ClickProperties`, `EmptyNeverFlagged` and `HandleBlockClick` relate it to the updater |
| SunMoonField.Cycled | src/components/game/field.tsx:25-42 | the copies made before marking: only the named block's value changes, to the next value; locks stay; every flag is cleared |
| SunMoonField.Click | src/components/game/field.tsx:22-69 | the updated field keeps the grid's shape |
| SunMoonField.ClickProperties | src/components/game/field.tsx:25-66 | after a click, only the named block's value has changed, every lock is kept, and a block is flagged exactly when it is a sun or a moon and its row or its column holds more than two suns or more than two moons |
| SunMoonField.SameValuesSameCounts | src/components/game/field.tsx:44-66 | counts depend only on the blocks' values, so marking flags does not change them |
| SunMoonField.RowCountsAgree | src/components/game/field.tsx:45-46 | two rows with the same values have the same counts |
| SunMoonField.ColumnCountsAgree | src/components/game/field.tsx:57-58 | two grids with the same values in a column have the same counts in it |
| SunMoonField.EmptyNeverFlagged | src/components/game/field.tsx:49 | empty blocks are never flagged |
| SunMoonField.FlagsForgotten | src/components/game/field.tsx:37-42 | the flags before a click play no part: fields with the same values and locks give the same field after the same click |
| SunMoonField.ThreeClicks | src/components/game/field.tsx:27-31 | clicking the same block three times restores every value and lock of the field |
| SunMoonField.MoonInSunRow | src/components/game/field.tsx:44-54 | turning the last of four suns in a row into a moon flags it, since the row still holds three suns |
| SunMoonField.TwoSunsAllowed | src/components/game/field.tsx:47 | two suns in a row are not a conflict: the threshold is more than two |
| SunMoonField.MarkRow | src/components/game/field.tsx:48-52 | every sun and moon of the row is flagged; nothing else changes |
| SunMoonField.MarkColumn | src/components/game/field.tsx:60-64 | every sun and moon of the column is flagged; nothing else changes |
| SunMoonField.HandleBlockClick | src/components/game/field.tsx:22-69 | the field the updater returns, built by marking rows then columns in place on a fresh copy, is the clicked field, block for block |
| Yiq.Brightness | src/app/monokai/modules/yiq.ts:15 | the brightness times 1000 is `299 r + 587 g + 114 b` |
| Yiq.ContrastColor | src/app/monokai/modules/yiq.ts:10-17 | black exactly when `299 r + 587 g + 114 b >= 128000`, white otherwise |
| Yiq.GrayThreshold | src/app/monokai/modules/yiq.ts:15-16 | a gray (v, v, v) gives black exactly when v is at least 128 |
| Yiq.Monotone | src/app/monokai/modules/yiq.ts:15-16 | raising any component never turns black text into white |
| Yiq.Examples | src/app/monokai/modules/yiq.ts:15-16 | black background: white text; white background: black text; full green: black; full red and full blue: white |

## Left out

- Decoding and encoding are left out: canvas, `Image`, `FileReader`, `getImageData`/`putImageData`, `toDataURL` and `drawImage`. These are browser I/O. A decoded image enters the splitter and the combiner as a byte buffer with its size (`Splitter.Load`, `Combiner.LoadChannel`). The resizer receives only the natural width and height (`Resizer.DimensionsLoaded`). An encoded image is represented by what the encoder is asked for (`ResizedImage`) or by the byte buffer itself.
- The resampling with smoothing in `resizeTexture` is a browser filter and is not modelled.
- Premultiplied-alpha loss in real PNG round trips belongs to the external codec. The round-trip lemmas are stated on byte buffers.
- Asynchronous callbacks, React state batching and stale closures are not modelled. Each handler runs to completion as one method. So `Resize` sets the result and clears `processing` at once, where the source does it in a later `onload` callback.
- The unavailable-canvas paths are not modelled, because the model has no canvas:
  - `extractChannel` returning an empty URL when no 2D context exists;
  - `Failed to create canvas context`;
  - `Failed to load original texture for resizing`;
  - the `Failed to combine channels: …`, `Failed to resize image: …` and `Resize failed: …` messages for thrown exceptions.
- Drag and drop, file inputs, the reset of input elements and the tab switch are input wiring. They are not modelled.
- The data URL kept as `originalTexture` is reduced to whether a texture is loaded (`Resizer.hasTexture`) or to the source buffer (`Splitter.source`).
- TextureResizer.RoundDiv: models `Math.round(W * (p / 100))` and `Math.round(newWidth * (H / W))` as exact rational rounding with halves up. The source computes in binary floating point, so a few quotients that lie exactly on a half may round differently there. The percentage and the typed sizes are taken as integers.
- Decimal.IntToString: writes integers as plain decimal digits at any size. A JavaScript template literal writes numbers from 10^21 up in exponent form (`1e+21`), so a huge typed width or height gives a different file name in the source.
- Yiq.ContrastColor: takes integer components. The source accepts any JavaScript number, and the doc comment asks for 0 to 255.
- SunMoonField.HandleBlockClick: takes the row and column counts on the copy with cycled values and cleared flags, not on the partly marked copy. Marking changes only flags, so the counts are the same (`SameValuesSameCounts`). The method requires a non-empty rectangular field, because the updater indexes `newField[0]` and reads `row[colIndex]` in every row. It assumes the previous field is not shared with other state.
- The splitter's `originalTexture` preview and the other view components (three.js page, theme provider, palette, clipboard, block view) are not part of this model.
