# PicCut image trimmer — Dafny model

PicCut trims the uniform background border off raster images. This project
models its processing core, `processor.py`:

- **Detection** (`Detect`, detect.dfy). `is_bg` classifies a pixel as background
  when its three channels fall within a threshold band: at or below `thr` for
  "black", at or above `255 - thr` for any other colour type.
  `detect_whitespace` then scans columns from the left and from the right, and
  rows from the top and from the bottom. Each scan stops at the first line
  holding a non-background pixel. The result is clamped to a non-empty
  half-open box. The method `DetectWhitespace` keeps the source's loops with
  early exit. It is proved equal to the function `DetectBox`, and the lemmas
  state what that box means. The image is the RGB detection view, a value
  `RgbImage` addressed as `px[x][y]`. The two axes share one generic
  treatment (`Axis = Columns | Rows`).
- **Trimming policy** (`Trim`, trim.dfy). `trim_whitespace` is modelled as a
  function over image metadata (mode, bands, a transparency entry in `info`)
  and sizes:
  - which box is cropped;
  - the margin canvas size, taken from the original width and height;
  - the canvas fill: transparent if the crop has alpha (`_has_alpha`),
    white otherwise;
  - whether the image is converted to RGB before saving as `.jpg`, `.jpeg`
    or `.bmp`.
- **Paths** (`Paths`, paths.dfy). The POSIX `os.path` functions the runner
  uses (`dirname`, `basename`, `join`), `str.lower` and the `SUPPORTED_EXTS`
  suffix test. It also holds `splitext`, which `trim_whitespace` uses to pick
  the save format. `OutputPathLayout` shows that every output is
  `<dir>/Remake/<base>`.
- **Batch runner** (`Batch`, batch.dfy). `process_targets` is a method:
  - nested loops expand the inputs into targets (`CollectTargets`,
    `CollectDir`);
  - a counting loop checks for cancellation before each file, builds the
    file's output path, calls `trim_whitespace`, records one
    `"src: message"` line per failure, and reports progress `(0, total)`, then
    `(i, total)` after each attempted file. The calls it makes are returned
    as a ghost sequence, so the contract states which files were trimmed and
    where each result is written.

  The file system is a map from path to a regular file, or to a directory
  with the sequence `os.walk` yields for it. Cancellation is a function from
  the 1-based number of the file about to run to the predicate's answer. The
  outcome of each `trim_whitespace` call is an oracle on the call's arguments.

Behaviour of the code worth noting:

- An image that is background throughout keeps its whole extent on every
  axis (`BackgroundImageKeepsWholeImage`). The scans leave their initial
  values 0 and `w`/`h`, and the clamp keeps them.
- The colour type and the direction are plain strings:
  - any colour type other than `"black"` classifies pixels as on white;
  - a direction other than `"horizontal"`, `"vertical"` and `"both"` trims
    nothing;
  - `_rgb_for_detection` composites onto white only for exactly `"white"`.
    `BackdropIsBackground` states that the backdrop is background for the
    two values the GUI passes.
- Only `.jpg`, `.jpeg` and `.bmp` (compared after lower-casing) are converted
  before saving; every other extension saves the image as it stands.
- A file named only by a leading dot and a supported extension, such as
  `.png` or `..jpg`, is a target, but `splitext` gives it no extension
  because leading dots belong to the stem (`DotNameHasNoSaveExt`). Pillow
  picks the format from the extension, so saving such a file fails, and the
  failure becomes an error line.
- With a margin, an image with alpha saved as JPEG or BMP gets black margins.
  The transparent canvas `(0,0,0,0)` loses its alpha in `convert("RGB")`
  (`SavedMarginColour`).

## Model

| member | source | states |
|---|---|---|
| `Detect.IsBackground` | processor.py:40-45 | reference definition of `is_bg`: all three channels at or below `thr` for "black", at or above `255 - thr` otherwise; its properties are the two lemmas below |
| `Detect.ThresholdWidensBackground` | processor.py:40-45 | raising the threshold never turns a background pixel into content |
| `Detect.BackgroundTones` | processor.py:40-45 | for thresholds 0..254, the chosen tone is background and the opposite tone is content, in both colour types |
| `Detect.ScanForward` | processor.py:49-51 | the forward scan returns the first line with content, every line before it being background, or 0 when there is no content line |
| `Detect.ScanBackward` | processor.py:52-54 | the backward scan returns one past the last line with content, every line after it being background, or the extent when there is none |
| `Detect.RawBox` | processor.py:47-61 | reference definition of the box before clamping: the scan results on the axes the direction covers, 0 and the extent elsewhere |
| `Detect.Clamp` | processor.py:63-66 | reference definition of the clamp of lines 63-66 |
| `Detect.DetectBox` | processor.py:63-67 | the detected box is never empty, and it lies inside an image of at least one pixel: 0 <= left < right <= w, 0 <= top < bottom <= h |
| `Detect.AnyContent` | processor.py:50 | the short-circuiting `any(...)` loop answers exactly whether the line holds a non-background pixel |
| `Detect.ScanLeading` | processor.py:49-51 | the left-to-right (top-to-bottom) loop with `break` yields the forward scan result |
| `Detect.ScanTrailing` | processor.py:52-54 | the right-to-left (bottom-to-top) loop with `break` yields the backward scan result |
| `Detect.DetectWhitespace` | processor.py:30-67 | the method with its four loops and clamps returns exactly `DetectBox` |
| `Detect.ScannedAxisIsTight` | processor.py:47-66 | on a scanned axis with content, the box runs from the first content line to one past the last, inside the image |
| `Detect.OutsideBoxIsBackground` | processor.py:48-61 | on a scanned axis, every line before the box's low bound and at or after its high bound is entirely background |
| `Detect.BoxEdgesHaveContent` | processor.py:48-61 | on a scanned axis with some content, the box's first line and its last line (`right-1`, `bottom-1`) each hold a non-background pixel |
| `Detect.FullExtentWithoutContent` | processor.py:47-66 | an axis the direction does not cover, or a scanned axis that is background throughout, keeps its full extent 0..w (0..h) |
| `Detect.ContentAtBothEndsKeepsAxis` | processor.py:47-66 | when the first and the last line of an axis have content, that axis is not trimmed |
| `Detect.BackgroundImageKeepsWholeImage` | processor.py:47-66 | an all-background image yields the whole image (0, w, 0, h) in every direction, not a 1-pixel box |
| `Detect.SinglePixelBox` | processor.py:47-66 | a single non-background pixel at (x0, y0) under "both" gives exactly (x0, x0+1, y0, y0+1) |
| `Detect.Crop` | processor.py:83 | the crop of the detection view (line 83 crops the original with the same box) is a well-formed image of the box's size |
| `Detect.CropAt` | processor.py:83 | pixel (x, y) of the crop of the detection view is pixel (x+left, y+top) of the view |
| `Detect.CropKeepsPixel` | processor.py:83 | a non-background pixel inside any box makes its column and its row content lines of the crop of the detection view |
| `Detect.CropLineFromImage` | processor.py:83 | a content line i of any crop of the detection view is the content line i+low bound of the view |
| `Detect.PixelMakesContent` | processor.py:50-60 | a non-background pixel makes both its column and its row content lines |
| `Detect.ContentLineInsideBox` | processor.py:47-66 | every content line, on either axis, lies inside the detected box |
| `Detect.ContentLinesInsideBox` | processor.py:47-66 | the same for all content lines of an axis at once |
| `Detect.PixelSurvivesCrop` | processor.py:80-83 | every non-background pixel lies inside the box and is still a content pixel of the cropped view |
| `Detect.EdgeLineSurvivesCrop` | processor.py:80-83 | a content line inside a box that spans all content of the other axis is a content line of the cropped view |
| `Detect.CropEdgesOfBox` | processor.py:80-83 | when a box's first and last lines have content and it spans all content of the other axis, its crop's first and last lines have content |
| `Detect.CropEdgesHaveContent` | processor.py:80-83 | on a scanned axis with content, the cropped view's first and last lines have content |
| `Detect.CropLineIsImageLine` | processor.py:80-83 | on an axis the box did not trim, a content line of the crop is a content line of the image |
| `Detect.KeepsAxisAfterCrop` | processor.py:80-83 | detecting again on the cropped view keeps each axis whole |
| `Detect.RedetectOnCropKeepsAll` | processor.py:80-83 | with the same settings, detection on the cropped detection view returns the whole cropped view |
| `Trim.HasAlpha` | processor.py:10-14 | reference definition of `_has_alpha`: an "A" band or a transparency entry in `info` |
| `Trim.Backdrop` | processor.py:22 | reference definition of the compositing colour: white for exactly "white", black otherwise |
| `Trim.DotNameHasNoSaveExt` | processor.py:98-106 | `d/.png` passes the suffix test of lines 121/126, and its line-137 output path gets the empty extension from `splitext`, so line 99 does not convert it, and the `save` call receives a path with no extension, which Pillow rejects |
| `Trim.BackdropIsBackground` | processor.py:21-22 | the colour transparent areas are composited onto before detection is background under "white" and "black" |
| `Trim.MarginPixels` | processor.py:86-87 | the margin in pixels is the floor of size * percent / 100 |
| `Trim.AddMargin` | processor.py:85-94 | reference definition of the margin step; `MarginCanvasSize` and `SavedMarginColour` state its results |
| `Trim.ForcesRgbExt` | processor.py:99 | reference definition of the extensions saved without alpha: .jpg, .jpeg, .bmp |
| `Trim.NeedsRgb` | processor.py:99-101 | reference definition of the conversion test; `ConversionDecision` states when it holds for a trimmed image |
| `Trim.ConvertToRgb` | processor.py:102 | reference definition of `convert("RGB")` on the result: three bands, margin colour without alpha |
| `Trim.SaveExt` | processor.py:98 | reference definition of the lower-cased extension of the output path |
| `Trim.MarginPixelsBound` | processor.py:85-88 | a margin of at most 50 percent takes at most half of the original size on each side |
| `Trim.TrimWhitespace` | processor.py:69-106 | the cropped box lies inside the image, and the saved image is never empty |
| `Trim.MarginCanvasSize` | processor.py:85-94 | with p > 0 the canvas is (r-l) + 2*floor(w*p/100) by (b-t) + 2*floor(h*p/100), using the original w and h, with the crop at offset (mw, mh); with p <= 0 the output is the crop alone with the original's metadata unless converted |
| `Trim.SavedMarginColour` | processor.py:89-102 | the margin is saved transparent (alpha crop, alpha-capable format), white (no alpha), or black (alpha crop saved as JPEG/BMP); the crop is its own paste mask exactly when it is RGBA |
| `Trim.ConversionDecision` | processor.py:98-102 | the image is converted to RGB exactly when the lower-cased extension is .jpg/.jpeg/.bmp and it has alpha, or, without a margin canvas, its mode is neither RGB nor L |
| `Trim.SaveModePolicy` | processor.py:98-106 | JPEG/BMP outputs are RGB or L with no alpha band; every other extension saves the image unconverted, so it keeps its alpha |
| `Paths.Lower` | processor.py:121 | reference definition of `str.lower` on ASCII letters |
| `Paths.LowerAppend` | processor.py:121 | lower-casing distributes over concatenation, so a lower-cased suffix test looks only at the suffix |
| `Paths.HasSupportedExt` | processor.py:121 | reference definition of `f.lower().endswith(SUPPORTED_EXTS)` (also line 126) |
| `Paths.Join` | processor.py:122 | reference definition of `os.path.join` for two components; `JoinEndsWith` states its result ends with the last component |
| `Paths.JoinEndsWith` | processor.py:122 | a joined path ends with its last component |
| `Paths.ExtOf` | processor.py:98 | reference definition of the extension of `os.path.splitext` on the last component |
| `Paths.ExtOfShape` | processor.py:98 | the extension is non-empty exactly when some dot follows a non-dot character; it is then a suffix of the name that starts with its only dot |
| `Paths.Extension` | processor.py:98 | reference definition of `os.path.splitext(p)[1]`: the extension of the base name |
| `Paths.OutputPath` | processor.py:137 | reference definition of `os.path.join(os.path.dirname(src), "Remake", os.path.basename(src))`; `OutputPathLayout` states its shape |
| `Paths.Basename` | processor.py:137 | the base name holds no separator |
| `Paths.Dirname` | processor.py:137 | the directory name is empty, does not end in a separator, or consists of separators only |
| `Paths.RemakeDirLayout` | processor.py:137 | joining "Remake" to a directory name gives a path whose base name is "Remake" and whose directory is that directory |
| `Paths.OutputPathLayout` | processor.py:137 | the output path keeps the source's base name and extension and lies in the "Remake" sub-directory of the source's directory |
| `Paths.JoinKeepsSupportedExt` | processor.py:119-122 | a file name with a supported extension keeps it once joined under its directory |
| `Batch.CollectFiles` | processor.py:120-122 | the inner walk loop appends exactly the step's supported files, joined to its directory, in order |
| `Batch.CollectDir` | processor.py:118-122 | the nested walk loops append exactly the walk's supported files, joined to their directories, in walk order |
| `Batch.CollectTargets` | processor.py:116-127 | the input loop builds exactly the target list: directories expanded, supported files kept, everything else skipped |
| `Batch.FilesTargets` | processor.py:120-122 | reference definition of the supported files of one walk step, joined, in order |
| `Batch.WalkTargets` | processor.py:118-122 | reference definition of `collect_dir` over a whole walk |
| `Batch.InputTargets` | processor.py:125-127 | reference definition of what one input contributes: its walk, itself if a supported file, or nothing |
| `Batch.Targets` | processor.py:116-127 | reference definition of the target list, in discovery order |
| `Batch.FilesTargetsExactly` | processor.py:120-122 | a name becomes a target of a walk step if and only if it is in that step and has a supported extension |
| `Batch.WalkTargetsSupported` | processor.py:118-122 | every file found in a directory walk has a supported extension |
| `Batch.TargetsSupported` | processor.py:116-127 | only paths whose lower-cased name ends in one of the seven supported extensions become targets |
| `Batch.TargetsConcat` | processor.py:124-127 | targets keep discovery order: the targets of concatenated inputs are the concatenation of their targets |
| `Batch.Calls` | processor.py:133-138 | reference definition of the calls made for the attempted files: one per file, in order, each with the file as source, its `Remake` path as output and the batch settings |
| `Batch.ErrorLine` | processor.py:140 | reference definition of `f"{src}: {e}"` |
| `Batch.ErrorLog` | processor.py:136-140 | reference definition of the error list of a sequence of calls |
| `Batch.Attempted` | processor.py:133-135 | the attempted count is the number of files before the first positive cancellation check, at most the total |
| `Batch.ProcessTargets` | processor.py:108-143 | over the collected targets, progress is (0, total) then (i, total) after each attempted file; processing stops at the first positive cancellation check; the calls made are exactly `Calls` of the attempted files, each writing to its `Remake` path; the errors are the failure lines of those calls, in order |
| `Batch.CallsStep` | processor.py:133-138 | attempting one more file adds exactly that file's call |
| `Batch.TrimNext` | processor.py:136-140 | one pass of the `try` block builds the file's `Remake` path, makes the call, and extends the error list to the error log of the calls so far |
| `Batch.RunTargets` | processor.py:129-143 | the processing loop: progress (0, total) then (i, total) per attempted file, stopping at the first positive cancellation check; the calls are `Calls` of the attempted files and the errors their error log |
| `Batch.CallsWriteToRemake` | processor.py:137-138 | each call reads its source and writes to the `Remake` sub-directory of the source's directory, under the same base name and extension |
| `Batch.CancellationStopsAt` | processor.py:133-135 | when the check before file k+1 is the first positive one, exactly k files are attempted |
| `Batch.NoCancellationAttemptsAll` | processor.py:133-135 | without a positive cancellation check, every target is attempted |
| `Batch.NoErrorsIffAllSucceeded` | processor.py:136-140 | the error list is empty if and only if every attempted call ended without failure |
| `Batch.FailureCount` | processor.py:136-140 | reference definition of the number of failed calls |
| `Batch.ErrorLogCountsFailures` | processor.py:136-140 | the error list has exactly as many lines as there are failed calls |
| `Batch.ErrorLogLength` | processor.py:139-140 | there are never more error lines than attempted calls |
| `Batch.ErrorLinesAreFailures` | processor.py:139-140 | each error line is `"<src>: <message>"` for an attempted call that failed with that message |
| `Batch.FailuresAreReported` | processor.py:139-140 | each attempted call that failed has its `"<src>: <message>"` line in the error list |

## Left out

- Pixel work done by Pillow: `Image.open`, `crop`, `paste` and `save` on the original image, and the alpha blending of `_rgb_for_detection`. The detection view is an input. The original image is its mode, bands and transparency entry; which bands a mode has is Pillow's table and is given.
- `int(w * p / 100.0)` is floating point in the source. The model uses the integer floor `(w * p) / 100`, which agrees for realistic image sizes.
- `Detect.RedetectOnCropKeepsAll` is about the detection view: detection on the crop of the view returns the whole crop. Two things are not modelled. First, that the detection view of the cropped original equals the crop of the detection view; it does, because `_rgb_for_detection` composites and converts pixel by pixel. Second, a second run of `trim_whitespace` on the saved file: JPEG re-encoding changes pixel values, and a margin adds a border, so that run can find a different box.
- `str.lower` is modelled for ASCII letters only.
- Only POSIX paths with the separator `/` are modelled; Windows separators and drive letters are not.
- File-system effects: the order of `os.walk`, `os.makedirs`, reading and writing files, and the exceptions they raise. The walk is given per directory; each call's success or failure message is an oracle.
- `progress_cb` and `is_cancelled` may be `None`. The model always records the progress calls, and a missing predicate is one that always answers false.
- Trim.SaveModePolicy: for JPEG/BMP it states only that no alpha band remains, not that `_has_alpha` is false. Pillow's `convert("RGB")` can keep a palette transparency colour key in `info`, which the JPEG and BMP writers ignore.
- Running the runner on a worker thread, and everything in gui.py, ui_common.py, config.py, readme.py and piccut.py: Qt user interface, settings file and entry point. These are not part of this model.
