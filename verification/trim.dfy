/**
 * The decisions `trim_whitespace` takes once the pixel work is set aside:
 * which box is cut out, how large the margin canvas is and what it is
 * filled with, and whether the result is converted to RGB before it is
 * saved. Pixel data of the original image is not tracked; an image is its
 * mode, its bands, whether its `info` holds a transparency entry, and its
 * size.
 */
module Trim {
  import opened Detect
  import opened Paths

  /** The parts of a Pillow image the trimmer inspects. */
  datatype ImageMeta = ImageMeta(mode: string, bands: seq<string>, transparencyInfo: bool)

  /** `_has_alpha`: an "A" band, or palette transparency recorded in `info`. */
  predicate HasAlpha(m: ImageMeta)
  {
    "A" in m.bands || m.transparencyInfo
  }

  /** The colour `_rgb_for_detection` composites a transparent image onto. */
  function Backdrop(colorType: string): Rgb
  {
    if colorType == "white" then Rgb(255, 255, 255) else Rgb(0, 0, 0)
  }

  /** The margin canvas when the crop has alpha: `Image.new("RGBA", ..., (0,0,0,0))`. */
  const RgbaCanvas: ImageMeta := ImageMeta("RGBA", ["R", "G", "B", "A"], false)
  const TransparentFill: seq<int> := [0, 0, 0, 0]

  /** The margin canvas otherwise: `Image.new("RGB", ..., (255,255,255))`. */
  const RgbCanvas: ImageMeta := ImageMeta("RGB", ["R", "G", "B"], false)
  const WhiteFill: seq<int> := [255, 255, 255]

  /**
   * How the crop sits in the final image: alone, or pasted at `(mw, mh)` on a
   * canvas of colour `fill`, with the crop as its own paste mask when it is RGBA.
   */
  datatype Margin = NoMargin | Margin(mw: int, mh: int, fill: seq<int>, masked: bool)

  datatype Composite = Composite(meta: ImageMeta, width: int, height: int, margin: Margin)

  /** What one call of `trim_whitespace` produces: the box it cut and the image it saves. */
  datatype Trimmed = Trimmed(box: Box, saved: Composite, converted: bool)

  /** `int(size * percent / 100.0)` for a positive percentage. */
  function MarginPixels(size: nat, percent: int): (m: nat)
    requires percent > 0
    ensures m * 100 <= size * percent < (m + 1) * 100
  {
    size * percent / 100
  }

  /** The margin step: a canvas sized from the ORIGINAL width and height. */
  function AddMargin(cropped: ImageMeta, box: Box, w: nat, h: nat, keepMarginPercent: int): Composite
  {
    var cw, ch := box.right - box.left, box.bottom - box.top;
    if keepMarginPercent > 0 then
      var mw := MarginPixels(w, keepMarginPercent);
      var mh := MarginPixels(h, keepMarginPercent);
      var canvas := if HasAlpha(cropped) then RgbaCanvas else RgbCanvas;
      var fill := if HasAlpha(cropped) then TransparentFill else WhiteFill;
      Composite(canvas, cw + 2 * mw, ch + 2 * mh, Margin(mw, mh, fill, cropped.mode == "RGBA"))
    else
      Composite(cropped, cw, ch, NoMargin)
  }

  /** The extensions whose output is forced to RGB: JPEG and BMP, saved without alpha. */
  predicate ForcesRgbExt(ext: string)
  {
    ext == ".jpg" || ext == ".jpeg" || ext == ".bmp"
  }

  /** Whether the image is converted to RGB before it is saved under extension `ext`. */
  predicate NeedsRgb(ext: string, m: ImageMeta)
  {
    ForcesRgbExt(ext) && (HasAlpha(m) || (m.mode != "RGB" && m.mode != "L"))
  }

  function DropAlpha(fill: seq<int>): seq<int>
  {
    if |fill| > 3 then fill[..3] else fill
  }

  /**
   * `convert("RGB")`: three bands, and a margin colour loses its alpha.
   * A transparency entry in `info` is carried over as Pillow does for a
   * transparency colour key.
   */
  function ConvertToRgb(img: Composite): Composite
  {
    Composite(ImageMeta("RGB", ["R", "G", "B"], img.meta.transparencyInfo), img.width, img.height,
              match img.margin
              case NoMargin => NoMargin
              case Margin(mw, mh, fill, masked) => Margin(mw, mh, DropAlpha(fill), masked))
  }

  /** The extension that decides how the output is saved. */
  function SaveExt(outputPath: string): string
  {
    Lower(Extension(outputPath))
  }

  /**
   * `trim_whitespace(image_path, output_path, keep_margin_percent, color_type, direction)`:
   * `orig` describes the opened image and `view` is its detection view, of the
   * same size. The crop keeps the original's mode and `info`.
   */
  function TrimWhitespace(orig: ImageMeta, view: RgbImage, outputPath: string, keepMarginPercent: int,
                          colorType: string, direction: string): (out: Trimmed)
    requires view.Valid()
    ensures view.width >= 1 && view.height >= 1 ==>
              0 <= out.box.left < out.box.right <= view.width && 0 <= out.box.top < out.box.bottom <= view.height
    ensures out.saved.width >= 1 && out.saved.height >= 1
  {
    var box := DetectBox(view, colorType, direction, DefaultThreshold);
    var composite := AddMargin(orig, box, view.width, view.height, keepMarginPercent);
    var converted := NeedsRgb(SaveExt(outputPath), composite.meta);
    Trimmed(box, if converted then ConvertToRgb(composite) else composite, converted)
  }

  // ---------------------------------------------------------------------
  // What the trimmer promises.
  // ---------------------------------------------------------------------

  /**
   * The final size: the crop plus twice the margin on each axis, the margin
   * being a share of the ORIGINAL size, with the crop centred; no margin
   * means the output is the crop alone, with the original's metadata.
   */
  lemma MarginCanvasSize(orig: ImageMeta, view: RgbImage, outputPath: string, p: int, colorType: string, direction: string)
    requires view.Valid()
    ensures var out := TrimWhitespace(orig, view, outputPath, p, colorType, direction);
            var cw, ch := out.box.right - out.box.left, out.box.bottom - out.box.top;
            && (p > 0 ==>
                  && out.saved.margin.Margin?
                  && out.saved.margin.mw * 100 <= view.width * p < (out.saved.margin.mw + 1) * 100
                  && out.saved.margin.mh * 100 <= view.height * p < (out.saved.margin.mh + 1) * 100
                  && out.saved.width == cw + 2 * out.saved.margin.mw
                  && out.saved.height == ch + 2 * out.saved.margin.mh
                  && (p <= 50 ==> 2 * out.saved.margin.mw <= view.width && 2 * out.saved.margin.mh <= view.height))
            && (p <= 0 ==>
                  out.saved.margin == NoMargin && out.saved.width == cw && out.saved.height == ch
                  && (out.converted || out.saved.meta == orig))
  {
    if p > 0 {
      MarginPixelsBound(view.width, p);
      MarginPixelsBound(view.height, p);
    }
  }

  /** A margin of at most 50 percent takes at most half the size on each side. */
  lemma MarginPixelsBound(size: nat, p: int)
    requires p > 0
    ensures p <= 50 ==> 2 * MarginPixels(size, p) <= size
  {
    if p <= 50 {
      MulMonotone(size, p, 50);
    }
  }

  lemma {:induction false} MulMonotone(a: nat, b: int, c: int)
    requires b <= c
    ensures a * b <= a * c
  {
    if a > 0 {
      MulMonotone(a - 1, b, c);
      assert a * b == (a - 1) * b + b;
      assert a * c == (a - 1) * c + c;
    }
  }

  /**
   * The margin colour as saved: transparent when the crop has alpha and the
   * format keeps alpha, white when the crop has no alpha, and black when an
   * alpha crop is written to JPEG or BMP (the transparent canvas loses its
   * alpha in the conversion).
   */
  lemma SavedMarginColour(orig: ImageMeta, view: RgbImage, outputPath: string, p: int, colorType: string, direction: string)
    requires view.Valid() && p > 0
    ensures var out := TrimWhitespace(orig, view, outputPath, p, colorType, direction);
            && out.saved.margin.Margin?
            && out.saved.margin.masked == (orig.mode == "RGBA")
            && out.saved.margin.fill ==
                 (if !HasAlpha(orig) then WhiteFill
                  else if ForcesRgbExt(SaveExt(outputPath)) then [0, 0, 0]
                  else TransparentFill)
  {
    assert TransparentFill[..3] == [0, 0, 0];
  }

  /**
   * When the image is converted: only for JPEG and BMP, and there exactly
   * when it has alpha or (without a margin canvas) its mode is neither RGB
   * nor L. A margin canvas is RGBA or RGB, so with a margin only alpha
   * decides.
   */
  lemma ConversionDecision(orig: ImageMeta, view: RgbImage, outputPath: string, p: int, colorType: string, direction: string)
    requires view.Valid()
    ensures var out := TrimWhitespace(orig, view, outputPath, p, colorType, direction);
            out.converted <==>
              ForcesRgbExt(SaveExt(outputPath)) && (HasAlpha(orig) || (p <= 0 && orig.mode != "RGB" && orig.mode != "L"))
  {
  }

  /**
   * JPEG and BMP outputs are RGB or L with no alpha band; every other
   * extension saves the image as it stands, so its alpha survives.
   */
  lemma SaveModePolicy(orig: ImageMeta, view: RgbImage, outputPath: string, p: int, colorType: string, direction: string)
    requires view.Valid()
    ensures var out := TrimWhitespace(orig, view, outputPath, p, colorType, direction);
            && (ForcesRgbExt(SaveExt(outputPath)) ==>
                  (out.saved.meta.mode == "RGB" || out.saved.meta.mode == "L") && "A" !in out.saved.meta.bands)
            && (!ForcesRgbExt(SaveExt(outputPath)) ==>
                  !out.converted && out.saved == AddMargin(orig, out.box, view.width, view.height, p)
                  && HasAlpha(out.saved.meta) == HasAlpha(orig))
  {
    var out := TrimWhitespace(orig, view, outputPath, p, colorType, direction);
    if !ForcesRgbExt(SaveExt(outputPath)) && p > 0 && HasAlpha(orig) {
      assert "A" in out.saved.meta.bands by {
        assert out.saved.meta.bands[3] == "A";
      }
    }
  }

  /** `d/.png` lower-cases to itself. */
  lemma DotNameLower()
    ensures Lower("d/.png") == "d/.png"
  {
    var p := "d/.png";
    assert forall i :: 0 <= i < |p| ==> Lower(p)[i] == p[i];
  }

  /** The output path of `d/.png` is `d/Remake/.png`. */
  lemma DotNameOutputPath()
    ensures OutputPath("d/.png") == "d/Remake/.png"
  {
    SplitAtSep("d", ".png");
    assert "d" + [Sep] + ".png" == "d/.png";
    assert Join("d", RemakeDir) == "d/Remake";
    assert Join("d/Remake", ".png") == "d/Remake/.png";
  }

  /** `splitext("d/Remake/.png")` finds no extension: the dot leads the base name. */
  lemma DotNameNoExtension()
    ensures Extension("d/Remake/.png") == []
  {
    SplitAtSep("d/Remake", ".png");
    assert "d/Remake" + [Sep] + ".png" == "d/Remake/.png";
    RFindIs(".png", '.', 0);
  }

  /**
   * A name made of a leading dot and a supported extension, such as `.png`,
   * is a target, yet `splitext` gives its output path no extension: the dot
   * belongs to the stem. So the conversion test finds no JPEG/BMP extension,
   * and the `save` call receives a path with no extension, which Pillow
   * rejects.
   */
  lemma DotNameHasNoSaveExt()
    ensures HasSupportedExt("d/.png")
    ensures SaveExt(OutputPath("d/.png")) == [] && !ForcesRgbExt(SaveExt(OutputPath("d/.png")))
  {
    DotNameLower();
    assert IsSuffix(".png", Lower("d/.png")) && ".png" in SupportedExts;
    DotNameOutputPath();
    DotNameNoExtension();
  }

  /**
   * Transparent areas of the detection view are background: the backdrop
   * colour is background under the colour type that chose it.
   */
  lemma BackdropIsBackground(colorType: string, thr: int)
    requires colorType == "white" || colorType == "black"
    requires thr >= 0
    ensures IsBackground(Backdrop(colorType), colorType, thr)
  {
  }
}
