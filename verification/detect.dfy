/**
 * Background classification and bound detection (`detect_whitespace`).
 *
 * The detection view is a `width` x `height` grid of RGB pixels addressed as
 * `px[x][y]`. A column or row "has content" when one of its pixels is not
 * background; the detector scans columns from the left and from the right,
 * rows from the top and from the bottom, stops at the first line with
 * content, and clamps the result to a non-empty half-open box.
 */
module Detect {

  type Channel = c: int | 0 <= c <= 255

  datatype Rgb = Rgb(r: Channel, g: Channel, b: Channel)

  datatype RgbImage = RgbImage(width: nat, height: nat, px: seq<seq<Rgb>>)
  {
    predicate Valid()
    {
      |px| == width && forall x :: 0 <= x < width ==> |px[x]| == height
    }

    function At(x: nat, y: nat): Rgb
      requires Valid() && x < width && y < height
    {
      px[x][y]
    }
  }

  /** A half-open box: columns `left..right`, rows `top..bottom`. */
  datatype Box = Box(left: int, right: int, top: int, bottom: int)

  /** The two directions a scan can run across: over columns (x) or over rows (y). */
  datatype Axis = Columns | Rows

  /** The default threshold of the detector. */
  const DefaultThreshold: int := 70

  /** `is_bg`: any colour type other than "black" is treated as white. */
  predicate IsBackground(p: Rgb, colorType: string, thr: int)
  {
    if colorType == "black" then p.r <= thr && p.g <= thr && p.b <= thr
    else p.r >= 255 - thr && p.g >= 255 - thr && p.b >= 255 - thr
  }

  /** Raising the threshold only widens the background band. */
  lemma ThresholdWidensBackground(p: Rgb, colorType: string, thr: int, thr': int)
    requires thr <= thr' && IsBackground(p, colorType, thr)
    ensures IsBackground(p, colorType, thr')
  {
  }

  /**
   * With a threshold in 0..254, the chosen background tone is background and
   * the opposite tone is content.
   */
  lemma BackgroundTones(thr: int)
    requires 0 <= thr < 255
    ensures IsBackground(Rgb(255, 255, 255), "white", thr) && !IsBackground(Rgb(0, 0, 0), "white", thr)
    ensures IsBackground(Rgb(0, 0, 0), "black", thr) && !IsBackground(Rgb(255, 255, 255), "black", thr)
  {
  }

  /** `direction in ("horizontal", "both")` for columns, `("vertical", "both")` for rows. */
  predicate Scans(direction: string, axis: Axis)
  {
    match axis
    case Columns => direction == "horizontal" || direction == "both"
    case Rows => direction == "vertical" || direction == "both"
  }

  function Other(axis: Axis): Axis
  {
    if axis == Columns then Rows else Columns
  }

  /** The number of lines scanned along `axis`. */
  function Extent(img: RgbImage, axis: Axis): nat
  {
    if axis == Columns then img.width else img.height
  }

  /** The `k`-th pixel of line `line` across `axis`. */
  function PixelOn(img: RgbImage, axis: Axis, line: nat, k: nat): Rgb
    requires img.Valid() && line < Extent(img, axis) && k < Extent(img, Other(axis))
  {
    if axis == Columns then img.At(line, k) else img.At(k, line)
  }

  /** `any(not is_bg(...))` over one column or row. */
  predicate LineHasContent(img: RgbImage, colorType: string, thr: int, axis: Axis, line: nat)
    requires img.Valid() && line < Extent(img, axis)
  {
    exists k :: 0 <= k < Extent(img, Other(axis)) && !IsBackground(PixelOn(img, axis, line, k), colorType, thr)
  }

  /** Some line across `axis` has content. */
  predicate AxisHasContent(img: RgbImage, colorType: string, thr: int, axis: Axis)
    requires img.Valid()
  {
    exists i :: 0 <= i < Extent(img, axis) && LineHasContent(img, colorType, thr, axis, i)
  }

  /**
   * The forward scan from line `from` on: the first line with content, or
   * the initial value 0 when the scan finds none.
   */
  function ScanForward(img: RgbImage, colorType: string, thr: int, axis: Axis, from: nat): (edge: nat)
    requires img.Valid() && from <= Extent(img, axis)
    ensures (edge == 0 && forall i :: from <= i < Extent(img, axis) ==> !LineHasContent(img, colorType, thr, axis, i))
         || (from <= edge < Extent(img, axis) && LineHasContent(img, colorType, thr, axis, edge)
             && forall i :: from <= i < edge ==> !LineHasContent(img, colorType, thr, axis, i))
    decreases Extent(img, axis) - from
  {
    if from == Extent(img, axis) then 0
    else if LineHasContent(img, colorType, thr, axis, from) then from
    else ScanForward(img, colorType, thr, axis, from + 1)
  }

  /**
   * The backward scan over lines `below - 1` down to 0: one past the last
   * line with content, or the initial value (the extent) when it finds none.
   */
  function ScanBackward(img: RgbImage, colorType: string, thr: int, axis: Axis, below: nat): (edge: nat)
    requires img.Valid() && below <= Extent(img, axis)
    ensures (edge == Extent(img, axis) && forall i :: 0 <= i < below ==> !LineHasContent(img, colorType, thr, axis, i))
         || (0 < edge <= below && LineHasContent(img, colorType, thr, axis, edge - 1)
             && forall i :: edge <= i < below ==> !LineHasContent(img, colorType, thr, axis, i))
  {
    if below == 0 then Extent(img, axis)
    else if LineHasContent(img, colorType, thr, axis, below - 1) then below
    else ScanBackward(img, colorType, thr, axis, below - 1)
  }

  function Min(a: int, b: int): int { if a <= b then a else b }
  function Max(a: int, b: int): int { if a >= b then a else b }

  /** The box before clamping: the scan results on scanned axes, the full extent elsewhere. */
  function RawBox(img: RgbImage, colorType: string, direction: string, thr: int): Box
    requires img.Valid()
  {
    Box(if Scans(direction, Columns) then ScanForward(img, colorType, thr, Columns, 0) else 0,
        if Scans(direction, Columns) then ScanBackward(img, colorType, thr, Columns, img.width) else img.width,
        if Scans(direction, Rows) then ScanForward(img, colorType, thr, Rows, 0) else 0,
        if Scans(direction, Rows) then ScanBackward(img, colorType, thr, Rows, img.height) else img.height)
  }

  function Clamp(raw: Box, w: int, h: int): Box
  {
    var left := Max(0, Min(raw.left, w - 1));
    var right := Max(left + 1, Min(raw.right, w));
    var top := Max(0, Min(raw.top, h - 1));
    var bottom := Max(top + 1, Min(raw.bottom, h));
    Box(left, right, top, bottom)
  }

  /**
   * The box `detect_whitespace` returns. It is never empty, and for an
   * image of at least one pixel it lies inside the image.
   */
  function DetectBox(img: RgbImage, colorType: string, direction: string, thr: int): (box: Box)
    requires img.Valid()
    ensures 0 <= box.left < box.right && 0 <= box.top < box.bottom
    ensures img.width >= 1 ==> box.right <= img.width
    ensures img.height >= 1 ==> box.bottom <= img.height
  {
    Clamp(RawBox(img, colorType, direction, thr), img.width, img.height)
  }

  /** The low and high bound of a box across `axis`. */
  function Lo(box: Box, axis: Axis): int { if axis == Columns then box.left else box.top }
  function Hi(box: Box, axis: Axis): int { if axis == Columns then box.right else box.bottom }

  // ---------------------------------------------------------------------
  // The detector as the source runs it: loops with early exit.
  // ---------------------------------------------------------------------

  /** Whether line `line` across `axis` holds a non-background pixel. */
  method AnyContent(img: RgbImage, colorType: string, thr: int, axis: Axis, line: nat) returns (found: bool)
    requires img.Valid() && line < Extent(img, axis)
    ensures found == LineHasContent(img, colorType, thr, axis, line)
  {
    var k := 0;
    while k < Extent(img, Other(axis))
      invariant 0 <= k <= Extent(img, Other(axis))
      invariant forall j :: 0 <= j < k ==> IsBackground(PixelOn(img, axis, line, j), colorType, thr)
    {
      if !IsBackground(PixelOn(img, axis, line, k), colorType, thr) {
        return true;
      }
      k := k + 1;
    }
    return false;
  }

  /** `for x in range(w): if any(...): left = x; break`, with `left` starting at 0. */
  method ScanLeading(img: RgbImage, colorType: string, thr: int, axis: Axis) returns (edge: nat)
    requires img.Valid()
    ensures edge == ScanForward(img, colorType, thr, axis, 0)
  {
    edge := 0;
    var i := 0;
    while i < Extent(img, axis)
      invariant 0 <= i <= Extent(img, axis)
      invariant ScanForward(img, colorType, thr, axis, i) == ScanForward(img, colorType, thr, axis, 0)
    {
      var found := AnyContent(img, colorType, thr, axis, i);
      if found {
        edge := i;
        break;
      }
      i := i + 1;
    }
  }

  /** `for x in range(w-1, -1, -1): if any(...): right = x+1; break`, with `right` starting at `w`. */
  method ScanTrailing(img: RgbImage, colorType: string, thr: int, axis: Axis) returns (edge: nat)
    requires img.Valid()
    ensures edge == ScanBackward(img, colorType, thr, axis, Extent(img, axis))
  {
    edge := Extent(img, axis);
    var i := Extent(img, axis);
    while i > 0
      invariant 0 <= i <= Extent(img, axis)
      invariant ScanBackward(img, colorType, thr, axis, i) == ScanBackward(img, colorType, thr, axis, Extent(img, axis))
    {
      var found := AnyContent(img, colorType, thr, axis, i - 1);
      if found {
        edge := i;
        break;
      }
      i := i - 1;
    }
  }

  /** `detect_whitespace(img_rgb, color_type, direction, thr)`. */
  method DetectWhitespace(img: RgbImage, colorType: string, direction: string, thr: int) returns (box: Box)
    requires img.Valid()
    ensures box == DetectBox(img, colorType, direction, thr)
  {
    var w: int, h: int := img.width, img.height;
    var left: int, right: int, top: int, bottom: int := 0, w, 0, h;
    if Scans(direction, Columns) {
      left := ScanLeading(img, colorType, thr, Columns);
      right := ScanTrailing(img, colorType, thr, Columns);
    }
    if Scans(direction, Rows) {
      top := ScanLeading(img, colorType, thr, Rows);
      bottom := ScanTrailing(img, colorType, thr, Rows);
    }
    left := Max(0, Min(left, w - 1));
    right := Max(left + 1, Min(right, w));
    top := Max(0, Min(top, h - 1));
    bottom := Max(top + 1, Min(bottom, h));
    box := Box(left, right, top, bottom);
  }

  // ---------------------------------------------------------------------
  // What the detected box means.
  // ---------------------------------------------------------------------

  /** Across one axis the detected box is the clamp of the raw scan results. */
  lemma DetectBoxOnAxis(img: RgbImage, colorType: string, direction: string, thr: int, axis: Axis)
    requires img.Valid()
    ensures var raw := RawBox(img, colorType, direction, thr);
            var box := DetectBox(img, colorType, direction, thr);
            var e := Extent(img, axis);
            && Lo(box, axis) == Max(0, Min(Lo(raw, axis), e - 1))
            && Hi(box, axis) == Max(Lo(box, axis) + 1, Min(Hi(raw, axis), e))
            && Lo(raw, axis) == (if Scans(direction, axis) then ScanForward(img, colorType, thr, axis, 0) else 0)
            && Hi(raw, axis) == (if Scans(direction, axis) then ScanBackward(img, colorType, thr, axis, e) else e)
  {
  }

  /**
   * On a scanned axis with some content, the box runs exactly from the
   * first line with content to one past the last.
   */
  lemma {:induction false} ScannedAxisIsTight(img: RgbImage, colorType: string, direction: string, thr: int, axis: Axis)
    requires img.Valid() && Scans(direction, axis) && AxisHasContent(img, colorType, thr, axis)
    ensures var box := DetectBox(img, colorType, direction, thr);
            && 0 <= Lo(box, axis) < Hi(box, axis) <= Extent(img, axis)
            && Lo(box, axis) == ScanForward(img, colorType, thr, axis, 0)
            && Hi(box, axis) == ScanBackward(img, colorType, thr, axis, Extent(img, axis))
  {
    var e := Extent(img, axis);
    var f := ScanForward(img, colorType, thr, axis, 0);
    var g := ScanBackward(img, colorType, thr, axis, e);
    var i :| 0 <= i < e && LineHasContent(img, colorType, thr, axis, i);
    assert f <= i < g;
    DetectBoxOnAxis(img, colorType, direction, thr, axis);
  }

  /** Every line outside the box on a scanned axis is entirely background. */
  lemma OutsideBoxIsBackground(img: RgbImage, colorType: string, direction: string, thr: int, axis: Axis)
    requires img.Valid() && Scans(direction, axis)
    ensures var box := DetectBox(img, colorType, direction, thr);
            forall i :: 0 <= i < Extent(img, axis) && (i < Lo(box, axis) || Hi(box, axis) <= i) ==>
              !LineHasContent(img, colorType, thr, axis, i)
  {
    if AxisHasContent(img, colorType, thr, axis) {
      ScannedAxisIsTight(img, colorType, direction, thr, axis);
    }
  }

  /** On a scanned axis with some content, the first and last line of the box have content. */
  lemma BoxEdgesHaveContent(img: RgbImage, colorType: string, direction: string, thr: int, axis: Axis)
    requires img.Valid() && Scans(direction, axis) && AxisHasContent(img, colorType, thr, axis)
    ensures var box := DetectBox(img, colorType, direction, thr);
            && 0 <= Lo(box, axis) < Hi(box, axis) <= Extent(img, axis)
            && LineHasContent(img, colorType, thr, axis, Lo(box, axis))
            && LineHasContent(img, colorType, thr, axis, Hi(box, axis) - 1)
  {
    ScannedAxisIsTight(img, colorType, direction, thr, axis);
  }

  /**
   * An axis that is not scanned, or that is background throughout, keeps its
   * full extent: the box is not shrunk to a single line.
   */
  lemma FullExtentWithoutContent(img: RgbImage, colorType: string, direction: string, thr: int, axis: Axis)
    requires img.Valid() && Extent(img, axis) >= 1
    requires !Scans(direction, axis) || !AxisHasContent(img, colorType, thr, axis)
    ensures var box := DetectBox(img, colorType, direction, thr);
            Lo(box, axis) == 0 && Hi(box, axis) == Extent(img, axis)
  {
    DetectBoxOnAxis(img, colorType, direction, thr, axis);
  }

  /** When the first and the last line of an axis have content, that axis is not trimmed. */
  lemma ContentAtBothEndsKeepsAxis(img: RgbImage, colorType: string, direction: string, thr: int, axis: Axis)
    requires img.Valid() && Extent(img, axis) >= 1
    requires LineHasContent(img, colorType, thr, axis, 0)
    requires LineHasContent(img, colorType, thr, axis, Extent(img, axis) - 1)
    ensures var box := DetectBox(img, colorType, direction, thr);
            Lo(box, axis) == 0 && Hi(box, axis) == Extent(img, axis)
  {
    DetectBoxOnAxis(img, colorType, direction, thr, axis);
  }

  /** A background image keeps its whole extent, on every axis and in every direction. */
  lemma BackgroundImageKeepsWholeImage(img: RgbImage, colorType: string, direction: string, thr: int)
    requires img.Valid() && img.width >= 1 && img.height >= 1
    requires forall x, y :: 0 <= x < img.width && 0 <= y < img.height ==> IsBackground(img.At(x, y), colorType, thr)
    ensures DetectBox(img, colorType, direction, thr) == Box(0, img.width, 0, img.height)
  {
    FullExtentWithoutContent(img, colorType, direction, thr, Columns);
    FullExtentWithoutContent(img, colorType, direction, thr, Rows);
  }

  /** A single non-background pixel at `(x0, y0)` is cut out exactly under "both". */
  lemma SinglePixelBox(img: RgbImage, colorType: string, thr: int, x0: nat, y0: nat)
    requires img.Valid() && x0 < img.width && y0 < img.height
    requires forall x, y :: 0 <= x < img.width && 0 <= y < img.height ==>
               (IsBackground(img.At(x, y), colorType, thr) <==> x != x0 || y != y0)
    ensures DetectBox(img, colorType, "both", thr) == Box(x0, x0 + 1, y0, y0 + 1)
  {
    assert LineHasContent(img, colorType, thr, Columns, x0) by {
      assert PixelOn(img, Columns, x0, y0) == img.At(x0, y0);
    }
    assert LineHasContent(img, colorType, thr, Rows, y0) by {
      assert PixelOn(img, Rows, y0, x0) == img.At(x0, y0);
    }
    BoxEdgesHaveContent(img, colorType, "both", thr, Columns);
    BoxEdgesHaveContent(img, colorType, "both", thr, Rows);
  }

  // ---------------------------------------------------------------------
  // Detecting again on the cropped view changes nothing.
  // ---------------------------------------------------------------------

  /** `crop((l, t, r, b))` of the detection view. */
  function Crop(img: RgbImage, box: Box): (c: RgbImage)
    requires img.Valid()
    requires 0 <= box.left < box.right <= img.width && 0 <= box.top < box.bottom <= img.height
    ensures c.Valid() && c.width == box.right - box.left && c.height == box.bottom - box.top
  {
    RgbImage(box.right - box.left, box.bottom - box.top,
             seq(box.right - box.left, x requires 0 <= x < box.right - box.left =>
               img.px[x + box.left][box.top..box.bottom]))
  }

  /** Pixel (x, y) of the crop is pixel (x + left, y + top) of the image. */
  lemma CropAt(img: RgbImage, box: Box, x: nat, y: nat)
    requires img.Valid()
    requires 0 <= box.left < box.right <= img.width && 0 <= box.top < box.bottom <= img.height
    requires x < box.right - box.left && y < box.bottom - box.top
    ensures Crop(img, box).At(x, y) == img.At(x + box.left, y + box.top)
  {
  }

  /** A non-background pixel makes both its column and its row content lines. */
  lemma PixelMakesContent(img: RgbImage, colorType: string, thr: int, x: nat, y: nat)
    requires img.Valid() && x < img.width && y < img.height
    requires !IsBackground(img.At(x, y), colorType, thr)
    ensures LineHasContent(img, colorType, thr, Columns, x)
    ensures LineHasContent(img, colorType, thr, Rows, y)
  {
    assert PixelOn(img, Columns, x, y) == img.At(x, y);
    assert PixelOn(img, Rows, y, x) == img.At(x, y);
  }

  /** A non-background pixel inside any box is a content pixel of that box's crop. */
  lemma CropKeepsPixel(img: RgbImage, box: Box, colorType: string, thr: int, x: nat, y: nat)
    requires img.Valid()
    requires 0 <= box.left < box.right <= img.width && 0 <= box.top < box.bottom <= img.height
    requires box.left <= x < box.right && box.top <= y < box.bottom
    requires !IsBackground(img.At(x, y), colorType, thr)
    ensures LineHasContent(Crop(img, box), colorType, thr, Columns, x - box.left)
    ensures LineHasContent(Crop(img, box), colorType, thr, Rows, y - box.top)
  {
    var c := Crop(img, box);
    CropAt(img, box, x - box.left, y - box.top);
    PixelMakesContent(c, colorType, thr, x - box.left, y - box.top);
  }

  /** A content line of any crop is, shifted by the box's low bound, a content line of the image. */
  lemma CropLineFromImage(img: RgbImage, box: Box, colorType: string, thr: int, axis: Axis, i: nat)
    requires img.Valid()
    requires 0 <= box.left < box.right <= img.width && 0 <= box.top < box.bottom <= img.height
    requires i < Extent(Crop(img, box), axis) && LineHasContent(Crop(img, box), colorType, thr, axis, i)
    ensures i + Lo(box, axis) < Extent(img, axis)
    ensures LineHasContent(img, colorType, thr, axis, i + Lo(box, axis))
  {
    var c := Crop(img, box);
    var k :| 0 <= k < Extent(c, Other(axis)) && !IsBackground(PixelOn(c, axis, i, k), colorType, thr);
    if axis == Columns {
      CropAt(img, box, i, k);
      assert PixelOn(c, axis, i, k) == c.At(i, k);
      PixelMakesContent(img, colorType, thr, i + box.left, k + box.top);
    } else {
      CropAt(img, box, k, i);
      assert PixelOn(c, axis, i, k) == c.At(k, i);
      PixelMakesContent(img, colorType, thr, k + box.left, i + box.top);
    }
  }

  /** A content line lies inside the detected box. */
  lemma ContentLineInsideBox(img: RgbImage, colorType: string, direction: string, thr: int, axis: Axis, i: nat)
    requires img.Valid() && img.width >= 1 && img.height >= 1
    requires i < Extent(img, axis) && LineHasContent(img, colorType, thr, axis, i)
    ensures var box := DetectBox(img, colorType, direction, thr);
            Lo(box, axis) <= i < Hi(box, axis)
  {
    if Scans(direction, axis) {
      OutsideBoxIsBackground(img, colorType, direction, thr, axis);
    } else {
      FullExtentWithoutContent(img, colorType, direction, thr, axis);
    }
  }

  /** Every content line, across either axis, lies inside the detected box. */
  lemma ContentLinesInsideBox(img: RgbImage, colorType: string, direction: string, thr: int, axis: Axis)
    requires img.Valid() && img.width >= 1 && img.height >= 1
    ensures var box := DetectBox(img, colorType, direction, thr);
            forall j :: 0 <= j < Extent(img, axis) && LineHasContent(img, colorType, thr, axis, j) ==>
              Lo(box, axis) <= j < Hi(box, axis)
  {
    forall j | 0 <= j < Extent(img, axis) && LineHasContent(img, colorType, thr, axis, j)
      ensures Lo(DetectBox(img, colorType, direction, thr), axis) <= j < Hi(DetectBox(img, colorType, direction, thr), axis)
    {
      ContentLineInsideBox(img, colorType, direction, thr, axis, j);
    }
  }

  /**
   * Across `axis`, the first and the last line of the cropped view have
   * content, provided the image has any content at all.
   */
  lemma CropEdgesHaveContent(img: RgbImage, colorType: string, direction: string, thr: int, axis: Axis)
    requires img.Valid() && img.width >= 1 && img.height >= 1
    requires Scans(direction, axis) && AxisHasContent(img, colorType, thr, axis)
    ensures var box := DetectBox(img, colorType, direction, thr);
            var c := Crop(img, box);
            && Extent(c, axis) >= 1
            && LineHasContent(c, colorType, thr, axis, 0)
            && LineHasContent(c, colorType, thr, axis, Extent(c, axis) - 1)
  {
    var box := DetectBox(img, colorType, direction, thr);
    BoxEdgesHaveContent(img, colorType, direction, thr, axis);
    ContentLinesInsideBox(img, colorType, direction, thr, Other(axis));
    CropEdgesOfBox(img, box, colorType, thr, axis);
  }

  /** The crop of a box whose edge lines have content, and which spans the content of the other axis, keeps those edges. */
  lemma CropEdgesOfBox(img: RgbImage, box: Box, colorType: string, thr: int, axis: Axis)
    requires img.Valid()
    requires 0 <= box.left < box.right <= img.width && 0 <= box.top < box.bottom <= img.height
    requires Hi(box, axis) <= Extent(img, axis)
    requires LineHasContent(img, colorType, thr, axis, Lo(box, axis))
    requires LineHasContent(img, colorType, thr, axis, Hi(box, axis) - 1)
    requires forall j :: 0 <= j < Extent(img, Other(axis)) && LineHasContent(img, colorType, thr, Other(axis), j) ==>
               Lo(box, Other(axis)) <= j < Hi(box, Other(axis))
    ensures var c := Crop(img, box);
            && Extent(c, axis) >= 1
            && LineHasContent(c, colorType, thr, axis, 0)
            && LineHasContent(c, colorType, thr, axis, Extent(c, axis) - 1)
  {
    EdgeLineSurvivesCrop(img, box, colorType, thr, axis, Lo(box, axis));
    EdgeLineSurvivesCrop(img, box, colorType, thr, axis, Hi(box, axis) - 1);
  }

  /**
   * A content line inside a box is a content line of the box's crop, provided
   * the box spans every content line of the other axis.
   */
  lemma EdgeLineSurvivesCrop(img: RgbImage, box: Box, colorType: string, thr: int, axis: Axis, i: nat)
    requires img.Valid()
    requires 0 <= box.left < box.right <= img.width && 0 <= box.top < box.bottom <= img.height
    requires Lo(box, axis) <= i < Hi(box, axis) && LineHasContent(img, colorType, thr, axis, i)
    requires forall j :: 0 <= j < Extent(img, Other(axis)) && LineHasContent(img, colorType, thr, Other(axis), j) ==>
               Lo(box, Other(axis)) <= j < Hi(box, Other(axis))
    ensures LineHasContent(Crop(img, box), colorType, thr, axis, i - Lo(box, axis))
  {
    var k :| 0 <= k < Extent(img, Other(axis)) && !IsBackground(PixelOn(img, axis, i, k), colorType, thr);
    if axis == Columns {
      assert PixelOn(img, axis, i, k) == img.At(i, k);
      PixelMakesContent(img, colorType, thr, i, k);
      CropKeepsPixel(img, box, colorType, thr, i, k);
    } else {
      assert PixelOn(img, axis, i, k) == img.At(k, i);
      PixelMakesContent(img, colorType, thr, k, i);
      CropKeepsPixel(img, box, colorType, thr, k, i);
    }
  }

  /** A non-background pixel lies inside the box and is still there in the cropped view. */
  lemma PixelSurvivesCrop(img: RgbImage, colorType: string, direction: string, thr: int, x: nat, y: nat)
    requires img.Valid() && img.width >= 1 && img.height >= 1
    requires x < img.width && y < img.height && !IsBackground(img.At(x, y), colorType, thr)
    ensures var box := DetectBox(img, colorType, direction, thr);
            && box.left <= x < box.right && box.top <= y < box.bottom
            && LineHasContent(Crop(img, box), colorType, thr, Columns, x - box.left)
            && LineHasContent(Crop(img, box), colorType, thr, Rows, y - box.top)
  {
    var box := DetectBox(img, colorType, direction, thr);
    PixelMakesContent(img, colorType, thr, x, y);
    ContentLineInsideBox(img, colorType, direction, thr, Columns, x);
    ContentLineInsideBox(img, colorType, direction, thr, Rows, y);
    CropKeepsPixel(img, box, colorType, thr, x, y);
  }

  /**
   * Detection on the crop of the detection view, with the same settings,
   * returns the whole crop.
   */
  lemma RedetectOnCropKeepsAll(img: RgbImage, colorType: string, direction: string, thr: int)
    requires img.Valid() && img.width >= 1 && img.height >= 1
    ensures var c := Crop(img, DetectBox(img, colorType, direction, thr));
            DetectBox(c, colorType, direction, thr) == Box(0, c.width, 0, c.height)
  {
    var box := DetectBox(img, colorType, direction, thr);
    var c := Crop(img, box);
    KeepsAxisAfterCrop(img, colorType, direction, thr, Columns);
    KeepsAxisAfterCrop(img, colorType, direction, thr, Rows);
  }

  lemma KeepsAxisAfterCrop(img: RgbImage, colorType: string, direction: string, thr: int, axis: Axis)
    requires img.Valid() && img.width >= 1 && img.height >= 1
    ensures var c := Crop(img, DetectBox(img, colorType, direction, thr));
            var box' := DetectBox(c, colorType, direction, thr);
            Lo(box', axis) == 0 && Hi(box', axis) == Extent(c, axis)
  {
    var box := DetectBox(img, colorType, direction, thr);
    var c := Crop(img, box);
    if Scans(direction, axis) && AxisHasContent(img, colorType, thr, axis) {
      CropEdgesHaveContent(img, colorType, direction, thr, axis);
      ContentAtBothEndsKeepsAxis(c, colorType, direction, thr, axis);
    } else if Scans(direction, axis) {
      FullExtentWithoutContent(img, colorType, direction, thr, axis);
      assert !AxisHasContent(c, colorType, thr, axis) by {
        forall i | 0 <= i < Extent(c, axis) ensures !LineHasContent(c, colorType, thr, axis, i) {
          CropLineIsImageLine(img, colorType, direction, thr, axis, i);
        }
      }
      FullExtentWithoutContent(c, colorType, direction, thr, axis);
    } else {
      FullExtentWithoutContent(c, colorType, direction, thr, axis);
    }
  }

  /** On an axis that was not trimmed, a content line of the crop is a content line of the image. */
  lemma CropLineIsImageLine(img: RgbImage, colorType: string, direction: string, thr: int, axis: Axis, i: nat)
    requires img.Valid() && img.width >= 1 && img.height >= 1
    requires var box := DetectBox(img, colorType, direction, thr);
             Lo(box, axis) == 0 && i < Extent(Crop(img, box), axis)
    ensures LineHasContent(Crop(img, DetectBox(img, colorType, direction, thr)), colorType, thr, axis, i) ==>
            LineHasContent(img, colorType, thr, axis, i)
  {
    var box := DetectBox(img, colorType, direction, thr);
    if LineHasContent(Crop(img, box), colorType, thr, axis, i) {
      CropLineFromImage(img, box, colorType, thr, axis, i);
    }
  }
}
