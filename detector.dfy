/** The badge detector of detector.js: the region a QR code's corners span
    (its centre, the extrapolated badge outline, the optional OCR crop and
    the warped OCR image), the barcodes the decode loop accepts, and the
    clean-up of the recognised text. */
module Detector {
  import opened Wrappers
  import opened Geometry
  import opened Homography
  import opened Strings
  import opened BarcodeDetector
  import opened Sequences

  // ---------------------------------------------------------------------
  // Region extrapolation

  /** The square whose corners the QR code's corner points are the images
      of: a unit square centred on the origin. */
  const UnitSquare: seq<Point> := [Point(-0.5, -0.5), Point(0.5, -0.5), Point(0.5, 0.5), Point(-0.5, 0.5)]

  /** The default projected badge outline, in QR code units. */
  const DefaultViewport: Rect := Rect(-1.8, -2.85, 3.6, 3.6)

  /** The default width of the OCR image. */
  const DefaultOcrWidth: nat := 640

  /** t maps the unit square's corners onto the first four corner points;
      it is absent only when that system is singular. */
  ghost predicate Fits(t: Transform, cornerPoints: seq<Point>)
    requires |cornerPoints| >= 4
  {
    && (t.Some? ==> forall i :: 0 <= i < 4 ==> Corresponds(t.value, UnitSquare[i], cornerPoints[i]))
    && (t.None? ==> SingularSystem(UnitSquare, cornerPoints))
  }

  /** The corners of a viewport: top-left, top-right, bottom-right and
      bottom-left. */
  function ViewportCorners(vp: Rect): (c: seq<Point>)
    ensures |c| == 4
    ensures c[0].x == c[3].x == vp.x && c[1].x == c[2].x == vp.x + vp.width
    ensures c[0].y == c[1].y == vp.y && c[2].y == c[3].y == vp.y + vp.height
  {
    [Point(vp.x, vp.y), Point(vp.x + vp.width, vp.y), Point(vp.x + vp.width, vp.y + vp.height), Point(vp.x, vp.y + vp.height)]
  }

  /** The images of a viewport's corners under t, in the order of
      ViewportCorners. */
  function Quad(t: Transform, vp: Rect): (q: seq<Option<Point>>)
    ensures |q| == 4
  {
    var c := ViewportCorners(vp);
    [TransformPointXY(t, c[0]), TransformPointXY(t, c[1]), TransformPointXY(t, c[2]), TransformPointXY(t, c[3])]
  }

  /** The quad of the unit square under a fitted transform is the corner
      points themselves, wherever the denominators are non-zero. */
  lemma UnitViewportQuad(t: Transform, cornerPoints: seq<Point>)
    requires |cornerPoints| >= 4 && t.Some? && Fits(t, cornerPoints)
    requires forall i :: 0 <= i < 4 ==> Denominator(t.value, UnitSquare[i].x, UnitSquare[i].y) != 0.0
    ensures Quad(t, Rect(-0.5, -0.5, 1.0, 1.0)) == [Some(cornerPoints[0]), Some(cornerPoints[1]), Some(cornerPoints[2]), Some(cornerPoints[3])]
  {
    assert ViewportCorners(Rect(-0.5, -0.5, 1.0, 1.0)) == UnitSquare;
    forall i | 0 <= i < 4
      ensures TransformPointXY(t, UnitSquare[i]) == Some(cornerPoints[i])
    {
      CorrespondsMaps(t.value, UnitSquare[i], cornerPoints[i]);
    }
  }

  /** The viewport narrowed to a crop given as fractions of its width and
      height. */
  function CropViewport(vp: Rect, crop: Rect): Rect {
    Rect(vp.x + crop.x * vp.width, vp.y + crop.y * vp.height, crop.width * vp.width, crop.height * vp.height)
  }

  /** A crop whose fractions lie in [0, 1] lies inside the viewport. */
  lemma CropInside(vp: Rect, crop: Rect)
    requires vp.width >= 0.0 && vp.height >= 0.0
    requires 0.0 <= crop.x && 0.0 <= crop.width && crop.x + crop.width <= 1.0
    requires 0.0 <= crop.y && 0.0 <= crop.height && crop.y + crop.height <= 1.0
    ensures var c := CropViewport(vp, crop);
      vp.x <= c.x && c.x + c.width <= vp.x + vp.width && vp.y <= c.y && c.y + c.height <= vp.y + vp.height
  {
    assert crop.x * vp.width + crop.width * vp.width == (crop.x + crop.width) * vp.width <= vp.width;
    assert crop.y * vp.height + crop.height * vp.height == (crop.y + crop.height) * vp.height <= vp.height;
    assert 0.0 <= crop.x * vp.width && 0.0 <= crop.y * vp.height;
  }

  /** The whole-viewport crop {0, 0, 1, 1} changes nothing. */
  lemma CropWhole(vp: Rect)
    ensures CropViewport(vp, Rect(0.0, 0.0, 1.0, 1.0)) == vp
  {
  }

  /** Cropping twice is cropping once by the crop of the crop. */
  lemma CropTwice(vp: Rect, a: Rect, b: Rect)
    ensures CropViewport(CropViewport(vp, a), b) == CropViewport(vp, CropViewport(a, b))
  {
    var once, inner := CropViewport(vp, a), CropViewport(a, b);
    var twice, direct := CropViewport(once, b), CropViewport(vp, inner);
    CropAxis(vp.x, vp.width, a.x, a.width, b.x, b.width);
    CropAxis(vp.y, vp.height, a.y, a.height, b.y, b.height);
    assert twice.x == direct.x && twice.width == direct.width;
    assert twice.y == direct.y && twice.height == direct.height;
  }

  /** Cropping twice along one axis, where the viewport starts at o and has
      size n, the first crop starts at ao with size an, the second at bo
      with size bn. */
  lemma CropAxis(o: real, n: real, ao: real, an: real, bo: real, bn: real)
    ensures (o + ao * n) + bo * (an * n) == o + (ao + bo * an) * n
    ensures bn * (an * n) == (bn * an) * n
  {
    Assoc(bo, an, n);
    Assoc(bn, an, n);
    AddTimes(ao, bo * an, n);
  }

  lemma Assoc(p: real, q: real, r: real)
    ensures p * (q * r) == (p * q) * r
  {
  }

  lemma AddTimes(p: real, q: real, r: real)
    ensures (p + q) * r == p * r + q * r
  {
  }

  /** The viewport the OCR image shows: the viewport, cropped when a crop
      is set. */
  function OcrViewport(vp: Rect, ocrRectangle: Option<Rect>): Rect {
    if ocrRectangle.Some? then CropViewport(vp, ocrRectangle.value) else vp
  }

  /** `Math.floor(a / d)` for a positive d: the k with k * d <= a < (k + 1) * d. */
  function FloorDiv(a: real, d: real): (k: int)
    requires d != 0.0
    ensures k as real <= a / d < k as real + 1.0
    ensures d > 0.0 ==> k as real * d <= a < (k as real + 1.0) * d
    ensures d < 0.0 ==> (k as real + 1.0) * d < a <= k as real * d
  {
    var e := a / d;
    FloorBounds(e);
    if d > 0.0 then
      ScaleBounds(e.Floor as real, e, d, a);
      e.Floor
    else
      ScaleBoundsNegative(e.Floor as real, e, d, a);
      e.Floor
  }

  /** The OCR image height that keeps the viewport's aspect ratio at the
      given width, rounded down. */
  function OcrHeight(vp: Rect, ocrWidth: nat): int
    requires vp.width != 0.0
  {
    FloorDiv(vp.height * (ocrWidth as real), vp.width)
  }

  /** The OCR image height is the viewport's aspect ratio times the width,
      rounded down: less than one row short of square pixels, for a
      viewport of either orientation. A viewport whose width and height do
      not have opposite signs, a mirrored one (both negative) included,
      gives a non-negative height. */
  lemma OcrHeightAspect(vp: Rect, ocrWidth: nat)
    requires vp.width != 0.0
    ensures vp.width > 0.0 ==> OcrHeight(vp, ocrWidth) as real * vp.width <= vp.height * (ocrWidth as real)
    ensures vp.width > 0.0 ==> vp.height * (ocrWidth as real) < (OcrHeight(vp, ocrWidth) as real + 1.0) * vp.width
    ensures vp.width < 0.0 ==> (OcrHeight(vp, ocrWidth) as real + 1.0) * vp.width < vp.height * (ocrWidth as real)
    ensures vp.width < 0.0 ==> vp.height * (ocrWidth as real) <= OcrHeight(vp, ocrWidth) as real * vp.width
    ensures (vp.height >= 0.0 && vp.width > 0.0) || (vp.height <= 0.0 && vp.width < 0.0) ==> OcrHeight(vp, ocrWidth) >= 0
  {
    OcrHeightNonNegative(vp, ocrWidth);
  }

  /** The sign part of OcrHeightAspect. */
  lemma OcrHeightNonNegative(vp: Rect, ocrWidth: nat)
    requires vp.width != 0.0
    ensures (vp.height >= 0.0 && vp.width > 0.0) || (vp.height <= 0.0 && vp.width < 0.0) ==> OcrHeight(vp, ocrWidth) >= 0
  {
    var n := vp.height * (ocrWidth as real);
    var k := FloorDiv(n, vp.width);
    if vp.height >= 0.0 && vp.width > 0.0 {
      MulNonNegative(vp.height, ocrWidth as real);
      DivNonNegative(n, vp.width);
      FloorNonNegative(n / vp.width, k);
    } else if vp.height <= 0.0 && vp.width < 0.0 {
      MulNonPositive(vp.height, ocrWidth as real);
      DivBothNonPositive(n, vp.width);
      FloorNonNegative(n / vp.width, k);
    }
  }

  lemma DivNonNegative(n: real, w: real)
    requires n >= 0.0 && w > 0.0
    ensures n / w >= 0.0
  {
  }

  lemma DivBothNonPositive(n: real, w: real)
    requires n <= 0.0 && w < 0.0
    ensures n / w >= 0.0
  {
  }

  lemma FloorNonNegative(q: real, k: int)
    requires k as real <= q < k as real + 1.0 && q >= 0.0
    ensures k >= 0
  {
  }

  lemma FloorBounds(x: real)
    ensures x.Floor as real <= x < x.Floor as real + 1.0
  {
  }

  /** h <= e < h + 1 scaled by a positive d, where n is e * d. */
  lemma ScaleBounds(h: real, e: real, d: real, n: real)
    requires h <= e && e < h + 1.0 && d > 0.0 && e * d == n
    ensures h * d <= n && n < (h + 1.0) * d
  {
    ScaledAtMost(h, e, d);
    var next := h + 1.0;
    ScaledBelow(e, next, d);
    assert n < next * d;
  }

  lemma ScaledAtMost(x: real, y: real, d: real)
    requires x <= y && d > 0.0
    ensures x * d <= y * d
  {
  }

  lemma ScaledBelow(x: real, y: real, d: real)
    requires x < y && d > 0.0
    ensures x * d < y * d
  {
  }

  lemma MulNonNegative(a: real, b: real)
    requires a >= 0.0 && b >= 0.0
    ensures a * b >= 0.0
  {
  }

  lemma MulNonPositive(a: real, b: real)
    requires a <= 0.0 && b >= 0.0
    ensures a * b <= 0.0
  {
  }

  /** h <= e < h + 1 scaled by a negative d, where n is e * d. */
  lemma ScaleBoundsNegative(h: real, e: real, d: real, n: real)
    requires h <= e && e < h + 1.0 && d < 0.0 && e * d == n
    ensures (h + 1.0) * d < n && n <= h * d
  {
    var next := h + 1.0;
    ScaledBelowNegative(e, next, d);
    ScaledAtMostNegative(h, e, d);
    assert next * d < n;
  }

  lemma ScaledAtMostNegative(x: real, y: real, d: real)
    requires x <= y && d < 0.0
    ensures y * d <= x * d
  {
  }

  lemma ScaledBelowNegative(x: real, y: real, d: real)
    requires x < y && d < 0.0
    ensures y * d < x * d
  {
  }

  /** The default square viewport gives a square OCR image. */
  lemma DefaultOcrHeight()
    ensures OcrHeight(DefaultViewport, DefaultOcrWidth) == 640
  {
    var k := OcrHeight(DefaultViewport, DefaultOcrWidth);
    assert k as real * 3.6 <= 3.6 * 640.0 < (k as real + 1.0) * 3.6;
  }

  /** What `extrapolateRegion` returns: the centre of the code (None when
      its diagonals are parallel), the badge outline and, when a crop is
      set, the outline of the cropped region. Points whose transform is
      not finite are None. */
  datatype Region = Region(centre: Option<Point>, extrapolatedPoints: seq<Option<Point>>, ocrPoints: Option<seq<Option<Point>>>)

  // ---------------------------------------------------------------------
  // Barcode selection

  /** The decode loop processes a barcode when it is a QR code whose value
      the ignore pattern, if there is one, does not match. */
  predicate Accepts(ignoreCode: Option<string -> bool>, b: Barcode) {
    b.format == "qr_code" && !(ignoreCode.Some? && ignoreCode.value(b.rawValue))
  }

  function Acceptor(ignoreCode: Option<string -> bool>): Barcode -> bool {
    b => Accepts(ignoreCode, b)
  }

  /** The accepted barcodes are exactly the QR codes the pattern does not
      match, in their original order. */
  lemma AcceptedMembers(ignoreCode: Option<string -> bool>, barcodes: seq<Barcode>, b: Barcode)
    ensures b in Filter(Acceptor(ignoreCode), barcodes) <==> b in barcodes && b.format == "qr_code" && !(ignoreCode.Some? && ignoreCode.value(b.rawValue))
  {
    FilterMember(Acceptor(ignoreCode), barcodes, b);
  }

  class Detector {
    /** The projected badge outline, in QR code units. */
    var viewport: Rect
    var ocrWidth: nat
    /** Set by each extrapolation. */
    var ocrHeight: int
    /** The OCR crop, as fractions of the viewport. */
    var ocrRectangle: Option<Rect>
    /** The compiled ignore pattern: does it match a barcode value? */
    var ignoreCode: Option<string -> bool>
    /** Created by the first extrapolation and kept after it. */
    var homography: Homography?

    /** The options given override the defaults. */
    constructor (viewport: Option<Rect>, ocrWidth: Option<nat>, ocrRectangle: Option<Rect>, ignoreCode: Option<string -> bool>)
      ensures this.viewport == (if viewport.Some? then viewport.value else DefaultViewport)
      ensures this.ocrWidth == (if ocrWidth.Some? then ocrWidth.value else DefaultOcrWidth)
      ensures this.ocrRectangle == ocrRectangle && this.ignoreCode == ignoreCode
      ensures homography == null
    {
      this.viewport := if viewport.Some? then viewport.value else DefaultViewport;
      this.ocrWidth := if ocrWidth.Some? then ocrWidth.value else DefaultOcrWidth;
      this.ocrHeight := 0;
      this.ocrRectangle := ocrRectangle;
      this.ignoreCode := ignoreCode;
      homography := null;
    }

    /** `computeUnitSquareTransform`: the transform taking the unit square
        onto the code's four corner points. */
    method ComputeUnitSquareTransform(cornerPoints: seq<Point>) returns (t: Transform)
      requires |cornerPoints| >= 4
      ensures Fits(t, cornerPoints)
      ensures t.Some? ==> forall i :: 0 <= i < 4 && Denominator(t.value, UnitSquare[i].x, UnitSquare[i].y) != 0.0 ==>
        TransformPointXY(t, UnitSquare[i]) == Some(cornerPoints[i])
    {
      t := CalculateTransformFromSquaresXY(UnitSquare, cornerPoints);
    }

    /** `extrapolateRegion`: the code's centre, the images of the viewport's
        corners and, with a crop set, of the crop's corners; it records the
        OCR image height and warps the video frame into the OCR image,
        creating the Homography on first use. */
    method ExtrapolateRegion(cornerPoints: seq<Point>, video: Raster) returns (region: Region, img: array<byte>, ghost transform: Transform)
      requires |cornerPoints| >= 4 && video.Valid()
      requires OcrViewport(viewport, ocrRectangle).width != 0.0
      requires ocrWidth > 0 && OcrHeight(OcrViewport(viewport, ocrRectangle), ocrWidth) > 0
      modifies this, homography, if homography == null then {} else {homography.dstImageBuffer}
      ensures viewport == old(viewport) && ocrWidth == old(ocrWidth) && ocrRectangle == old(ocrRectangle) && ignoreCode == old(ignoreCode)
      ensures region.centre == LineIntercept(Line(cornerPoints[0], cornerPoints[2]), Line(cornerPoints[1], cornerPoints[3]))
      ensures region.centre.Some? ==>
        OnLine(Line(cornerPoints[0], cornerPoints[2]), region.centre.value) && OnLine(Line(cornerPoints[1], cornerPoints[3]), region.centre.value)
      ensures Fits(transform, cornerPoints)
      ensures region.extrapolatedPoints == Quad(transform, viewport)
      ensures region.ocrPoints.Some? <==> ocrRectangle.Some?
      ensures ocrRectangle.Some? ==> region.ocrPoints == Some(Quad(transform, CropViewport(viewport, ocrRectangle.value)))
      ensures ocrHeight == OcrHeight(OcrViewport(viewport, ocrRectangle), ocrWidth)
      ensures homography != null && img == homography.dstImageBuffer
      ensures old(homography) != null ==> homography == old(homography)
      ensures old(homography) == null ==> fresh(homography)
      ensures (old(homography) != null && old(homography.dstImageBuffer) != null
               && old(homography.dstImageBuffer.Length) == ocrWidth * ocrHeight * 4) ==> img == old(homography.dstImageBuffer)
      ensures img[..] == Warped(video, transform, ocrWidth, ocrHeight as nat, OcrViewport(viewport, ocrRectangle))
    {
      var diagonal0 := Line(cornerPoints[0], cornerPoints[2]);
      var diagonal1 := Line(cornerPoints[1], cornerPoints[3]);
      var centre := LineIntercept(diagonal0, diagonal1);
      if centre.Some? {
        LineInterceptOnLines(diagonal0, diagonal1);
      }

      var t := ComputeUnitSquareTransform(cornerPoints);
      transform := t;
      var vp := viewport;
      var extrapolatedPoints := Quad(t, vp);
      var ocrPoints := None;
      if ocrRectangle.Some? {
        vp := CropViewport(vp, ocrRectangle.value);
        ocrPoints := Some(Quad(t, vp));
      }

      if homography == null {
        homography := new Homography();
      }
      var dstWidth := ocrWidth;
      ocrHeight := OcrHeight(vp, dstWidth);
      var dstHeight: nat := ocrHeight;
      img := homography.WarpImage(video, t, dstWidth, dstHeight, vp);
      region := Region(centre, extrapolatedPoints, ocrPoints);
    }

    /** The barcode loop of `decode`: skips every barcode that is not a QR
        code or whose value the ignore pattern matches, and counts and
        keeps the rest, in order. */
    method SelectBarcodes(barcodes: seq<Barcode>) returns (barcodeCount: nat, accepted: seq<Barcode>)
      ensures accepted == Filter(Acceptor(ignoreCode), barcodes)
      ensures barcodeCount == |accepted|
    {
      barcodeCount := 0;
      accepted := [];
      for i := 0 to |barcodes|
        invariant accepted == Filter(Acceptor(ignoreCode), barcodes[..i])
        invariant barcodeCount == |accepted|
      {
        var barcode := barcodes[i];
        FilterAppend(Acceptor(ignoreCode), barcodes[..i], [barcode]);
        assert barcodes[..i + 1] == barcodes[..i] + [barcode];
        assert Filter(Acceptor(ignoreCode), [barcode]) == (if Accepts(ignoreCode, barcode) then [barcode] else []);
        if barcode.format != "qr_code" {
          continue;
        }
        if ignoreCode.Some? && ignoreCode.value(barcode.rawValue) {
          continue;
        }
        barcodeCount := barcodeCount + 1;
        accepted := accepted + [barcode];
      }
      assert barcodes[..|barcodes|] == barcodes;
    }
  }

  // ---------------------------------------------------------------------
  // OCR text clean-up

  /** The clean-up options: the clean pattern's `exec` (its matched parts,
      None when nothing matches), whether to collapse white-space runs and
      to trim each line, and the delete pattern's `test`. */
  datatype CleanOptions = CleanOptions(
    clean: Option<string -> Option<seq<string>>>,
    removeDoubleSpaces: bool,
    trim: bool,
    delete: Option<string -> bool>)

  /** `!pattern.test(line)`. */
  function Unmatched(test: string -> bool): string -> bool {
    s => !test(s)
  }

  /** The recognised text: the non-empty raw values of the text blocks
      joined by newlines, or, when the clean pattern matches that, its
      matched parts joined by spaces. */
  function RecognisedText(opts: CleanOptions, rawValues: seq<string>): string {
    var originalText := Join(Filter(NonEmpty, rawValues), '\n');
    if opts.clean.Some? && opts.clean.value(originalText).Some? then Join(opts.clean.value(originalText).value, ' ')
    else originalText
  }

  /** The decode loop's walk over the text blocks: the raw value of every
      block that has a non-empty one is pushed, in block order. */
  method CollectTexts(rawValues: seq<string>) returns (allTexts: seq<string>)
    ensures allTexts == Filter(NonEmpty, rawValues)
  {
    allTexts := [];
    for i := 0 to |rawValues|
      invariant allTexts == Filter(NonEmpty, rawValues[..i])
    {
      var rawValue := rawValues[i];
      FilterAppend(NonEmpty, rawValues[..i], [rawValue]);
      assert rawValues[..i + 1] == rawValues[..i] + [rawValue];
      assert Filter(NonEmpty, [rawValue]) == (if |rawValue| > 0 then [rawValue] else []);
      if |rawValue| > 0 {
        allTexts := allTexts + [rawValue];
      }
    }
    assert rawValues[..|rawValues|] == rawValues;
  }

  /** When the clean pattern does not apply and no raw value holds a line
      break, the recognised text splits back into exactly the non-empty
      raw values, in order. */
  lemma RecognisedLines(opts: CleanOptions, rawValues: seq<string>)
    requires opts.clean.None? || opts.clean.value(Join(Filter(NonEmpty, rawValues), '\n')).None?
    requires forall k :: 0 <= k < |rawValues| ==> SingleLine(rawValues[k])
    requires Filter(NonEmpty, rawValues) != []
    ensures Split(RecognisedText(opts, rawValues), '\n') == Filter(NonEmpty, rawValues)
  {
    var kept := Filter(NonEmpty, rawValues);
    assert RecognisedText(opts, rawValues) == Join(kept, '\n');
    KeptSingleLines(rawValues);
    SplitJoin(kept, '\n');
  }

  /** The kept raw values hold no line break when none of them does. */
  lemma KeptSingleLines(rawValues: seq<string>)
    requires forall k :: 0 <= k < |rawValues| ==> SingleLine(rawValues[k])
    ensures var kept := Filter(NonEmpty, rawValues);
      forall i, j :: 0 <= i < |kept| && 0 <= j < |kept[i]| ==> kept[i][j] != '\n'
  {
    var kept := Filter(NonEmpty, rawValues);
    forall i | 0 <= i < |kept|
      ensures SingleLine(kept[i])
    {
      FilterMember(NonEmpty, rawValues, kept[i]);
    }
  }

  /** One line after the white-space stages: runs collapsed when that
      option is on, then trimmed when that option is on. */
  function Restyle(opts: CleanOptions, line: string): string {
    var collapsed := if opts.removeDoubleSpaces then CollapseSpaces(line) else line;
    if opts.trim then Trim(collapsed) else collapsed
  }

  /** The two mapping stages, applied one after the other to every line. */
  function Restyled(opts: CleanOptions, lines: seq<string>): (r: seq<string>)
    ensures |r| == |lines| && forall j :: 0 <= j < |lines| ==> r[j] == Restyle(opts, lines[j])
  {
    var collapsed := if opts.removeDoubleSpaces then Map(CollapseSpaces, lines) else lines;
    if opts.trim then Map(Trim, collapsed) else collapsed
  }

  /** The line stages of the clean-up: restyle, drop the lines the delete
      pattern matches, drop the empty lines. */
  function CleanLines(opts: CleanOptions, lines: seq<string>): seq<string> {
    var restyled := Restyled(opts, lines);
    var kept := if opts.delete.Some? then Filter(Unmatched(opts.delete.value), restyled) else restyled;
    Filter(NonEmpty, kept)
  }

  /** The text the decode loop outputs. */
  function CleanText(opts: CleanOptions, rawValues: seq<string>): string {
    Join(CleanLines(opts, Split(RecognisedText(opts, rawValues), '\n')), '\n')
  }

  /** The surviving lines are exactly the restyled lines that are neither
      empty nor matched by the delete pattern. */
  lemma CleanLinesMembers(opts: CleanOptions, lines: seq<string>, l: string)
    ensures l in CleanLines(opts, lines) <==>
      (exists j :: 0 <= j < |lines| && l == Restyle(opts, lines[j])) && |l| > 0 && !(opts.delete.Some? && opts.delete.value(l))
  {
    var restyled := Restyled(opts, lines);
    var kept := if opts.delete.Some? then Filter(Unmatched(opts.delete.value), restyled) else restyled;
    FilterMember(NonEmpty, kept, l);
    if opts.delete.Some? {
      FilterMember(Unmatched(opts.delete.value), restyled, l);
    }
    if l in restyled {
      var j :| 0 <= j < |restyled| && restyled[j] == l;
      assert l == Restyle(opts, lines[j]);
    }
    if exists j :: 0 <= j < |lines| && l == Restyle(opts, lines[j]) {
      var j :| 0 <= j < |lines| && l == Restyle(opts, lines[j]);
      assert restyled[j] == l;
    }
  }

  /** The surviving lines keep their relative order: cleaning a
      concatenation of lines cleans each part. */
  lemma CleanLinesAppend(opts: CleanOptions, a: seq<string>, b: seq<string>)
    ensures CleanLines(opts, a + b) == CleanLines(opts, a) + CleanLines(opts, b)
  {
    assert Restyled(opts, a + b) == Restyled(opts, a) + Restyled(opts, b);
    if opts.delete.Some? {
      FilterAppend(Unmatched(opts.delete.value), Restyled(opts, a), Restyled(opts, b));
      FilterAppend(NonEmpty, Filter(Unmatched(opts.delete.value), Restyled(opts, a)), Filter(Unmatched(opts.delete.value), Restyled(opts, b)));
    } else {
      FilterAppend(NonEmpty, Restyled(opts, a), Restyled(opts, b));
    }
  }

  /** A restyled line is collapsed when collapsing is on and has no white
      space at either end when trimming is on. */
  lemma RestyleShape(opts: CleanOptions, line: string)
    ensures opts.removeDoubleSpaces ==> Collapsed(Restyle(opts, line))
    ensures opts.trim && |Restyle(opts, line)| > 0 ==>
      !IsSpace(Restyle(opts, line)[0]) && !IsSpace(Restyle(opts, line)[|Restyle(opts, line)| - 1])
  {
    var collapsed := if opts.removeDoubleSpaces then CollapseSpaces(line) else line;
    if opts.removeDoubleSpaces {
      CollapseSpec(line);
    }
    if opts.trim {
      TrimEnds(collapsed);
      if opts.removeDoubleSpaces {
        var i, j := TrimSlice(collapsed);
        CollapsedSlice(collapsed, i, j);
      }
    }
  }

  /** Every surviving line is non-empty, unmatched by the delete pattern,
      collapsed when collapsing is on, and trimmed when trimming is on. */
  lemma CleanLinesShape(opts: CleanOptions, lines: seq<string>, l: string)
    requires l in CleanLines(opts, lines)
    ensures |l| > 0 && !(opts.delete.Some? && opts.delete.value(l))
    ensures opts.removeDoubleSpaces ==> Collapsed(l)
    ensures opts.trim ==> !IsSpace(l[0]) && !IsSpace(l[|l| - 1])
  {
    CleanLinesMembers(opts, lines, l);
    var j :| 0 <= j < |lines| && l == Restyle(opts, lines[j]);
    RestyleShape(opts, lines[j]);
  }

  /** Restyling a restyled line changes nothing. */
  lemma RestyleIdempotent(opts: CleanOptions, line: string)
    ensures Restyle(opts, Restyle(opts, line)) == Restyle(opts, line)
  {
    if opts.removeDoubleSpaces && opts.trim {
      CollapseTrimIdempotent(line);
    } else if opts.removeDoubleSpaces {
      CollapseIdempotent(line);
    } else if opts.trim {
      TrimIdempotent(line);
    }
  }

  /** Cleaning the cleaned lines again changes nothing. */
  lemma CleanLinesIdempotent(opts: CleanOptions, lines: seq<string>)
    ensures CleanLines(opts, CleanLines(opts, lines)) == CleanLines(opts, lines)
  {
    var r := CleanLines(opts, lines);
    forall k | 0 <= k < |r|
      ensures Restyle(opts, r[k]) == r[k] && |r[k]| > 0 && !(opts.delete.Some? && opts.delete.value(r[k]))
    {
      CleanLinesMembers(opts, lines, r[k]);
      var j :| 0 <= j < |lines| && r[k] == Restyle(opts, lines[j]);
      RestyleIdempotent(opts, lines[j]);
    }
    assert Restyled(opts, r) == r;
    if opts.delete.Some? {
      FilterAll(Unmatched(opts.delete.value), r);
    }
    FilterAll(NonEmpty, r);
  }

  /** s holds no line break. */
  predicate SingleLine(s: string) {
    forall k :: 0 <= k < |s| ==> s[k] != '\n'
  }

  /** Restyling never introduces a line break. */
  lemma RestyleSingleLine(opts: CleanOptions, line: string)
    requires SingleLine(line)
    ensures SingleLine(Restyle(opts, line))
  {
    var collapsed := if opts.removeDoubleSpaces then CollapseSpaces(line) else line;
    if opts.removeDoubleSpaces {
      CollapseSpec(line);
      assert IsSpace('\n');
    }
    assert SingleLine(collapsed);
    if opts.trim {
      var i, j := TrimSlice(collapsed);
      assert forall k :: 0 <= k < j - i ==> Trim(collapsed)[k] == collapsed[i + k];
    }
  }

  /** The output is empty exactly when no line survives; otherwise
      splitting it at its newlines gives back the surviving lines. */
  lemma CleanTextLines(opts: CleanOptions, rawValues: seq<string>)
    ensures var lines := CleanLines(opts, Split(RecognisedText(opts, rawValues), '\n'));
      (CleanText(opts, rawValues) == "" <==> lines == [])
      && (lines != [] ==> Split(CleanText(opts, rawValues), '\n') == lines)
  {
    var pieces := Split(RecognisedText(opts, rawValues), '\n');
    var lines := CleanLines(opts, pieces);
    forall k | 0 <= k < |lines|
      ensures |lines[k]| > 0 && SingleLine(lines[k])
    {
      CleanLinesMembers(opts, pieces, lines[k]);
      var j :| 0 <= j < |pieces| && lines[k] == Restyle(opts, pieces[j]);
      RestyleSingleLine(opts, pieces[j]);
    }
    if lines != [] {
      SplitJoin(lines, '\n');
      JoinNonEmpty(lines, '\n');
    }
  }

  /** Joining a non-empty list whose first line is non-empty gives a
      non-empty string. */
  lemma JoinNonEmpty(lines: seq<string>, sep: char)
    requires |lines| > 0 && |lines[0]| > 0
    ensures |Join(lines, sep)| > 0
  {
    if |lines| > 1 {
      assert Join(lines, sep) == lines[0] + [sep] + Join(lines[1..], sep);
    }
  }
}
