/** The rectangle detector's own logic: ordering a quad's corners, the
    filtering, sorting and limiting of the contours OpenCV reports, scaling
    the survivors back to the source image, and the script path. */
module RectangleDetector {
  import opened Wrappers
  import opened Geometry
  import opened Sequences
  import opened Paths

  // ---------------------------------------------------------------------
  // Corner order

  /** x + y: smallest at the top-left corner, largest at the bottom-right. */
  function Sum(p: Point): real {
    p.x + p.y
  }

  /** y - x: smallest at the top-right corner, largest at the bottom-left. */
  function Diff(p: Point): real {
    p.y - p.x
  }

  /** Among the first n points of c, index i has the smallest key, and every
      earlier index has a strictly larger one. */
  predicate FirstMin(c: seq<Point>, n: nat, i: nat, key: Point -> real)
    requires n <= |c|
  {
    i < n && (forall j :: 0 <= j < n ==> key(c[i]) <= key(c[j])) && (forall j :: 0 <= j < i ==> key(c[j]) > key(c[i]))
  }

  /** Among the first n points of c, index i has the largest key, and every
      earlier index has a strictly smaller one. */
  predicate FirstMax(c: seq<Point>, n: nat, i: nat, key: Point -> real)
    requires n <= |c|
  {
    i < n && (forall j :: 0 <= j < n ==> key(c[i]) >= key(c[j])) && (forall j :: 0 <= j < i ==> key(c[j]) < key(c[i]))
  }

  /** The index a strict `<` scan of the first n points settles on. */
  function ArgMin(c: seq<Point>, key: Point -> real, n: nat): (i: nat)
    requires 0 < n <= |c|
    ensures FirstMin(c, n, i, key)
  {
    if n == 1 then 0
    else
      var i := ArgMin(c, key, n - 1);
      if key(c[n - 1]) < key(c[i]) then n - 1 else i
  }

  /** The index a strict `>` scan of the first n points settles on. */
  function ArgMax(c: seq<Point>, key: Point -> real, n: nat): (i: nat)
    requires 0 < n <= |c|
    ensures FirstMax(c, n, i, key)
  {
    if n == 1 then 0
    else
      var i := ArgMax(c, key, n - 1);
      if key(c[n - 1]) > key(c[i]) then n - 1 else i
  }

  /** The corners in clockwise order from the top-left: smallest sum,
      smallest difference, largest sum, largest difference; each taken from
      the input, the earliest where keys tie. */
  function Ordered(c: seq<Point>): (r: seq<Point>)
    requires |c| > 0
    ensures |r| == 4 && forall k :: 0 <= k < 4 ==> r[k] in c
    ensures forall j :: 0 <= j < |c| ==>
      Sum(r[0]) <= Sum(c[j]) && Diff(r[1]) <= Diff(c[j]) && Sum(r[2]) >= Sum(c[j]) && Diff(r[3]) >= Diff(c[j])
  {
    [c[ArgMin(c, Sum, |c|)], c[ArgMin(c, Diff, |c|)], c[ArgMax(c, Sum, |c|)], c[ArgMax(c, Diff, |c|)]]
  }

  /** `_orderPoints`: one pass keeping the running smallest and largest sum
      and difference and where they were found. */
  method OrderPoints(corners: seq<Point>) returns (ordered: seq<Point>)
    requires |corners| > 0
    ensures ordered == Ordered(corners)
  {
    var smallestSumIndex, largestSumIndex, smallestDiffIndex, largestDiffIndex := 0, 0, 0, 0;
    var smallestSumValue, largestSumValue, smallestDiffValue, largestDiffValue := 0.0, 0.0, 0.0, 0.0;
    for i := 0 to |corners|
      invariant i > 0 ==> smallestSumIndex == ArgMin(corners, Sum, i) && smallestSumValue == Sum(corners[smallestSumIndex])
      invariant i > 0 ==> largestSumIndex == ArgMax(corners, Sum, i) && largestSumValue == Sum(corners[largestSumIndex])
      invariant i > 0 ==> smallestDiffIndex == ArgMin(corners, Diff, i) && smallestDiffValue == Diff(corners[smallestDiffIndex])
      invariant i > 0 ==> largestDiffIndex == ArgMax(corners, Diff, i) && largestDiffValue == Diff(corners[largestDiffIndex])
    {
      var sum := corners[i].x + corners[i].y;
      var diff := corners[i].y - corners[i].x;
      ScanStep(corners, Sum, i, sum);
      ScanStep(corners, Diff, i, diff);
      if i == 0 || sum < smallestSumValue {
        smallestSumIndex := i;
        smallestSumValue := sum;
      }
      if i == 0 || sum > largestSumValue {
        largestSumIndex := i;
        largestSumValue := sum;
      }
      if i == 0 || diff < smallestDiffValue {
        smallestDiffIndex := i;
        smallestDiffValue := diff;
      }
      if i == 0 || diff > largestDiffValue {
        largestDiffIndex := i;
        largestDiffValue := diff;
      }
    }
    ordered := [corners[smallestSumIndex], corners[smallestDiffIndex], corners[largestSumIndex], corners[largestDiffIndex]];
  }

  /** One step of the scan: the `<` and `>` comparisons against the value
      kept so far extend ArgMin and ArgMax by one point. */
  lemma ScanStep(c: seq<Point>, key: Point -> real, i: nat, v: real)
    requires i < |c| && v == key(c[i])
    ensures i == 0 ==> ArgMin(c, key, i + 1) == 0 && ArgMax(c, key, i + 1) == 0
    ensures i > 0 ==> ArgMin(c, key, i + 1) == (if v < key(c[ArgMin(c, key, i)]) then i else ArgMin(c, key, i))
    ensures i > 0 ==> ArgMax(c, key, i + 1) == (if v > key(c[ArgMax(c, key, i)]) then i else ArgMax(c, key, i))
  {
  }

  /** Each corner Ordered picks is extreme against every point of the
      input. */
  lemma OrderedExtremes(c: seq<Point>, q: Point)
    requires q in c
    ensures var o := Ordered(c);
      Sum(o[0]) <= Sum(q) && Diff(o[1]) <= Diff(q) && Sum(o[2]) >= Sum(q) && Diff(o[3]) >= Diff(q)
  {
    var j :| 0 <= j < |c| && c[j] == q;
  }

  /** The points of a sequence are those of any permutation of it. */
  lemma SameMembers(c: seq<Point>, rect: seq<Point>, p: Point)
    requires multiset(c) == multiset(rect)
    ensures p in c <==> p in rect
  {
    assert p in c <==> p in multiset(c);
    assert p in rect <==> p in multiset(rect);
  }

  /** The corners of an axis-aligned rectangle, given in any order, come
      out as top-left, top-right, bottom-right, bottom-left. */
  lemma OrderedRectangle(corners: seq<Point>, l: real, t: real, r: real, b: real)
    requires l < r && t < b
    requires multiset(corners) == multiset([Point(l, t), Point(r, t), Point(r, b), Point(l, b)])
    ensures Ordered(corners) == [Point(l, t), Point(r, t), Point(r, b), Point(l, b)]
  {
    var rect := [Point(l, t), Point(r, t), Point(r, b), Point(l, b)];
    var o := Ordered(corners);
    PermutedCorners(corners, rect);
    OrderedExtremes(corners, rect[0]);
    OrderedExtremes(corners, rect[1]);
    OrderedExtremes(corners, rect[2]);
    OrderedExtremes(corners, rect[3]);
    RectangleCorner(o[0], l, t, r, b);
    RectangleCorner(o[1], l, t, r, b);
    RectangleCorner(o[2], l, t, r, b);
    RectangleCorner(o[3], l, t, r, b);
    assert o == [o[0], o[1], o[2], o[3]];
  }

  /** A permutation of four corners is non-empty, holds each corner, and
      Ordered picks only corners from it. */
  lemma PermutedCorners(corners: seq<Point>, rect: seq<Point>)
    requires |rect| == 4 && multiset(corners) == multiset(rect)
    ensures |corners| == 4
    ensures forall k :: 0 <= k < 4 ==> rect[k] in corners && Ordered(corners)[k] in rect
  {
    assert |corners| == |multiset(corners)| == 4;
    forall k | 0 <= k < 4
      ensures rect[k] in corners && Ordered(corners)[k] in rect
    {
      SameMembers(corners, rect, rect[k]);
      SameMembers(corners, rect, Ordered(corners)[k]);
    }
  }

  /** Each corner of an axis-aligned rectangle is the only one with its
      extreme sum or difference. */
  lemma RectangleCorner(p: Point, l: real, t: real, r: real, b: real)
    requires l < r && t < b && p in [Point(l, t), Point(r, t), Point(r, b), Point(l, b)]
    ensures Sum(p) <= l + t ==> p == Point(l, t)
    ensures Diff(p) <= t - r ==> p == Point(r, t)
    ensures Sum(p) >= r + b ==> p == Point(r, b)
    ensures Diff(p) >= b - l ==> p == Point(l, b)
  {
  }

  // ---------------------------------------------------------------------
  // Scaling

  /** `Math.floor`. */
  function Floor(v: real): (f: real)
    ensures f <= v < f + 1.0 && f == f.Floor as real
  {
    v.Floor as real
  }

  function ScalePoint(p: Point, scale: real): Point {
    Point(Floor(p.x * scale), Floor(p.y * scale))
  }

  /** `_scalePoints`: as many points, in the same order, each coordinate
      scaled and rounded down. */
  function ScalePoints(points: seq<Point>, scale: real): (r: seq<Point>)
    ensures |r| == |points|
    ensures forall i :: 0 <= i < |r| ==>
      r[i].x <= points[i].x * scale < r[i].x + 1.0 && r[i].y <= points[i].y * scale < r[i].y + 1.0
    ensures forall i :: 0 <= i < |r| ==> Integral(r[i].x) && Integral(r[i].y)
  {
    Map(p => ScalePoint(p, scale), points)
  }

  /** `_scaleRect`: every field scaled and rounded down. */
  function ScaleRect(rect: Rect, scale: real): (r: Rect)
    ensures r.x <= rect.x * scale < r.x + 1.0 && r.y <= rect.y * scale < r.y + 1.0
    ensures r.width <= rect.width * scale < r.width + 1.0 && r.height <= rect.height * scale < r.height + 1.0
    ensures Integral(r.x) && Integral(r.y) && Integral(r.width) && Integral(r.height)
  {
    Rect(Floor(rect.x * scale), Floor(rect.y * scale), Floor(rect.width * scale), Floor(rect.height * scale))
  }

  predicate Integral(v: real) {
    v == v.Floor as real
  }

  /** Scaling pixel coordinates by one leaves them as they are. */
  lemma ScalePointsUnit(points: seq<Point>)
    requires forall i :: 0 <= i < |points| ==> Integral(points[i].x) && Integral(points[i].y)
    ensures ScalePoints(points, 1.0) == points
  {
    var r := ScalePoints(points, 1.0);
    forall i | 0 <= i < |points|
      ensures r[i] == points[i]
    {
      IntegralFloor(points[i].x);
      IntegralFloor(points[i].y);
    }
  }

  lemma IntegralFloor(v: real)
    requires Integral(v)
    ensures Floor(v * 1.0) == v
  {
    assert v * 1.0 == v;
  }

  // ---------------------------------------------------------------------
  // Contours

  /** A contour as OpenCV reports it: its area, the vertices of its
      polygon approximation and its bounding rectangle. */
  datatype RawContour = RawContour(area: real, approx: seq<Point>, boundingRect: Rect)

  /** What the detector keeps about a contour; the corner points are set
      once the contour is known to be a quad. */
  datatype ContourData = ContourData(index: nat, area: real, approx: seq<Point>, boundingRect: Rect, cornerPoints: seq<Point>)

  /** A detected rectangle, in source image pixels. */
  datatype DetectedRect = DetectedRect(boundingRect: Rect, cornerPoints: seq<Point>)

  /** The data of the first n contours whose area is at least minArea, in
      order, each with its index. */
  function Collected(contours: seq<RawContour>, minArea: real, n: nat): (r: seq<ContourData>)
    requires n <= |contours|
    ensures |r| <= n
    ensures forall k :: 0 <= k < |r| ==>
      r[k].index < n && r[k].area >= minArea && r[k].area == contours[r[k].index].area
      && r[k].approx == contours[r[k].index].approx && r[k].boundingRect == contours[r[k].index].boundingRect
  {
    if n == 0 then []
    else
      var c := contours[n - 1];
      Collected(contours, minArea, n - 1) + (if c.area < minArea then [] else [ContourData(n - 1, c.area, c.approx, c.boundingRect, [])])
  }

  /** The polygon approximation has four vertices. */
  predicate IsQuad(d: ContourData) {
    |d.approx| == 4
  }

  /** The contour with its corners ordered (a contour with fewer than four
      vertices never reaches this step). */
  function WithCorners(d: ContourData): ContourData {
    if |d.approx| >= 4 then d.(cornerPoints := Ordered(d.approx[..4])) else d
  }

  /** The four side lengths of a quad, going round it. */
  function SideLengths(q: seq<Point>, length: (Point, Point) -> real): seq<real>
    requires |q| == 4
  {
    [length(q[0], q[1]), length(q[1], q[2]), length(q[2], q[3]), length(q[3], q[0])]
  }

  function Min4(s: seq<real>): (m: real)
    requires |s| == 4
    ensures m in s && forall k :: 0 <= k < 4 ==> m <= s[k]
  {
    var a := if s[0] <= s[1] then s[0] else s[1];
    var b := if s[2] <= s[3] then s[2] else s[3];
    if a <= b then a else b
  }

  function Max4(s: seq<real>): (m: real)
    requires |s| == 4
    ensures m in s && forall k :: 0 <= k < 4 ==> m >= s[k]
  {
    var a := if s[0] >= s[1] then s[0] else s[1];
    var b := if s[2] >= s[3] then s[2] else s[3];
    if a >= b then a else b
  }

  /** The side-ratio test on four side lengths: the shortest is longer
      than one pixel and the longest is less than maxSideRatio times the
      shortest. */
  predicate RatioWithin(sides: seq<real>, maxSideRatio: real)
    requires |sides| == 4
  {
    Min4(sides) > 1.0 && Max4(sides) / Min4(sides) < maxSideRatio
  }

  /** The side-ratio test on a quad. */
  predicate RatioOk(d: ContourData, length: (Point, Point) -> real, maxSideRatio: real) {
    |d.cornerPoints| == 4 && RatioWithin(SideLengths(d.cornerPoints, length), maxSideRatio)
  }

  /** Sides that pass the ratio test are each longer than one pixel and
      shorter than maxSideRatio times every other side. */
  lemma RatioWithinSides(sides: seq<real>, maxSideRatio: real)
    requires |sides| == 4 && RatioWithin(sides, maxSideRatio)
    ensures forall i, j :: 0 <= i < 4 && 0 <= j < 4 ==> sides[i] > 1.0 && sides[i] < maxSideRatio * sides[j]
  {
    var lo, hi := Min4(sides), Max4(sides);
    RatioBound(hi, lo, maxSideRatio);
    SidesWithin(sides, lo, hi, maxSideRatio);
  }

  /** Sides between lo and hi, with hi below m times lo, are all within a
      factor m of each other. */
  lemma SidesWithin(sides: seq<real>, lo: real, hi: real, m: real)
    requires |sides| == 4 && (forall k :: 0 <= k < 4 ==> lo <= sides[k] <= hi) && hi < m * lo && m > 1.0
    ensures forall i, j :: 0 <= i < 4 && 0 <= j < 4 ==> sides[i] < m * sides[j]
  {
    forall i, j | 0 <= i < 4 && 0 <= j < 4
      ensures sides[i] < m * sides[j]
    {
      MulMonotone(m, lo, sides[j]);
    }
  }

  /** hi / lo < m bounds hi by m times lo. */
  lemma RatioBound(hi: real, lo: real, m: real)
    requires 0.0 < lo <= hi && hi / lo < m
    ensures hi < m * lo && m > 1.0
  {
    var q := hi / lo;
    assert q * lo == hi;
    MulLess(q, m, lo);
    if m <= 1.0 {
      MulMonotone(lo, m, 1.0);
      assert false;
    }
  }

  lemma MulLess(a: real, b: real, c: real)
    requires a < b && c > 0.0
    ensures a * c < b * c
  {
  }

  lemma MulMonotone(a: real, b: real, c: real)
    requires a >= 0.0 && b <= c
    ensures a * b <= a * c
  {
  }

  // ---------------------------------------------------------------------
  // Sorting by area

  /** Largest area first. */
  predicate SortedByArea(s: seq<ContourData>) {
    forall i, j :: 0 <= i < j < |s| ==> s[i].area >= s[j].area
  }

  /** x placed before the first element whose area is not larger than its
      own. */
  function Insert(x: ContourData, s: seq<ContourData>): (r: seq<ContourData>)
    requires SortedByArea(s)
    ensures SortedByArea(r) && multiset(r) == multiset(s) + multiset{x}
  {
    if |s| == 0 || x.area >= s[0].area then [x] + s
    else
      var rest := Insert(x, s[1..]);
      InsertBehind(x, s, rest);
      [s[0]] + rest
  }

  /** The head of s stays in front when x goes further back. */
  lemma InsertBehind(x: ContourData, s: seq<ContourData>, rest: seq<ContourData>)
    requires |s| > 0 && SortedByArea(s) && x.area < s[0].area
    requires SortedByArea(rest) && multiset(rest) == multiset(s[1..]) + multiset{x}
    ensures SortedByArea([s[0]] + rest) && multiset([s[0]] + rest) == multiset(s) + multiset{x}
  {
    assert s == [s[0]] + s[1..];
    forall k | 0 <= k < |rest|
      ensures rest[k].area <= s[0].area
    {
      assert rest[k] in multiset(rest);
      if rest[k] != x {
        assert rest[k] in multiset(s[1..]);
        assert rest[k] in s[1..];
      }
    }
    var r := [s[0]] + rest;
    forall i, j | 0 <= i < j < |r|
      ensures r[i].area >= r[j].area
    {
      if i > 0 {
        assert r[i] == rest[i - 1] && r[j] == rest[j - 1];
      } else {
        assert r[j] == rest[j - 1];
      }
    }
  }

  /** `contourData.sort((a, b) => b.area - a.area)`: the same contours,
      largest area first, equal areas in their original order. */
  function SortByArea(s: seq<ContourData>): (r: seq<ContourData>)
    ensures SortedByArea(r) && multiset(r) == multiset(s)
  {
    if |s| == 0 then []
    else
      assert s == [s[0]] + s[1..];
      Insert(s[0], SortByArea(s[1..]))
  }

  /** A filtered sorted list is sorted. */
  lemma {:induction false} FilterSorted(keep: ContourData -> bool, s: seq<ContourData>)
    requires SortedByArea(s)
    ensures SortedByArea(Filter(keep, s))
  {
    if |s| > 0 {
      FilterSorted(keep, s[1..]);
      var rest := Filter(keep, s[1..]);
      forall k | 0 <= k < |rest|
        ensures rest[k].area <= s[0].area
      {
        var j :| 0 <= j < |s[1..]| && s[1..][j] == rest[k];
        assert rest[k] == s[j + 1];
      }
      SortedCons(s[0], rest);
      assert Filter(keep, s) == (if keep(s[0]) then [s[0]] + rest else rest);
    }
  }

  /** A sorted list stays sorted behind an element of area at least its
      every element's. */
  lemma SortedCons(e: ContourData, s: seq<ContourData>)
    requires SortedByArea(s) && forall k :: 0 <= k < |s| ==> s[k].area <= e.area
    ensures SortedByArea([e] + s)
  {
    var r := [e] + s;
    forall i, j | 0 <= i < j < |r|
      ensures r[i].area >= r[j].area
    {
      assert r[j] == s[j - 1];
      if i > 0 {
        assert r[i] == s[i - 1];
      }
    }
  }

  // ---------------------------------------------------------------------
  // Detection

  /** The quads among the contours large enough, corners ordered, in
      contour order. */
  function Candidates(contours: seq<RawContour>, minArea: real): seq<ContourData> {
    Map(WithCorners, Filter(IsQuad, Collected(contours, minArea, |contours|)))
  }

  /** The side-ratio test as a filter. */
  function RatioTest(length: (Point, Point) -> real, maxSideRatio: real): ContourData -> bool {
    d => RatioOk(d, length, maxSideRatio)
  }

  /** The contours that survive every test, before sorting. */
  function Survivors(contours: seq<RawContour>, minArea: real, maxSideRatio: real, length: (Point, Point) -> real): seq<ContourData> {
    Filter(RatioTest(length, maxSideRatio), Candidates(contours, minArea))
  }

  /** `slice(0, 1)`. */
  function First<T>(s: seq<T>): (r: seq<T>)
    ensures |r| <= 1 && (|r| == 0 <==> |s| == 0) && (|r| == 1 ==> r[0] == s[0])
  {
    if |s| <= 1 then s else s[..1]
  }

  function ToDetected(d: ContourData, scale: real): DetectedRect {
    DetectedRect(ScaleRect(d.boundingRect, scale), ScalePoints(d.cornerPoints, scale))
  }

  function Scaler(scale: real): ContourData -> DetectedRect {
    d => ToDetected(d, scale)
  }

  /** The rectangles `detect` returns: the quads, corners ordered, largest
      area first, that pass the ratio test, at most one, scaled back. */
  function Detected(contours: seq<RawContour>, minArea: real, maxSideRatio: real, length: (Point, Point) -> real, scale: real): seq<DetectedRect> {
    Map(Scaler(scale), First(Filter(RatioTest(length, maxSideRatio), SortByArea(Candidates(contours, minArea)))))
  }

  /** Sorting before filtering keeps the same survivors. */
  lemma SortedSurvivors(keep: ContourData -> bool, s: seq<ContourData>, x: ContourData)
    ensures x in Filter(keep, SortByArea(s)) <==> x in Filter(keep, s)
  {
    FilterMember(keep, SortByArea(s), x);
    FilterMember(keep, s, x);
    assert x in SortByArea(s) <==> x in multiset(SortByArea(s));
    assert x in s <==> x in multiset(s);
  }

  /** The head of a list sorted by area has the largest area in it. */
  lemma SortedHead(s: seq<ContourData>, e: ContourData)
    requires SortedByArea(s) && e in s
    ensures e.area <= s[0].area
  {
    var k :| 0 <= k < |s| && s[k] == e;
  }

  /** At most one rectangle is returned: none exactly when no contour
      survives, otherwise a survivor of largest area. */
  lemma DetectedBest(contours: seq<RawContour>, minArea: real, maxSideRatio: real, length: (Point, Point) -> real, scale: real)
    ensures var r := Detected(contours, minArea, maxSideRatio, length, scale);
      var s := Survivors(contours, minArea, maxSideRatio, length);
      |r| <= 1 && (|r| == 0 <==> |s| == 0)
      && (|r| == 1 ==> exists d :: d in s && r[0] == ToDetected(d, scale) && forall e :: e in s ==> e.area <= d.area)
  {
    var keep := RatioTest(length, maxSideRatio);
    var candidates := Candidates(contours, minArea);
    var passing := Filter(keep, SortByArea(candidates));
    var s := Survivors(contours, minArea, maxSideRatio, length);
    var r := Detected(contours, minArea, maxSideRatio, length, scale);
    assert s == Filter(keep, candidates);
    assert r == Map(Scaler(scale), First(passing));
    if |passing| > 0 {
      FilterSorted(keep, SortByArea(candidates));
      SortedSurvivors(keep, candidates, passing[0]);
      forall e | e in s
        ensures e.area <= passing[0].area
      {
        SortedSurvivors(keep, candidates, e);
        SortedHead(passing, e);
      }
      assert r[0] == ToDetected(passing[0], scale);
    } else if |s| > 0 {
      SortedSurvivors(keep, candidates, s[0]);
    }
  }

  class RectangleDetector {
    var minArea: real
    var resizedWidth: nat
    var maxSideRatio: real

    /** The options given override the defaults: contours of at least 500
        square pixels, found in a copy 320 pixels wide, with sides at most
        1.8 times apart. */
    constructor (minArea: Option<real>, resizedWidth: Option<nat>, maxSideRatio: Option<real>)
      ensures this.minArea == (if minArea.Some? then minArea.value else 500.0)
      ensures this.resizedWidth == (if resizedWidth.Some? then resizedWidth.value else 320)
      ensures this.maxSideRatio == (if maxSideRatio.Some? then maxSideRatio.value else 1.8)
    {
      this.minArea := if minArea.Some? then minArea.value else 500.0;
      this.resizedWidth := if resizedWidth.Some? then resizedWidth.value else 320;
      this.maxSideRatio := if maxSideRatio.Some? then maxSideRatio.value else 1.8;
    }

    /** `detect`: the call's options are merged into the detector's own,
        where they stay for later calls; then the contour post-processing
        runs on the contours OpenCV found in the copy resized to the merged
        width, of a source image srcCols pixels wide. */
    method Detect(minArea: Option<real>, resizedWidth: Option<nat>, maxSideRatio: Option<real>,
                  contours: seq<RawContour>, srcCols: nat, length: (Point, Point) -> real) returns (detectedRects: seq<DetectedRect>)
      requires (if resizedWidth.Some? then resizedWidth.value else this.resizedWidth) > 0
      modifies this
      ensures this.minArea == (if minArea.Some? then minArea.value else old(this.minArea))
      ensures this.resizedWidth == (if resizedWidth.Some? then resizedWidth.value else old(this.resizedWidth))
      ensures this.maxSideRatio == (if maxSideRatio.Some? then maxSideRatio.value else old(this.maxSideRatio))
      ensures detectedRects == Detected(contours, this.minArea, this.maxSideRatio, length, srcCols as real / this.resizedWidth as real)
    {
      if minArea.Some? {
        this.minArea := minArea.value;
      }
      if resizedWidth.Some? {
        this.resizedWidth := resizedWidth.value;
      }
      if maxSideRatio.Some? {
        this.maxSideRatio := maxSideRatio.value;
      }
      detectedRects := FindRectangles(contours, srcCols, length);
    }

    /** The contour post-processing of `detect` with the detector's
        options, on the contours OpenCV found in the resized copy of a
        source image srcCols pixels wide. */
    method FindRectangles(contours: seq<RawContour>, srcCols: nat, length: (Point, Point) -> real) returns (detectedRects: seq<DetectedRect>)
      requires resizedWidth > 0
      ensures detectedRects == Detected(contours, minArea, maxSideRatio, length, srcCols as real / resizedWidth as real)
    {
      var contourData := CollectContours(contours);
      contourData := Filter(IsQuad, contourData);
      contourData := OrderQuads(contourData);
      contourData := SortByArea(contourData);
      contourData := Filter(RatioTest(length, maxSideRatio), contourData);
      if |contourData| > 1 {
        contourData := contourData[..1];
      }
      var scale := srcCols as real / resizedWidth as real;
      detectedRects := ScaleBack(contourData, scale);
    }

    /** The data of every contour whose area is at least minArea. */
    method CollectContours(contours: seq<RawContour>) returns (contourData: seq<ContourData>)
      ensures contourData == Collected(contours, minArea, |contours|)
    {
      contourData := [];
      for i := 0 to |contours|
        invariant contourData == Collected(contours, minArea, i)
      {
        var contour := contours[i];
        if contour.area < minArea {
          continue;
        }
        contourData := contourData + [ContourData(i, contour.area, contour.approx, contour.boundingRect, [])];
      }
    }
  }

  /** Each quad with its corners put in order. */
  method OrderQuads(quads: seq<ContourData>) returns (ordered: seq<ContourData>)
    requires forall k :: 0 <= k < |quads| ==> IsQuad(quads[k])
    ensures ordered == Map(WithCorners, quads)
  {
    ordered := [];
    for k := 0 to |quads|
      invariant ordered == Map(WithCorners, quads[..k])
    {
      var quad := OrderQuad(quads[k]);
      MapAppend(WithCorners, quads[..k], [quads[k]]);
      assert quads[..k + 1] == quads[..k] + [quads[k]];
      ordered := ordered + [quad];
    }
    assert quads[..|quads|] == quads;
  }

  /** One quad with its corners put in order. */
  method OrderQuad(d: ContourData) returns (quad: ContourData)
    requires IsQuad(d)
    ensures quad == WithCorners(d)
  {
    var corners := OrderPoints(d.approx[..4]);
    quad := d.(cornerPoints := corners);
  }

  /** Each contour's bounding rectangle and corners in source image
      pixels. */
  method ScaleBack(contourData: seq<ContourData>, scale: real) returns (detectedRects: seq<DetectedRect>)
    ensures detectedRects == Map(Scaler(scale), contourData)
  {
    detectedRects := [];
    for k := 0 to |contourData|
      invariant |detectedRects| == k && forall j :: 0 <= j < k ==> detectedRects[j] == ToDetected(contourData[j], scale)
    {
      detectedRects := detectedRects + [DetectedRect(ScaleRect(contourData[k].boundingRect, scale), ScalePoints(contourData[k].cornerPoints, scale))];
    }
  }

  /** The OpenCV script, relative to this script. */
  const OpenCvScript: string := "./depends/opencv-4.11.0.js"

  /** The script path of `_startup`: resolved against this script's URL,
      then made relative to the page. */
  method StartupScriptFile(resolve: string -> string, base: string) returns (scriptFile: string)
    ensures scriptFile == RelativePath(resolve(OpenCvScript), base)
  {
    scriptFile := OpenCvScript;
    scriptFile := resolve(scriptFile);
    scriptFile := Relativise(scriptFile, base);
  }
}
