/** The barcode polyfill's patch: it passes the symbol's own four corner
    points on, in the order the detector expects, instead of the bounding
    box corners of the base class. */
module BarcodeDetector {
  import opened Geometry

  /** A detected barcode as the Shape Detection API describes it. */
  datatype Barcode = Barcode(format: string, rawValue: string, boundingBox: Rect, cornerPoints: seq<Point>)

  /** The symbol's points p0, p1, p2, p3 as p0, p3, p2, p1: the first and
      third left where they are. */
  function Reorder(p: seq<Point>): (r: seq<Point>)
    requires |p| == 4
    ensures |r| == 4 && r[0] == p[0] && r[2] == p[2]
  {
    [p[0], p[3], p[2], p[1]]
  }

  /** The reordered points are the same four points. */
  lemma ReorderPermutes(p: seq<Point>)
    requires |p| == 4
    ensures multiset(Reorder(p)) == multiset(p)
  {
    assert p == [p[0], p[1], p[2], p[3]];
  }

  /** Reordering twice gives the points back. */
  lemma ReorderInvolution(p: seq<Point>)
    requires |p| == 4
    ensures Reorder(Reorder(p)) == p
  {
  }

  /** `toBarcodeDetectorResult`: the base class's result, with its corner
      points replaced by the reordered symbol points when the symbol has
      exactly four, and nothing else changed. */
  function ToBarcodeDetectorResult(base: Barcode, symbolPoints: seq<Point>): (r: Barcode)
    ensures r.format == base.format && r.rawValue == base.rawValue && r.boundingBox == base.boundingBox
    ensures |symbolPoints| == 4 ==> r.cornerPoints == Reorder(symbolPoints)
    ensures |symbolPoints| != 4 ==> r == base
  {
    if |symbolPoints| == 4 then base.(cornerPoints := Reorder(symbolPoints)) else base
  }
}
