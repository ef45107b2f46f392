/** Points, lines and the line intersection of utils.js. */
module Geometry {
  import opened Wrappers

  datatype Point = Point(x: real, y: real)

  /** An axis-aligned rectangle: a viewport or a crop. */
  datatype Rect = Rect(x: real, y: real, width: real, height: real)

  /** A line through two points; the source treats it as infinite. */
  datatype Line = Line(start: Point, end: Point)

  /** The common denominator d of the intersection formula: zero exactly
      when the two lines are parallel (or a line is a single point). */
  function Det(a: Line, b: Line): real {
    (a.start.x - a.end.x) * (b.start.y - b.end.y) - (a.start.y - a.end.y) * (b.start.x - b.end.x)
  }

  /** p lies on the infinite line through l's two points. */
  ghost predicate OnLine(l: Line, p: Point) {
    (p.x - l.start.x) * (l.end.y - l.start.y) == (p.y - l.start.y) * (l.end.x - l.start.x)
  }

  /** The numerators of the intersection formula. */
  function NumX(a: Line, b: Line): real {
    (b.start.x - b.end.x) * Cross(a) - (a.start.x - a.end.x) * Cross(b)
  }

  function NumY(a: Line, b: Line): real {
    (b.start.y - b.end.y) * Cross(a) - (a.start.y - a.end.y) * Cross(b)
  }

  /** `lineIntercept`: the intersection of two infinite lines, None (the
      source's null) when the denominator d is zero. */
  function LineIntercept(a: Line, b: Line): (r: Option<Point>)
    ensures r.None? <==> Det(a, b) == 0.0
    ensures r.Some? ==> r.value.x * Det(a, b) == NumX(a, b) && r.value.y * Det(a, b) == NumY(a, b)
  {
    var d := Det(a, b);
    if d == 0.0 then None
    else
      DivTimes(NumX(a, b), d);
      DivTimes(NumY(a, b), d);
      Some(Point(NumX(a, b) / d, NumY(a, b) / d))
  }

  /** x1*y2 - y1*x2 for the line's two points. */
  function Cross(l: Line): real {
    l.start.x * l.end.y - l.start.y * l.end.x
  }

  function Reverse(l: Line): Line {
    Line(l.end, l.start)
  }

  lemma DivTimes(x: real, d: real)
    requires d != 0.0
    ensures x / d * d == x
  {
  }

  /** The returned point lies on both lines. */
  lemma LineInterceptOnLines(a: Line, b: Line)
    requires LineIntercept(a, b).Some?
    ensures OnLine(a, LineIntercept(a, b).value) && OnLine(b, LineIntercept(a, b).value)
  {
    InterceptOnFirst(a, b);
    LineInterceptSymmetric(a, b);
    InterceptOnFirst(b, a);
  }

  /** The returned point lies on the first line. */
  lemma InterceptOnFirst(a: Line, b: Line)
    requires LineIntercept(a, b).Some?
    ensures OnLine(a, LineIntercept(a, b).value)
  {
    NumeratorsOnFirst(a, b);
    OnLineScaled(a, LineIntercept(a, b).value, Det(a, b), NumX(a, b), NumY(a, b));
  }

  /** Clearing the denominator: p = (X/d, Y/d) lies on l when the scaled
      point (X, Y) satisfies the scaled line equation. */
  lemma OnLineScaled(l: Line, p: Point, d: real, X: real, Y: real)
    requires d != 0.0 && p.x * d == X && p.y * d == Y
    requires (X - l.start.x * d) * (l.end.y - l.start.y) == (Y - l.start.y * d) * (l.end.x - l.start.x)
    ensures OnLine(l, p)
  {
    var u, v := p.x - l.start.x, p.y - l.start.y;
    assert u * d == X - l.start.x * d;
    assert v * d == Y - l.start.y * d;
    assert (u * (l.end.y - l.start.y)) * d == (v * (l.end.x - l.start.x)) * d;
  }

  /** The scaled numerators satisfy the scaled equation of the first line. */
  lemma NumeratorsOnFirst(a: Line, b: Line)
    ensures (NumX(a, b) - a.start.x * Det(a, b)) * (a.end.y - a.start.y)
         == (NumY(a, b) - a.start.y * Det(a, b)) * (a.end.x - a.start.x)
  {
  }

  /** The result is characterised independently of the formula: for
      non-parallel lines it is the one point on both lines. */
  lemma LineInterceptUnique(a: Line, b: Line, p: Point)
    ensures LineIntercept(a, b) == Some(p) <==> Det(a, b) != 0.0 && OnLine(a, p) && OnLine(b, p)
  {
    if LineIntercept(a, b) == Some(p) {
      LineInterceptOnLines(a, b);
    }
    if Det(a, b) != 0.0 && OnLine(a, p) && OnLine(b, p) {
      OnBothLines(a, b, p);
    }
  }

  /** A point on both of two non-parallel lines is the intersection. */
  lemma OnBothLines(a: Line, b: Line, p: Point)
    requires Det(a, b) != 0.0 && OnLine(a, p) && OnLine(b, p)
    ensures LineIntercept(a, b) == Some(p)
  {
    Cleared(a, b, p);
    QuotientsOf(a, b, p);
  }

  /** With the denominator cleared, the intersection formula names p. */
  lemma QuotientsOf(a: Line, b: Line, p: Point)
    requires Det(a, b) != 0.0
    requires p.x * Det(a, b) == NumX(a, b) && p.y * Det(a, b) == NumY(a, b)
    ensures LineIntercept(a, b) == Some(p)
  {
    DivUnique(NumX(a, b), Det(a, b), p.x);
    DivUnique(NumY(a, b), Det(a, b), p.y);
  }

  /** A point on both lines satisfies the intersection formula with the
      denominator cleared. */
  lemma Cleared(a: Line, b: Line, p: Point)
    requires OnLine(a, p) && OnLine(b, p)
    ensures p.x * Det(a, b) == NumX(a, b) && p.y * Det(a, b) == NumY(a, b)
  {
    IntersectionSolves(a.start.x, a.start.y, a.end.x, a.end.y, b.start.x, b.start.y, b.end.x, b.end.y, p.x, p.y,
                       Cross(a), Cross(b), Det(a, b), NumX(a, b), NumY(a, b));
  }

  /** The quotient X / d is the one number whose product with d is X. */
  lemma DivUnique(X: real, d: real, u: real)
    requires d != 0.0 && u * d == X
    ensures X / d == u
  {
  }

  /** The same on coordinates: a point (px, py) on the line through
      (x1, y1), (x2, y2) and on the line through (x3, y3), (x4, y4)
      satisfies the intersection formula with the denominator cleared. */
  lemma IntersectionSolves(x1: real, y1: real, x2: real, y2: real, x3: real, y3: real, x4: real, y4: real,
                            px: real, py: real, c1: real, c2: real, d: real, X: real, Y: real)
    requires (px - x1) * (y2 - y1) == (py - y1) * (x2 - x1)
    requires (px - x3) * (y4 - y3) == (py - y3) * (x4 - x3)
    requires c1 == x1 * y2 - y1 * x2 && c2 == x3 * y4 - y3 * x4
    requires d == (x1 - x2) * (y3 - y4) - (y1 - y2) * (x3 - x4)
    requires X == (x3 - x4) * c1 - (x1 - x2) * c2 && Y == (y3 - y4) * c1 - (y1 - y2) * c2
    ensures px * d == X && py * d == Y
  {
    var a1, b1 := y2 - y1, x2 - x1;
    var a2, b2 := y4 - y3, x4 - x3;
    LineEquation(x1, y1, x2, y2, px, py);
    LineEquation(x3, y3, x4, y4, px, py);
    Cramer(a1, b1, c1, a2, b2, c2, px, py, b1 * a2 - a1 * b2);
    assert (x1 - x2) * (y3 - y4) - (y1 - y2) * (x3 - x4) == b1 * a2 - a1 * b2;
    assert (x3 - x4) * c1 - (x1 - x2) * c2 == b1 * c2 - b2 * c1;
    assert (y3 - y4) * c1 - (y1 - y2) * c2 == a1 * c2 - a2 * c1;
  }

  /** The equation of the line through (x1, y1), (x2, y2), rearranged as
      a1*x - b1*y == c. */
  lemma LineEquation(x1: real, y1: real, x2: real, y2: real, px: real, py: real)
    requires (px - x1) * (y2 - y1) == (py - y1) * (x2 - x1)
    ensures (y2 - y1) * px - (x2 - x1) * py == x1 * y2 - y1 * x2
  {
  }

  /** Cramer's rule for the two line equations, denominators cleared. */
  lemma Cramer(a1: real, b1: real, c1: real, a2: real, b2: real, c2: real, x: real, y: real, d: real)
    requires a1 * x - b1 * y == c1 && a2 * x - b2 * y == c2 && d == b1 * a2 - a1 * b2
    ensures x * d == b1 * c2 - b2 * c1 && y * d == a1 * c2 - a2 * c1
  {
    assert x * d == b1 * (a2 * x) - b2 * (a1 * x);
    assert y * d == a2 * (b1 * y) - a1 * (b2 * y);
  }

  /** Two reals whose products with the same non-zero d agree are equal. */
  lemma Cancel(u: real, v: real, d: real, w: real)
    requires d != 0.0 && u * d == w && v * d == w
    ensures u == v
  {
    assert (u - v) * d == 0.0;
  }

  /** Negating numerator and denominator leaves a quotient unchanged. */
  lemma NegDiv(x: real, d: real)
    requires d != 0.0
    ensures (-x) / (-d) == x / d
  {
  }

  /** Exchanging the two lines changes the sign of d and of both
      numerators, so the intersection is the same. */
  lemma LineInterceptSymmetric(a: Line, b: Line)
    ensures LineIntercept(a, b) == LineIntercept(b, a)
  {
    assert Det(b, a) == -Det(a, b) && NumX(b, a) == -NumX(a, b) && NumY(b, a) == -NumY(a, b);
    if Det(a, b) != 0.0 {
      NegDiv(NumX(a, b), Det(a, b));
      NegDiv(NumY(a, b), Det(a, b));
    }
  }

  /** Exchanging the end points of a line does not move the intersection. */
  lemma LineInterceptReversed(a: Line, b: Line)
    ensures LineIntercept(Reverse(a), b) == LineIntercept(a, b)
    ensures LineIntercept(a, Reverse(b)) == LineIntercept(a, b)
  {
    ReversedTerms(a, b);
    if Det(a, b) != 0.0 {
      NegDiv(NumX(a, b), Det(a, b));
      NegDiv(NumY(a, b), Det(a, b));
    }
  }

  /** Reversing either line negates d and both numerators. */
  lemma ReversedTerms(a: Line, b: Line)
    ensures Det(Reverse(a), b) == -Det(a, b) && Det(a, Reverse(b)) == -Det(a, b)
    ensures NumX(Reverse(a), b) == -NumX(a, b) && NumY(Reverse(a), b) == -NumY(a, b)
    ensures NumX(a, Reverse(b)) == -NumX(a, b) && NumY(a, Reverse(b)) == -NumY(a, b)
  {
    assert Cross(Reverse(a)) == -Cross(a) && Cross(Reverse(b)) == -Cross(b);
  }

  /** The diagonals of the square (0,0)-(2,2) cross at its centre. */
  lemma LineInterceptDiagonals()
    ensures LineIntercept(Line(Point(0.0, 0.0), Point(2.0, 2.0)), Line(Point(0.0, 2.0), Point(2.0, 0.0))) == Some(Point(1.0, 1.0))
  {
    var a, b := Line(Point(0.0, 0.0), Point(2.0, 2.0)), Line(Point(0.0, 2.0), Point(2.0, 0.0));
    assert Det(a, b) == -8.0;
    assert Cross(a) == 0.0 && Cross(b) == -4.0;
  }
}
