/** homography.js: the projective map of a point, the eight-coefficient
    transform fitted to four point correspondences, and the per-pixel warp
    of a source raster into a cached destination buffer. */
module Homography {
  import opened Wrappers
  import opened Geometry
  import opened LinearAlgebra
  import opened LuSolver

  /** The coefficients m0..m7 of a projective transform (m8 is fixed at 1). */
  type Coeffs = m: seq<real> | |m| == 8 witness [1.0, 0.0, 0.0, 0.0, 1.0, 0.0, 0.0, 0.0]

  /** A transform as the callers hold it: None stands for the coefficient
      array that `solve` produces for a system with a zero pivot column,
      every entry of which is non-finite. */
  type Transform = Option<Coeffs>

  const IdentityCoeffs: Coeffs := [1.0, 0.0, 0.0, 0.0, 1.0, 0.0, 0.0, 0.0]

  function Denominator(m: Coeffs, x: real, y: real): real {
    m[6] * x + m[7] * y + 1.0
  }

  function NumeratorX(m: Coeffs, x: real, y: real): real {
    m[0] * x + m[1] * y + m[2]
  }

  function NumeratorY(m: Coeffs, x: real, y: real): real {
    m[3] * x + m[4] * y + m[5]
  }

  /** `applyProjectiveTransformToPoint`: both coordinates share one
      denominator; when it is zero the source yields non-finite
      coordinates, here None. */
  function ProjectivePoint(m: Coeffs, x: real, y: real): (r: Option<Point>)
    ensures r.Some? <==> Denominator(m, x, y) != 0.0
    ensures r.Some? ==> r.value.x * Denominator(m, x, y) == NumeratorX(m, x, y)
    ensures r.Some? ==> r.value.y * Denominator(m, x, y) == NumeratorY(m, x, y)
  {
    var d := Denominator(m, x, y);
    if d == 0.0 then None else Some(Point(NumeratorX(m, x, y) / d, NumeratorY(m, x, y) / d))
  }

  /** `Homography.transformPoint`. */
  function TransformPoint(t: Transform, x: real, y: real): (r: Option<Point>)
    ensures r.Some? <==> t.Some? && Denominator(t.value, x, y) != 0.0
    ensures r.Some? ==> r.value.x * Denominator(t.value, x, y) == NumeratorX(t.value, x, y)
    ensures r.Some? ==> r.value.y * Denominator(t.value, x, y) == NumeratorY(t.value, x, y)
  {
    match t
    case None => None
    case Some(m) => ProjectivePoint(m, x, y)
  }

  /** `Homography.transformPointXY`. */
  function TransformPointXY(t: Transform, p: Point): (r: Option<Point>)
    ensures r.Some? <==> t.Some? && Denominator(t.value, p.x, p.y) != 0.0
    ensures r.Some? ==> r.value.x * Denominator(t.value, p.x, p.y) == NumeratorX(t.value, p.x, p.y)
    ensures r.Some? ==> r.value.y * Denominator(t.value, p.x, p.y) == NumeratorY(t.value, p.x, p.y)
  {
    TransformPoint(t, p.x, p.y)
  }

  /** The coefficients [1,0,0,0,1,0,0,0] map every point to itself. */
  lemma IdentityFixes(p: Point)
    ensures TransformPointXY(Some(IdentityCoeffs), p) == Some(p)
  {
    assert Denominator(IdentityCoeffs, p.x, p.y) == 1.0;
  }

  // ---------------------------------------------------------------------
  // Fitting a transform to four correspondences

  /** h takes s to d with the denominator cleared: the equation that rows
      2i and 2i+1 of the linear system state for correspondence i. */
  ghost predicate Corresponds(h: Coeffs, s: Point, d: Point) {
    NumeratorX(h, s.x, s.y) == d.x * Denominator(h, s.x, s.y)
    && NumeratorY(h, s.x, s.y) == d.y * Denominator(h, s.x, s.y)
  }

  /** Where the denominator is non-zero, satisfying the cleared equations
      is the same as mapping s to d. */
  lemma CorrespondsMaps(h: Coeffs, s: Point, d: Point)
    ensures TransformPointXY(Some(h), s) == Some(d) <==> Denominator(h, s.x, s.y) != 0.0 && Corresponds(h, s, d)
  {
    var D := Denominator(h, s.x, s.y);
    if D != 0.0 && Corresponds(h, s, d) {
      var q := TransformPointXY(Some(h), s).value;
      Cancel(q.x, d.x, D, NumeratorX(h, s.x, s.y));
      Cancel(q.y, d.y, D, NumeratorY(h, s.x, s.y));
    }
  }

  /** The x equation of a correspondence (sx, sy) -> (d, _). */
  function XRow(sx: real, sy: real, d: real): seq<real> {
    [sx, sy, 1.0, 0.0, 0.0, 0.0, -d * sx, -d * sy]
  }

  /** The y equation of a correspondence (sx, sy) -> (_, d). */
  function YRow(sx: real, sy: real, d: real): seq<real> {
    [0.0, 0.0, 0.0, sx, sy, 1.0, -d * sx, -d * sy]
  }

  /** The direct-linear-transform system built from the flattened squares:
      rows 2i and 2i+1 are the x and y equations of corner i. */
  function DltMatrix(src: seq<real>, dst: seq<real>): (A: Matrix)
    requires |src| == 8 && |dst| == 8
    ensures IsSquare(A, 8)
  {
    seq(8, r requires 0 <= r < 8 => DltRow(src, dst, r))
  }

  /** Row r of the system: an x equation for even r, a y equation for odd r. */
  function DltRow(src: seq<real>, dst: seq<real>, r: nat): (row: seq<real>)
    requires |src| == 8 && |dst| == 8 && r < 8
    ensures |row| == 8
  {
    if r % 2 == 0 then XRow(src[r], src[r + 1], dst[r]) else YRow(src[r - 1], src[r], dst[r])
  }

  function Corner(s: seq<real>, i: nat): Point
    requires |s| == 8 && i < 4
  {
    Point(s[2 * i], s[2 * i + 1])
  }

  /** Any h solving the system satisfies each correspondence, and the
      converse: the two rows of corner i hold exactly when h takes corner i
      of src to corner i of dst with the denominator cleared. */
  lemma DltRowsCorrespond(src: seq<real>, dst: seq<real>, h: Coeffs, i: nat)
    requires |src| == 8 && |dst| == 8 && i < 4
    ensures AxRow(DltMatrix(src, dst), 2 * i, h, 8) == dst[2 * i]
            && AxRow(DltMatrix(src, dst), 2 * i + 1, h, 8) == dst[2 * i + 1]
        <==> Corresponds(h, Corner(src, i), Corner(dst, i))
  {
    var A := DltMatrix(src, dst);
    var s, d := Corner(src, i), Corner(dst, i);
    DltRowOf(src, dst, i);
    XRowEquation(A, 2 * i, h, s.x, s.y, d.x);
    YRowEquation(A, 2 * i + 1, h, s.x, s.y, d.y);
  }

  /** An x row times h equals d exactly when the x numerator is d times
      the denominator. */
  lemma XRowEquation(A: Matrix, r: nat, h: Coeffs, sx: real, sy: real, d: real)
    requires r < |A| && A[r] == XRow(sx, sy, d)
    ensures AxRow(A, r, h, 8) == d <==> NumeratorX(h, sx, sy) == d * Denominator(h, sx, sy)
  {
    RowProduct8(A, r, h);
    assert AxRow(A, r, h, 8) == NumeratorX(h, sx, sy) - d * (h[6] * sx + h[7] * sy);
    assert d * Denominator(h, sx, sy) == d * (h[6] * sx + h[7] * sy) + d;
  }

  /** The same for a y row and the y numerator. */
  lemma YRowEquation(A: Matrix, r: nat, h: Coeffs, sx: real, sy: real, d: real)
    requires r < |A| && A[r] == YRow(sx, sy, d)
    ensures AxRow(A, r, h, 8) == d <==> NumeratorY(h, sx, sy) == d * Denominator(h, sx, sy)
  {
    RowProduct8(A, r, h);
    assert AxRow(A, r, h, 8) == NumeratorY(h, sx, sy) - d * (h[6] * sx + h[7] * sy);
    assert d * Denominator(h, sx, sy) == d * (h[6] * sx + h[7] * sy) + d;
  }

  lemma DltRowOf(src: seq<real>, dst: seq<real>, i: nat)
    requires |src| == 8 && |dst| == 8 && i < 4
    ensures DltMatrix(src, dst)[2 * i] == XRow(src[2 * i], src[2 * i + 1], dst[2 * i])
    ensures DltMatrix(src, dst)[2 * i + 1] == YRow(src[2 * i], src[2 * i + 1], dst[2 * i + 1])
  {
    assert (2 * i) % 2 == 0 && (2 * i + 1) % 2 == 1;
  }

  /** A product of a row of eight with h, written out. */
  lemma RowProduct8(A: Matrix, r: nat, h: Coeffs)
    requires r < |A| && |A[r]| == 8
    ensures AxRow(A, r, h, 8) == A[r][0] * h[0] + A[r][1] * h[1] + A[r][2] * h[2] + A[r][3] * h[3]
      + A[r][4] * h[4] + A[r][5] * h[5] + A[r][6] * h[6] + A[r][7] * h[7]
  {
    assert AxRow(A, r, h, 1) == A[r][0] * h[0];
    assert AxRow(A, r, h, 2) == AxRow(A, r, h, 1) + A[r][1] * h[1];
    assert AxRow(A, r, h, 3) == AxRow(A, r, h, 2) + A[r][2] * h[2];
    assert AxRow(A, r, h, 4) == AxRow(A, r, h, 3) + A[r][3] * h[3];
    assert AxRow(A, r, h, 5) == AxRow(A, r, h, 4) + A[r][4] * h[4];
    assert AxRow(A, r, h, 6) == AxRow(A, r, h, 5) + A[r][5] * h[5];
    assert AxRow(A, r, h, 7) == AxRow(A, r, h, 6) + A[r][6] * h[6];
  }

  /** `projectiveMatrixFromSquares`: solves the 8x8 system (in place, fast
      mode) for the coefficients that take each corner of the source square
      to the matching corner of the destination square. None when the
      elimination meets a zero pivot column. */
  method ProjectiveMatrixFromSquares(src: seq<real>, dst: seq<real>) returns (r: Transform)
    requires |src| == 8 && |dst| == 8
    ensures r.Some? ==> forall i :: 0 <= i < 4 ==> Corresponds(r.value, Corner(src, i), Corner(dst, i))
    ensures r.None? ==> exists P: seq<nat>, M: Matrix, k: nat :: ZeroColumn(DltMatrix(src, dst), P, M, k)
  {
    var A := ArrayOfRows(DltMatrix(src, dst));
    var b := new real[8](j requires 0 <= j < 8 => dst[j]);
    var x, ok := Solve(A, b, true);
    if !ok {
      return None;
    }
    var h: Coeffs := x[..];
    forall i | 0 <= i < 4
      ensures Corresponds(h, Corner(src, i), Corner(dst, i))
    {
      DltRowsCorrespond(src, dst, h, i);
    }
    r := Some(h);
  }

  /** `[p0.x, p0.y, ..., p3.x, p3.y]`. */
  function Flatten(p: seq<Point>): (s: seq<real>)
    requires |p| >= 4
    ensures |s| == 8 && forall i :: 0 <= i < 4 ==> Corner(s, i) == p[i]
  {
    [p[0].x, p[0].y, p[1].x, p[1].y, p[2].x, p[2].y, p[3].x, p[3].y]
  }

  /** The elimination of the correspondence system of the first four
      points of each list meets a zero pivot column. */
  ghost predicate SingularSystem(src: seq<Point>, dst: seq<Point>)
    requires |src| >= 4 && |dst| >= 4
  {
    exists P: seq<nat>, M: Matrix, k: nat :: ZeroColumn(DltMatrix(Flatten(src), Flatten(dst)), P, M, k)
  }

  /** `calculateTransformFromSquaresXY`: fits the transform to the first
      four points of each list; every source point whose denominator is
      non-zero lands on its destination point. There is no transform only
      when the system is singular. */
  method CalculateTransformFromSquaresXY(src: seq<Point>, dst: seq<Point>) returns (r: Transform)
    requires |src| >= 4 && |dst| >= 4
    ensures r.Some? ==> forall i :: 0 <= i < 4 ==> Corresponds(r.value, src[i], dst[i])
    ensures r.None? ==> SingularSystem(src, dst)
    ensures r.Some? ==> forall i :: 0 <= i < 4 && Denominator(r.value, src[i].x, src[i].y) != 0.0 ==>
      TransformPointXY(r, src[i]) == Some(dst[i])
  {
    r := ProjectiveMatrixFromSquares(Flatten(src), Flatten(dst));
    if r.Some? {
      forall i | 0 <= i < 4 && Denominator(r.value, src[i].x, src[i].y) != 0.0
        ensures TransformPointXY(r, src[i]) == Some(dst[i])
      {
        assert Corner(Flatten(src), i) == src[i] && Corner(Flatten(dst), i) == dst[i];
        CorrespondsMaps(r.value, src[i], dst[i]);
      }
    }
  }

  // ---------------------------------------------------------------------
  // Image warp

  /** A channel value of a Uint8ClampedArray. */
  newtype byte = b: int | 0 <= b < 256

  /** An RGBA raster: four bytes per pixel, row by row. */
  datatype Raster = Raster(width: nat, height: nat, data: seq<byte>) {
    predicate Valid() {
      |data| == width * height * 4
    }
  }

  /** Division with remainder has one answer. */
  lemma DivModUnique(n: int, d: int, q: int, r: int)
    requires d > 0 && 0 <= r < d && n == q * d + r
    ensures n / d == q && n % d == r
  {
    var k := q - n / d;
    assert k * d == n % d - r;
    if k >= 1 {
      MulAtLeast(k, d);
    }
  }

  lemma MulAtLeast(k: int, d: int)
    requires k >= 1 && d > 0
    ensures k * d >= d
  {
    assert k * d == (k - 1) * d + d;
    assert (k - 1) * d >= 0;
  }

  /** Pixel p of a row-major raster of width w is at column p % w of row p / w. */
  lemma RowMajor(w: nat, h: nat, x: nat, y: nat)
    requires x < w && y < h
    ensures y * w + x < w * h
    ensures (y * w + x) % w == x && (y * w + x) / w == y
  {
    DivModUnique(y * w + x, w, y, x);
    assert (y + 1) * w == y * w + w;
    assert (h - (y + 1)) * w >= 0;
    assert h * w == (y + 1) * w + (h - (y + 1)) * w;
  }

  /** Byte c of pixel p is at 4p + c, and that index determines p and c. */
  lemma ByteIndex(n: nat, p: nat, c: nat)
    requires p < n && c < 4
    ensures p * 4 + c < n * 4 && (p * 4 + c) / 4 == p && (p * 4 + c) % 4 == c
  {
  }

  /** Byte c of pixel (x, y) in a w by h RGBA raster is at (y w + x) 4 + c,
      and that index determines x, y and c back. */
  lemma PixelIndex(w: nat, h: nat, x: nat, y: nat, c: nat)
    requires x < w && y < h && c < 4
    ensures (y * w + x) * 4 + c < w * h * 4
    ensures ((y * w + x) * 4 + c) / 4 == y * w + x && ((y * w + x) * 4 + c) % 4 == c
    ensures (y * w + x) % w == x && (y * w + x) / w == y
  {
    RowMajor(w, h, x, y);
    ByteIndex(w * h, y * w + x, c);
  }

  /** The raster coordinates of byte t, inverse to PixelIndex. */
  lemma PixelOf(w: nat, h: nat, t: nat)
    requires t < w * h * 4
    ensures w > 0 && (t / 4) % w < w && (t / 4) / w < h
    ensures ((t / 4) / w * w + (t / 4) % w) * 4 + t % 4 == t
  {
    var p := t / 4;
    assert p < w * h;
    assert w > 0;
    if p / w >= h {
      MulMono(h, p / w, w);
    }
  }

  /** The pixel p = t / 4 holding byte t lies inside the raster. */
  lemma PixelInRange(w: nat, h: nat, t: nat, p: nat)
    requires t < w * h * 4 && p == t / 4
    ensures w > 0 && p % w < w && p / w < h
  {
    assert p < w * h;
    if p / w >= h {
      MulMono(h, p / w, w);
    }
  }

  lemma MulMono(a: nat, b: nat, c: nat)
    requires a <= b
    ensures a * c <= b * c
  {
    assert b * c == a * c + (b - a) * c;
  }

  /** The checkerboard grey of pixel (x, y) outside the source: 16-pixel
      tiles, 0xcc where the tile parities differ, else 0xaa. */
  function Checkerboard(x: nat, y: nat): (g: byte)
    ensures g == 0xcc || g == 0xaa
  {
    if (x / 16) % 2 != (y / 16) % 2 then 0xcc else 0xaa
  }

  /** The viewport point that destination pixel (x, y) stands for. */
  function ViewportPoint(vp: Rect, dstWidth: nat, dstHeight: nat, x: nat, y: nat): Point
    requires x < dstWidth && y < dstHeight
  {
    Point((x as real) * vp.width / (dstWidth as real) + vp.x, (y as real) * vp.height / (dstHeight as real) + vp.y)
  }

  /** The source pixel holding point q (its coordinates floored), when q
      exists and lies inside the source. */
  function Located(src: Raster, q: Option<Point>): (r: Option<(nat, nat)>)
    ensures r.Some? ==> r.value.0 < src.width && r.value.1 < src.height
  {
    match q
    case None => None
    case Some(p) =>
      if 0 <= p.x.Floor < src.width && 0 <= p.y.Floor < src.height then Some((p.x.Floor as nat, p.y.Floor as nat))
      else None
  }

  /** The source pixel that destination pixel (x, y) samples. */
  function Sample(src: Raster, t: Transform, dstWidth: nat, dstHeight: nat, vp: Rect, x: nat, y: nat): (r: Option<(nat, nat)>)
    requires x < dstWidth && y < dstHeight
    ensures r.Some? ==> r.value.0 < src.width && r.value.1 < src.height
  {
    Located(src, TransformPointXY(t, ViewportPoint(vp, dstWidth, dstHeight, x, y)))
  }

  /** Channel c of destination pixel (x, y): copied from the sampled source
      pixel, or the opaque checkerboard when there is none. */
  function WarpedChannel(src: Raster, t: Transform, dstWidth: nat, dstHeight: nat, vp: Rect, x: nat, y: nat, c: nat): byte
    requires src.Valid() && x < dstWidth && y < dstHeight && c < 4
  {
    match Sample(src, t, dstWidth, dstHeight, vp, x, y)
    case Some((sx, sy)) =>
      PixelIndex(src.width, src.height, sx, sy, c);
      src.data[(sy * src.width + sx) * 4 + c]
    case None => if c == 3 then 0xff else Checkerboard(x, y)
  }

  /** The channels of a pixel that samples source pixel (sx, sy) are the
      four bytes of that pixel, from srcIndex on. */
  lemma ChannelsCopied(src: Raster, t: Transform, dstWidth: nat, dstHeight: nat, vp: Rect, x: nat, y: nat, sx: nat, sy: nat, srcIndex: nat)
    requires src.Valid() && x < dstWidth && y < dstHeight
    requires Sample(src, t, dstWidth, dstHeight, vp, x, y) == Some((sx, sy)) && srcIndex == (sy * src.width + sx) * 4
    ensures srcIndex + 4 <= |src.data|
    ensures WarpedChannel(src, t, dstWidth, dstHeight, vp, x, y, 0) == src.data[srcIndex]
    ensures WarpedChannel(src, t, dstWidth, dstHeight, vp, x, y, 1) == src.data[srcIndex + 1]
    ensures WarpedChannel(src, t, dstWidth, dstHeight, vp, x, y, 2) == src.data[srcIndex + 2]
    ensures WarpedChannel(src, t, dstWidth, dstHeight, vp, x, y, 3) == src.data[srcIndex + 3]
  {
    PixelIndex(src.width, src.height, sx, sy, 3);
  }

  /** The channels of a pixel that samples nothing are the opaque
      checkerboard grey. */
  lemma ChannelsFilled(src: Raster, t: Transform, dstWidth: nat, dstHeight: nat, vp: Rect, x: nat, y: nat)
    requires src.Valid() && x < dstWidth && y < dstHeight
    requires Sample(src, t, dstWidth, dstHeight, vp, x, y).None?
    ensures WarpedChannel(src, t, dstWidth, dstHeight, vp, x, y, 0) == Checkerboard(x, y)
    ensures WarpedChannel(src, t, dstWidth, dstHeight, vp, x, y, 1) == Checkerboard(x, y)
    ensures WarpedChannel(src, t, dstWidth, dstHeight, vp, x, y, 2) == Checkerboard(x, y)
    ensures WarpedChannel(src, t, dstWidth, dstHeight, vp, x, y, 3) == 0xff
  {
  }

  /** The whole destination raster as bytes. */
  function Warped(src: Raster, t: Transform, dstWidth: nat, dstHeight: nat, vp: Rect): (r: seq<byte>)
    requires src.Valid()
    ensures |r| == dstWidth * dstHeight * 4
  {
    seq(dstWidth * dstHeight * 4, i requires 0 <= i < dstWidth * dstHeight * 4 =>
      WarpedByte(src, t, dstWidth, dstHeight, vp, i))
  }

  /** Byte i of the destination raster: channel i % 4 of the pixel it
      belongs to. */
  function WarpedByte(src: Raster, t: Transform, dstWidth: nat, dstHeight: nat, vp: Rect, i: nat): byte
    requires src.Valid() && i < dstWidth * dstHeight * 4
  {
    var p := i / 4;
    PixelInRange(dstWidth, dstHeight, i, p);
    WarpedChannel(src, t, dstWidth, dstHeight, vp, p % dstWidth, p / dstWidth, i % 4)
  }

  /** Byte c of pixel (x, y) of the warped raster is that pixel's channel. */
  lemma WarpedAt(src: Raster, t: Transform, dstWidth: nat, dstHeight: nat, vp: Rect, x: nat, y: nat, c: nat)
    requires src.Valid() && x < dstWidth && y < dstHeight && c < 4
    ensures (y * dstWidth + x) * 4 + c < dstWidth * dstHeight * 4
    ensures Warped(src, t, dstWidth, dstHeight, vp)[(y * dstWidth + x) * 4 + c] == WarpedChannel(src, t, dstWidth, dstHeight, vp, x, y, c)
  {
    PixelIndex(dstWidth, dstHeight, x, y, c);
  }

  class Homography {
    /** The destination buffer kept between calls of WarpImage. */
    var dstImageBuffer: array?<byte>

    constructor ()
      ensures dstImageBuffer == null
    {
      dstImageBuffer := null;
    }

    /** `warpImage`: fills the destination raster pixel by pixel, reusing
        the buffer of the previous call when it has the right length and
        allocating a new one otherwise. The result wraps that buffer, which
        the `ImageData` constructor refuses for an image of zero area. */
    method WarpImage(src: Raster, t: Transform, dstWidth: nat, dstHeight: nat, vp: Rect) returns (img: array<byte>)
      requires src.Valid() && dstWidth > 0 && dstHeight > 0
      modifies this, dstImageBuffer
      ensures img == dstImageBuffer
      ensures old(dstImageBuffer) != null && old(dstImageBuffer.Length) == dstWidth * dstHeight * 4 ==> img == old(dstImageBuffer)
      ensures old(dstImageBuffer) == null || old(dstImageBuffer.Length) != dstWidth * dstHeight * 4 ==> fresh(img)
      ensures old(dstImageBuffer) != null && img != old(dstImageBuffer) ==> old(dstImageBuffer)[..] == old(dstImageBuffer[..])
      ensures img[..] == Warped(src, t, dstWidth, dstHeight, vp)
    {
      if dstImageBuffer == null || dstImageBuffer.Length != dstWidth * dstHeight * 4 {
        dstImageBuffer := new byte[dstWidth * dstHeight * 4];
      }
      img := dstImageBuffer;
      ghost var w := Warped(src, t, dstWidth, dstHeight, vp);
      WarpRows(src, t, dstWidth, dstHeight, vp, w);
      assert img[..] == w;
    }

    /** The two loops of warpImage: fills the buffer row by row. */
    method WarpRows(src: Raster, t: Transform, dstWidth: nat, dstHeight: nat, vp: Rect, ghost w: seq<byte>)
      requires src.Valid() && w == Warped(src, t, dstWidth, dstHeight, vp)
      requires dstImageBuffer != null && dstImageBuffer.Length == |w|
      modifies dstImageBuffer
      ensures forall i :: 0 <= i < |w| ==> dstImageBuffer[i] == w[i]
    {
      var y := 0;
      ghost var done := 0;
      while y < dstHeight
        invariant y <= dstHeight
        invariant done == y * dstWidth * 4
        invariant forall i :: 0 <= i < done ==> dstImageBuffer[i] == w[i]
      {
        WarpRow(src, t, dstWidth, dstHeight, vp, y, done, w);
        done := done + dstWidth * 4;
        y := y + 1;
      }
      assert done == |w|;
    }

    /** One iteration of the outer loop: fills row y, which starts at byte
        rowStart, given that the rows above it are done. */
    method WarpRow(src: Raster, t: Transform, dstWidth: nat, dstHeight: nat, vp: Rect, y: nat, ghost rowStart: nat, ghost w: seq<byte>)
      requires src.Valid() && y < dstHeight && rowStart == y * dstWidth * 4
      requires w == Warped(src, t, dstWidth, dstHeight, vp)
      requires dstImageBuffer != null && dstImageBuffer.Length == |w|
      requires forall i :: 0 <= i < rowStart ==> dstImageBuffer[i] == w[i]
      modifies dstImageBuffer
      ensures rowStart + dstWidth * 4 <= dstImageBuffer.Length && rowStart + dstWidth * 4 == (y + 1) * dstWidth * 4
      ensures forall i :: 0 <= i < rowStart + dstWidth * 4 ==> dstImageBuffer[i] == w[i]
    {
      var img := dstImageBuffer;
      MulMono(y + 1, dstHeight, dstWidth);
      assert rowStart + dstWidth * 4 == (y + 1) * dstWidth * 4;
      var x := 0;
      ghost var done := rowStart;
      while x < dstWidth
        invariant x <= dstWidth && dstImageBuffer == img
        invariant done == rowStart + x * 4 <= img.Length
        invariant forall i :: 0 <= i < done ==> img[i] == w[i]
      {
        var dstIndex := (y * dstWidth + x) * 4;
        StorePixel(src, t, dstWidth, dstHeight, vp, x, y, dstIndex, w);
        done := dstIndex + 4;
        x := x + 1;
      }
    }

    /** Writes pixel (x, y) and shows that its four bytes now agree with
        the warped raster w. */
    method StorePixel(src: Raster, t: Transform, dstWidth: nat, dstHeight: nat, vp: Rect, x: nat, y: nat, dstIndex: nat, ghost w: seq<byte>)
      requires src.Valid() && x < dstWidth && y < dstHeight && dstIndex == (y * dstWidth + x) * 4
      requires w == Warped(src, t, dstWidth, dstHeight, vp)
      requires dstImageBuffer != null && dstImageBuffer.Length == |w|
      modifies dstImageBuffer
      ensures dstIndex + 4 <= dstImageBuffer.Length
      ensures forall i :: 0 <= i < dstImageBuffer.Length && (i < dstIndex || dstIndex + 4 <= i) ==>
        dstImageBuffer[i] == old(dstImageBuffer[i])
      ensures forall i :: dstIndex <= i < dstIndex + 4 ==> dstImageBuffer[i] == w[i]
    {
      var img := dstImageBuffer;
      WarpPixel(src, t, dstWidth, dstHeight, vp, x, y, dstIndex);
      forall i | dstIndex <= i < dstIndex + 4
        ensures img[i] == w[i]
      {
        var c := i - dstIndex;
        WarpedAt(src, t, dstWidth, dstHeight, vp, x, y, c);
        assert c == 0 || c == 1 || c == 2 || c == 3;
      }
    }

    /** One iteration of the inner loop: writes the four bytes of pixel
        (x, y), which start at dstIndex, and nothing else. */
    method WarpPixel(src: Raster, t: Transform, dstWidth: nat, dstHeight: nat, vp: Rect, x: nat, y: nat, dstIndex: nat)
      requires src.Valid() && x < dstWidth && y < dstHeight && dstIndex == (y * dstWidth + x) * 4
      requires dstImageBuffer != null && dstImageBuffer.Length == dstWidth * dstHeight * 4
      modifies dstImageBuffer
      ensures dstIndex + 4 <= dstImageBuffer.Length
      ensures forall i :: 0 <= i < dstImageBuffer.Length && (i < dstIndex || dstIndex + 4 <= i) ==>
        dstImageBuffer[i] == old(dstImageBuffer[i])
      ensures dstImageBuffer[dstIndex] == WarpedChannel(src, t, dstWidth, dstHeight, vp, x, y, 0)
      ensures dstImageBuffer[dstIndex + 1] == WarpedChannel(src, t, dstWidth, dstHeight, vp, x, y, 1)
      ensures dstImageBuffer[dstIndex + 2] == WarpedChannel(src, t, dstWidth, dstHeight, vp, x, y, 2)
      ensures dstImageBuffer[dstIndex + 3] == WarpedChannel(src, t, dstWidth, dstHeight, vp, x, y, 3)
    {
      var srcPoint := TransformPointXY(t, ViewportPoint(vp, dstWidth, dstHeight, x, y));
      var buf := dstImageBuffer;
      PixelIndex(dstWidth, dstHeight, x, y, 3);
      if srcPoint.Some? && 0 <= srcPoint.value.x.Floor < src.width && 0 <= srcPoint.value.y.Floor < src.height {
        var sx: nat, sy: nat := srcPoint.value.x.Floor, srcPoint.value.y.Floor;
        var srcIndex := (sy * src.width + sx) * 4;
        PixelIndex(src.width, src.height, sx, sy, 3);
        CopyPixel(buf, dstIndex, src.data, srcIndex);
        ChannelsCopied(src, t, dstWidth, dstHeight, vp, x, y, sx, sy, srcIndex);
      } else {
        var c := if (x / 16) % 2 != (y / 16) % 2 then 0xcc else 0xaa;
        FillPixel(buf, dstIndex, c);
        ChannelsFilled(src, t, dstWidth, dstHeight, vp, x, y);
      }
    }
  }

  /** Four bytes of src from srcIndex on are copied to buf from dstIndex on. */
  method CopyPixel(buf: array<byte>, dstIndex: nat, src: seq<byte>, srcIndex: nat)
    requires dstIndex + 4 <= buf.Length && srcIndex + 4 <= |src|
    modifies buf
    ensures forall i :: 0 <= i < buf.Length && (i < dstIndex || dstIndex + 4 <= i) ==> buf[i] == old(buf[i])
    ensures buf[dstIndex] == src[srcIndex] && buf[dstIndex + 1] == src[srcIndex + 1]
    ensures buf[dstIndex + 2] == src[srcIndex + 2] && buf[dstIndex + 3] == src[srcIndex + 3]
  {
    buf[dstIndex + 0] := src[srcIndex + 0];
    buf[dstIndex + 1] := src[srcIndex + 1];
    buf[dstIndex + 2] := src[srcIndex + 2];
    buf[dstIndex + 3] := src[srcIndex + 3];
  }

  /** The opaque grey g is written to the pixel at dstIndex. */
  method FillPixel(buf: array<byte>, dstIndex: nat, g: byte)
    requires dstIndex + 4 <= buf.Length
    modifies buf
    ensures forall i :: 0 <= i < buf.Length && (i < dstIndex || dstIndex + 4 <= i) ==> buf[i] == old(buf[i])
    ensures buf[dstIndex] == g && buf[dstIndex + 1] == g && buf[dstIndex + 2] == g && buf[dstIndex + 3] == 0xff
  {
    buf[dstIndex + 0] := g;
    buf[dstIndex + 1] := g;
    buf[dstIndex + 2] := g;
    buf[dstIndex + 3] := 0xff;
  }

  /** Warping through the identity transform, with the whole source as
      viewport and a destination of the source's size, copies the source. */
  lemma WarpIdentity(src: Raster)
    requires src.Valid()
    ensures Warped(src, Some(IdentityCoeffs), src.width, src.height, Rect(0.0, 0.0, src.width as real, src.height as real)) == src.data
  {
    forall i | 0 <= i < |src.data|
      ensures Warped(src, Some(IdentityCoeffs), src.width, src.height, Rect(0.0, 0.0, src.width as real, src.height as real))[i] == src.data[i]
    {
      WarpIdentityAt(src, i);
    }
  }

  lemma WarpIdentityAt(src: Raster, i: nat)
    requires src.Valid() && i < |src.data|
    ensures Warped(src, Some(IdentityCoeffs), src.width, src.height, Rect(0.0, 0.0, src.width as real, src.height as real))[i] == src.data[i]
  {
    var w, h := src.width, src.height;
    PixelOf(w, h, i);
    var x, y, c := (i / 4) % w, (i / 4) / w, i % 4;
    IdentitySamples(src, x, y);
    ChannelsCopied(src, Some(IdentityCoeffs), w, h, Rect(0.0, 0.0, w as real, h as real), x, y, x, y, (y * w + x) * 4);
    WarpedAt(src, Some(IdentityCoeffs), w, h, Rect(0.0, 0.0, w as real, h as real), x, y, c);
    assert c == 0 || c == 1 || c == 2 || c == 3;
  }

  /** Through the identity, with the whole source as viewport, pixel (x, y)
      samples source pixel (x, y). */
  lemma IdentitySamples(src: Raster, x: nat, y: nat)
    requires x < src.width && y < src.height
    ensures Sample(src, Some(IdentityCoeffs), src.width, src.height,
                   Rect(0.0, 0.0, src.width as real, src.height as real), x, y) == Some((x, y))
  {
    var w, h := src.width, src.height;
    var p := ViewportPoint(Rect(0.0, 0.0, w as real, h as real), w, h, x, y);
    MulDivCancel(x as real, w as real);
    MulDivCancel(y as real, h as real);
    assert p == Point(x as real, y as real);
    IdentityFixes(p);
  }

  lemma MulDivCancel(a: real, d: real)
    requires d != 0.0
    ensures a * d / d == a
  {
  }

  /** Without a usable transform every pixel is the opaque checkerboard. */
  lemma WarpWithoutTransform(src: Raster, dstWidth: nat, dstHeight: nat, vp: Rect, x: nat, y: nat)
    requires src.Valid() && x < dstWidth && y < dstHeight
    ensures (y * dstWidth + x) * 4 + 3 < dstWidth * dstHeight * 4
    ensures Warped(src, None, dstWidth, dstHeight, vp)[(y * dstWidth + x) * 4 + 3] == 0xff
    ensures Warped(src, None, dstWidth, dstHeight, vp)[(y * dstWidth + x) * 4] == Checkerboard(x, y)
    ensures Warped(src, None, dstWidth, dstHeight, vp)[(y * dstWidth + x) * 4 + 1] == Checkerboard(x, y)
    ensures Warped(src, None, dstWidth, dstHeight, vp)[(y * dstWidth + x) * 4 + 2] == Checkerboard(x, y)
  {
    WarpedAt(src, None, dstWidth, dstHeight, vp, x, y, 0);
    WarpedAt(src, None, dstWidth, dstHeight, vp, x, y, 1);
    WarpedAt(src, None, dstWidth, dstHeight, vp, x, y, 2);
    WarpedAt(src, None, dstWidth, dstHeight, vp, x, y, 3);
  }
}
