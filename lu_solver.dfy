/** The dense LU decomposition with partial pivoting and the substitution
    solver that homography.js takes over from numeric.js. A matrix is an
    array of row arrays: pivoting exchanges row references, elimination
    updates the rows in place. Arithmetic is exact (real). */
module LuSolver {
  import opened LinearAlgebra

  /** The rows of A as a matrix value. */
  ghost function Rows(A: array<array<real>>): Matrix
    reads A, set i | 0 <= i < A.Length :: A[i]
  {
    seq(A.Length, i requires 0 <= i < A.Length reads A, set j | 0 <= j < A.Length :: A[j] => A[i][..])
  }

  /** A holds n distinct row arrays of length n. */
  ghost predicate SquareRows(A: array<array<real>>, n: nat)
    reads A
  {
    A.Length == n
    && (forall i :: 0 <= i < n ==> A[i].Length == n)
    && (forall i, j :: 0 <= i < j < n ==> A[i] != A[j])
  }

  function Abs(r: real): real {
    if r < 0.0 then -r else r
  }

  /** `clone` with its default arguments (depth 0 of 1): a new top-level
      array holding the same elements, so row arrays are shared, not copied. */
  method Clone<T>(a: array<T>) returns (r: array<T>)
    ensures fresh(r) && r[..] == a[..]
  {
    r := new T[a.Length](i requires 0 <= i < a.Length reads a => a[i]);
  }

  /** A matrix literal `[[...], ...]`: a fresh outer array of fresh rows. */
  method ArrayOfRows(M: Matrix) returns (A: array<array<real>>)
    requires IsSquare(M, |M|)
    ensures fresh(A) && SquareRows(A, |M|) && Rows(A) == M
    ensures forall i :: 0 <= i < |M| ==> fresh(A[i])
  {
    var n := |M|;
    var empty := new real[0];
    A := new array<real>[n](_ => empty);
    var i := 0;
    while i < n
      invariant i <= n
      invariant forall t :: 0 <= t < i ==> fresh(A[t]) && A[t].Length == n && A[t][..] == M[t]
      invariant forall t, u :: 0 <= t < u < i ==> A[t] != A[u]
    {
      var row := new real[n](j requires 0 <= j < n => M[i][j]);
      A[i] := row;
      i := i + 1;
    }
  }

  // ---------------------------------------------------------------------
  // Pivot choice

  /** p is the first row in k..n-1 whose entry in column k has the largest
      magnitude. */
  ghost predicate IsPivot(M: Matrix, k: nat, p: nat)
    requires IsSquare(M, |M|) && k < |M|
  {
    k <= p < |M|
    && (forall j :: k <= j < |M| ==> Abs(M[j][k]) <= Abs(M[p][k]))
    && (forall j :: k <= j < p ==> Abs(M[j][k]) < Abs(M[p][k]))
  }

  /** The pivot is determined by the column: ties go to the earliest row. */
  lemma PivotUnique(M: Matrix, k: nat, p: nat, q: nat)
    requires IsSquare(M, |M|) && k < |M|
    requires IsPivot(M, k, p) && IsPivot(M, k, q)
    ensures p == q
  {
    assert Abs(M[p][k]) == Abs(M[q][k]);
  }

  /** The search for the pivot of column k: a strict `<` keeps the first
      row of maximal magnitude. */
  method PivotRow(A: array<array<real>>, n: nat, k: nat) returns (p: nat)
    requires SquareRows(A, n) && k < n
    ensures IsPivot(Rows(A), k, p)
  {
    p := k;
    var max := Abs(A[k][k]);
    var j := k + 1;
    while j < n
      invariant k < j <= n && k <= p < j
      invariant max == Abs(A[p][k])
      invariant forall t :: k <= t < j ==> Abs(A[t][k]) <= max
      invariant forall t :: k <= t < p ==> Abs(A[t][k]) < max
    {
      var absAjk := Abs(A[j][k]);
      if max < absAjk {
        max := absAjk;
        p := j;
      }
      j := j + 1;
    }
  }

  // ---------------------------------------------------------------------
  // One elimination step

  /** Divides column k below the diagonal by the pivot A[k][k]. */
  method ScaleColumn(A: array<array<real>>, n: nat, k: nat)
    requires SquareRows(A, n) && k < n && A[k][k] != 0.0
    modifies set i | k < i < n :: A[i]
    ensures Rows(A) == ScaleStep(old(Rows(A)), k)
  {
    ghost var M := Rows(A);
    ghost var S := ScaleStep(M, k);
    var Akk := A[k][k];
    var i := k + 1;
    while i < n
      invariant k < i <= n
      invariant forall t :: 0 <= t < n ==> A[t][..] == if k < t < i then S[t] else M[t]
    {
      assert S[i] == M[i][k := M[i][k] / Akk];
      A[i][k] := A[i][k] / Akk;
      i := i + 1;
    }
    assert forall t :: 0 <= t < n ==> Rows(A)[t] == S[t];
  }

  /** Subtracts Ai[k] times row Ak from row Ai in the columns right of k,
      two columns per iteration and the last odd one after the loop. */
  method EliminateRow(Ai: array<real>, Ak: array<real>, k: nat, n: nat)
    requires Ai.Length == n && Ak.Length == n && k < n && Ai != Ak
    modifies Ai
    ensures Ai[..] == SubtractedRow(old(Ai[..]), Ak[..], k)
  {
    ghost var r := Ai[..];
    ghost var s := SubtractedRow(r, Ak[..], k);
    var n1 := n - 1;
    var j := k + 1;
    while j < n1
      invariant k < j <= n && Ai[k] == r[k]
      invariant forall t :: 0 <= t < n ==> Ai[t] == if t < j then s[t] else r[t]
    {
      Ai[j] := Ai[j] - Ai[k] * Ak[j];
      j := j + 1;
      Ai[j] := Ai[j] - Ai[k] * Ak[j];
      j := j + 1;
    }
    if j == n1 {
      Ai[j] := Ai[j] - Ai[k] * Ak[j];
    }
    assert forall t :: 0 <= t < n ==> Ai[..][t] == s[t];
  }

  /** Eliminates below the pivot in every row under row k. */
  method EliminateBelow(A: array<array<real>>, n: nat, k: nat)
    requires SquareRows(A, n) && k < n
    modifies set i | k < i < n :: A[i]
    ensures Rows(A) == SubtractStep(old(Rows(A)), k)
  {
    ghost var M := Rows(A);
    ghost var S := SubtractStep(M, k);
    var i := k + 1;
    while i < n
      invariant k < i <= n
      invariant forall t :: 0 <= t < n ==> A[t][..] == if k < t < i then S[t] else M[t]
    {
      EliminateRowOf(A, n, k, i, M, S);
      i := i + 1;
    }
    assert forall t :: 0 <= t < n ==> Rows(A)[t] == S[t];
  }

  /** Row i's turn in EliminateBelow: it alone changes, to its target row. */
  method EliminateRowOf(A: array<array<real>>, n: nat, k: nat, i: nat, ghost M: Matrix, ghost S: Matrix)
    requires SquareRows(A, n) && k < i < n && IsSquare(M, n) && S == SubtractStep(M, k)
    requires forall t :: 0 <= t < n ==> A[t][..] == if k < t < i then S[t] else M[t]
    modifies A[i]
    ensures forall t :: 0 <= t < n ==> A[t][..] == if k < t <= i then S[t] else M[t]
  {
    assert S[i] == SubtractedRow(M[i], M[k], k);
    EliminateRow(A[i], A[k], k, n);
  }

  // ---------------------------------------------------------------------
  // The decomposition

  lemma {:induction false} PermutationPrefix(P: seq<nat>, Q: seq<nat>, k: nat, n: nat)
    requires k <= |P| && k <= |Q| && P[..k] == Q[..k]
    requires forall t :: 0 <= t < k ==> t <= P[t] < n
    ensures forall t :: 0 <= t < k ==> t <= Q[t] < n
    ensures Permutation(P, k, n) == Permutation(Q, k, n)
  {
    assert forall t :: 0 <= t < k ==> P[t] == P[..k][t] == Q[..k][t] == Q[t];
    if k > 0 {
      assert P[..k - 1] == P[..k][..k - 1];
      assert Q[..k - 1] == Q[..k][..k - 1];
      PermutationPrefix(P, Q, k - 1, n);
    }
  }

  /** Exchanges the references to rows k and p (nothing when p == k). */
  method ExchangeRows(A: array<array<real>>, n: nat, k: nat, p: nat)
    requires SquareRows(A, n) && k < n && p < n
    modifies A
    ensures A[..] == Swap(old(A[..]), k, p) && SquareRows(A, n)
    ensures Rows(A) == Swap(old(Rows(A)), k, p)
  {
    if p != k {
      var Ak := A[k];
      A[k] := A[p];
      A[p] := Ak;
    }
    assert forall t :: 0 <= t < n ==> Rows(A)[t] == Swap(old(Rows(A)), k, p)[t];
  }

  /** When the pivot of column k is zero, so is the whole column on and below
      the diagonal, before and after the exchange. */
  lemma ZeroPivotColumn(M: Matrix, k: nat, p: nat)
    requires IsSquare(M, |M|) && k < |M| && IsPivot(M, k, p)
    requires Swap(M, k, p)[k][k] == 0.0
    ensures forall j :: k <= j < |M| ==> Swap(M, k, p)[j][k] == 0.0
  {
    forall j | k <= j < |M|
      ensures Swap(M, k, p)[j][k] == 0.0
    {
      var s := if j == k then p else if j == p then k else j;
      assert Swap(M, k, p)[j] == M[s];
    }
  }

  /** Recording pivot p as P[k] extends the pivot list and applies the
      exchange of rows k and p to the index list. */
  lemma PivotRecorded(A0: Matrix, P0: seq<nat>, P1: seq<nat>, M: Matrix, k: nat, p: nat)
    requires k < |A0| == |P0| && P1 == P0[k := p] && k <= p < |A0|
    requires PivotsInRange(P0, k, |A0|) && Factored(A0, Permutation(P0, k, |A0|), M, k)
    ensures PivotsInRange(P1, k + 1, |A0|)
    ensures Permutation(P1, k + 1, |A0|) == Swap(Permutation(P0, k, |A0|), k, p)
    ensures Factored(A0, Permutation(P1, k + 1, |A0|), Swap(M, k, p), k)
  {
    assert P0[..k] == P1[..k];
    PermutationPrefix(P0, P1, k, |A0|);
    FactoredSwap(A0, Permutation(P0, k, |A0|), M, k, p);
  }

  /** The same for the row references themselves. */
  lemma RowsRecorded<T>(R0: seq<T>, P0: seq<nat>, P1: seq<nat>, rows: seq<T>, k: nat, p: nat)
    requires k < |R0| == |P0| == |rows| && P1 == P0[k := p] && k <= p < |R0|
    requires PivotsInRange(P0, k, |R0|) && rows == ApplySwaps(R0, P0, k)
    ensures Swap(rows, k, p) == ApplySwaps(R0, P1, k + 1)
  {
    assert P0[..k] == P1[..k];
    ApplySwapsPrefix(R0, P0, P1, k);
  }

  /** One completed step moves the invariant from k to k + 1 and leaves
      rows 0..k, whose diagonal entries are the pivots, as they were. */
  lemma StepDone(A0: Matrix, perm: seq<nat>, M: Matrix, k: nat)
    requires Factored(A0, perm, M, k) && k < |A0| && M[k][k] != 0.0
    ensures Factored(A0, perm, SubtractStep(ScaleStep(M, k), k), k + 1)
    ensures forall t :: 0 <= t <= k ==> SubtractStep(ScaleStep(M, k), k)[t] == M[t]
  {
    FactoredStep(A0, perm, M, k);
  }

  /** Step k of the decomposition: choose the pivot row, exchange it into
      place and, unless the pivot is zero, scale and eliminate below it. */
  method EliminationStep(A: array<array<real>>, n: nat, k: nat) returns (p: nat, ok: bool)
    requires SquareRows(A, n) && k < n
    modifies A, set i | k <= i < n :: A[i]
    ensures SquareRows(A, n) && IsPivot(old(Rows(A)), k, p)
    ensures A[..] == Swap(old(A[..]), k, p)
    ensures ok == (Swap(old(Rows(A)), k, p)[k][k] != 0.0)
    ensures ok ==> Rows(A) == SubtractStep(ScaleStep(Swap(old(Rows(A)), k, p), k), k)
    ensures !ok ==> Rows(A) == Swap(old(Rows(A)), k, p)
  {
    p := PivotRow(A, n, k);
    ExchangeRows(A, n, k, p);
    var Akk := A[k][k];
    if Akk == 0.0 {
      return p, false;
    }
    ScaleColumn(A, n, k);
    EliminateBelow(A, n, k);
    ok := true;
  }

  /** What one step of the decomposition does to the ghost state: the pivot
      list grows by p, the row references and the reconstruction follow the
      exchange, and either the invariant advances or the column is zero. */
  lemma StepAdvances<T>(A0: Matrix, R0: seq<T>, P0: seq<nat>, P1: seq<nat>, M: Matrix, M1: Matrix,
                        rows: seq<T>, k: nat, p: nat, ok: bool)
    requires k < |A0| == |P0| == |R0| == |rows| && P1 == P0[k := p]
    requires PivotsInRange(P0, k, |A0|) && Factored(A0, Permutation(P0, k, |A0|), M, k)
    requires rows == ApplySwaps(R0, P0, k)
    requires forall t :: 0 <= t < k ==> M[t][t] != 0.0
    requires IsPivot(M, k, p)
    requires ok == (Swap(M, k, p)[k][k] != 0.0)
    requires ok ==> M1 == SubtractStep(ScaleStep(Swap(M, k, p), k), k)
    requires !ok ==> M1 == Swap(M, k, p)
    ensures PivotsInRange(P1, k + 1, |A0|)
    ensures Swap(rows, k, p) == ApplySwaps(R0, P1, k + 1)
    ensures ok ==> Factored(A0, Permutation(P1, k + 1, |A0|), M1, k + 1)
    ensures ok ==> forall t :: 0 <= t <= k ==> M1[t][t] != 0.0
    ensures !ok ==> ZeroColumn(A0, P1, M1, k)
  {
    PivotRecorded(A0, P0, P1, M, k, p);
    RowsRecorded(R0, P0, P1, rows, k, p);
    if ok {
      StepDone(A0, Permutation(P1, k + 1, |A0|), Swap(M, k, p), k);
      forall t | 0 <= t < k
        ensures M1[t][t] != 0.0
      {
        assert M1[t] == Swap(M, k, p)[t] == M[t];
      }
    } else {
      ZeroPivotColumn(M, k, p);
    }
  }

  /** The loop invariant of the decomposition after k steps, on values: the
      first k pivots are recorded, the working matrix M encodes the original
      A0 in the recorded row order, the row references are the original ones
      exchanged in that order, and the first k pivots are non-zero. */
  ghost predicate FactoredSoFar<T>(A0: Matrix, R0: seq<T>, P: seq<nat>, M: Matrix, rows: seq<T>, k: nat) {
    |A0| == |R0| == |P| == |rows|
    && PivotsInRange(P, k, |A0|)
    && Factored(A0, Permutation(P, k, |A0|), M, k)
    && rows == ApplySwaps(R0, P, k)
    && forall t :: 0 <= t < k ==> M[t][t] != 0.0
  }

  /** Step k of the decomposition together with the recording of its pivot
      in P[k]. */
  method FactorStep(A: array<array<real>>, P: array<nat>, k: nat, ghost A0: Matrix, ghost R0: seq<array<real>>)
      returns (ok: bool)
    requires SquareRows(A, A.Length) && P.Length == A.Length && k < A.Length
    requires FactoredSoFar(A0, R0, P[..], Rows(A), A[..], k)
    modifies A, P, set i | 0 <= i < |R0| :: R0[i]
    ensures SquareRows(A, A.Length) && P[..k] == old(P[..k])
    ensures ok ==> FactoredSoFar(A0, R0, P[..], Rows(A), A[..], k + 1)
    ensures !ok ==> ZeroColumn(A0, P[..], Rows(A), k)
  {
    ghost var M := Rows(A);
    ghost var rows := A[..];
    ghost var P0 := P[..];
    RowsKept(R0, P0, rows, k);
    var p, stepOk := EliminationStep(A, A.Length, k);
    ghost var M1 := Rows(A);
    P[k] := p;
    assert Rows(A) == M1;
    StepAdvances(A0, R0, P0, P[..], M, M1, rows, k, p, stepOk);
    ok := stepOk;
  }

  /** The exchanges move row references around but bring in no new ones. */
  lemma RowsKept<T>(R0: seq<T>, P: seq<nat>, rows: seq<T>, k: nat)
    requires PivotsInRange(P, k, |R0|) && rows == ApplySwaps(R0, P, k)
    ensures forall t :: 0 <= t < |rows| ==> rows[t] in R0
  {
    forall t | 0 <= t < |rows|
      ensures rows[t] in R0
    {
      ApplySwapsIndex(R0, P, k, t);
    }
  }

  /** The in-place decomposition of `LU(A, true)`. On success P records the
      pivot row of every step and the rows of A hold the multipliers of L
      below the diagonal and U on and above it, for the rows of the
      original A taken in the order Permutation(P). It stops at the first
      step whose whole pivot column is zero. */
  method Factorise(A: array<array<real>>) returns (P: array<nat>, ok: bool)
    requires SquareRows(A, A.Length)
    modifies A, set i | 0 <= i < A.Length :: A[i]
    ensures SquareRows(A, A.Length) && fresh(P) && P.Length == A.Length
    ensures ok ==> FactoredSoFar(old(Rows(A)), old(A[..]), P[..], Rows(A), A[..], A.Length)
    ensures !ok ==> exists k :: 0 <= k < A.Length && ZeroColumn(old(Rows(A)), P[..], Rows(A), k)
  {
    var n := A.Length;
    ghost var A0 := Rows(A);
    ghost var R0 := A[..];
    P := new nat[n];
    FactoredInit(A0);
    var k := 0;
    while k < n
      invariant k <= n && SquareRows(A, n)
      invariant FactoredSoFar(A0, R0, P[..], Rows(A), A[..], k)
    {
      ok := FactorStep(A, P, k, A0, R0);
      if !ok {
        return;
      }
      k := k + 1;
    }
    ok := true;
    assert FactoredSoFar(A0, R0, P[..], Rows(A), A[..], n);
    assert A0 == old(Rows(A)) && R0 == old(A[..]);
  }

  /** The state in which the decomposition gives up: after the pivot
      exchange of step k, column k is zero on and below the diagonal. */
  ghost predicate ZeroColumn(A: Matrix, P: seq<nat>, M: Matrix, k: nat) {
    k < |A| == |P|
    && PivotsInRange(P, k + 1, |A|)
    && Factored(A, Permutation(P, k + 1, |A|), M, k)
    && forall j :: k <= j < |A| ==> M[j][k] == 0.0
  }

  // ---------------------------------------------------------------------
  // Substitution

  /** Rows 0..i-1 of L y = v hold (L unit lower triangular, stored in M). */
  ghost predicate ForwardPrefix(M: Matrix, v: seq<real>, y: seq<real>, i: nat) {
    |y| == |v| == |M| && i <= |M|
    && forall t :: 0 <= t < i ==> RowTimes(M, t, y, 0, t) + y[t] == v[t]
  }

  /** Rows i..n-1 of U x = y hold (U upper triangular, stored in M). */
  ghost predicate BackSuffix(M: Matrix, y: seq<real>, x: seq<real>, i: nat) {
    |x| == |y| == |M| && i <= |M|
    && forall t :: i <= t < |M| ==> Entry(M, t, t) * x[t] + RowTimes(M, t, x, t + 1, |M|) == y[t]
  }

  lemma ForwardPrefixFrame(M: Matrix, v: seq<real>, y: seq<real>, y2: seq<real>, i: nat)
    requires ForwardPrefix(M, v, y, i) && |y2| == |y| && y[..i] == y2[..i]
    ensures ForwardPrefix(M, v, y2, i)
  {
    forall t | 0 <= t < i
      ensures RowTimes(M, t, y2, 0, t) + y2[t] == v[t]
    {
      assert y[t] == y[..i][t];
      forall m | 0 <= m < t
        ensures Elem(y, m) == Elem(y2, m)
      {
        assert y[m] == y[..i][m];
      }
      RowTimesFrame(M, t, y, y2, 0, t);
    }
  }

  lemma BackSuffixFrame(M: Matrix, y: seq<real>, x: seq<real>, x2: seq<real>, i: nat)
    requires BackSuffix(M, y, x, i) && |x2| == |x| && x[i..] == x2[i..]
    ensures BackSuffix(M, y, x2, i)
  {
    forall t | i <= t < |M|
      ensures Entry(M, t, t) * x2[t] + RowTimes(M, t, x2, t + 1, |M|) == y[t]
    {
      BackRowFrame(M, y, x, x2, i, t);
    }
  }

  lemma BackRowFrame(M: Matrix, y: seq<real>, x: seq<real>, x2: seq<real>, i: nat, t: nat)
    requires |x| == |x2| == |y| == |M| && i <= t < |M| && x[i..] == x2[i..]
    requires Entry(M, t, t) * x[t] + RowTimes(M, t, x, t + 1, |M|) == y[t]
    ensures Entry(M, t, t) * x2[t] + RowTimes(M, t, x2, t + 1, |M|) == y[t]
  {
    assert x[t] == x[i..][t - i] == x2[i..][t - i] == x2[t];
    forall m | t + 1 <= m < |M|
      ensures Elem(x, m) == Elem(x2, m)
    {
      assert x[m] == x[i..][m - i] == x2[i..][m - i] == x2[m];
    }
    RowTimesFrame(M, t, x, x2, t + 1, |M|);
    assert RowTimes(M, t, x, t + 1, |M|) == RowTimes(M, t, x2, t + 1, |M|);
    var d, v := Entry(M, t, t), x[t];
    assert x2[t] == v;
    assert d * x2[t] == d * v;
  }

  lemma RowTimesStep(M: Matrix, i: int, x: seq<real>, lo: nat, hi: nat)
    ensures RowTimes(M, i, x, lo, hi + 1)
      == RowTimes(M, i, x, lo, hi) + (if lo <= hi then Entry(M, i, hi) * Elem(x, hi) else 0.0)
  {
  }

  lemma RowTimesEmpty(M: Matrix, i: int, x: seq<real>, lo: nat)
    ensures RowTimes(M, i, x, lo, lo) == 0.0
  {
    SumZero(lo, m => if lo <= m then Entry(M, i, m) * Elem(x, m) else 0.0);
  }

  /** `LUsolve`: copies b, then forward substitution through L, applying the
      recorded exchanges to the copy as it goes, then back substitution
      through U. The result is fresh; neither b nor the factors change. */
  method LUSolve(LU: array<array<real>>, P: array<nat>, b: array<real>) returns (x: array<real>, ghost y: seq<real>)
    requires SquareRows(LU, LU.Length) && P.Length == LU.Length && b.Length == LU.Length
    requires PivotsInRange(P[..], LU.Length, LU.Length)
    requires forall i :: 0 <= i < LU.Length ==> LU[i][i] != 0.0
    ensures fresh(x) && x.Length == LU.Length
    ensures ForwardSolved(old(Rows(LU)), ApplySwaps(old(b[..]), old(P[..]), LU.Length), y)
    ensures BackSolved(old(Rows(LU)), y, x[..])
  {
    var n := LU.Length;
    ghost var M, bs, Ps := Rows(LU), b[..], P[..];
    x := Clone(b);
    var i := n;
    while i > 0
      invariant 0 <= i <= n && x[..] == bs
    {
      i := i - 1;
      x[i] := b[i];
    }
    y := ForwardSubstitute(LU, P, x, M);
    BackSubstitute(LU, x, y, M);
  }

  /** The first loop of `LUsolve`: applies the exchanges recorded in P to x
      step by step and solves L y = P b in place. */
  method ForwardSubstitute(LU: array<array<real>>, P: array<nat>, x: array<real>, ghost M: Matrix) returns (ghost y: seq<real>)
    requires SquareRows(LU, LU.Length) && P.Length == LU.Length && x.Length == LU.Length
    requires |M| == LU.Length && forall i :: 0 <= i < LU.Length ==> LU[i][..] == M[i]
    requires PivotsInRange(P[..], LU.Length, LU.Length)
    requires forall i :: 0 <= i < LU.Length ==> LU[i] != x
    modifies x
    ensures y == x[..] && ForwardSolved(M, ApplySwaps(old(x[..]), P[..], LU.Length), y)
  {
    var n := LU.Length;
    ghost var b := x[..];
    ghost var Ps := P[..];
    var i := 0;
    while i < n
      invariant 0 <= i <= n
      invariant forall t :: 0 <= t < n ==> LU[t][..] == M[t]
      invariant ForwardSoFar(M, b, Ps, x[..], i)
    {
      ForwardStep(LU[i], P[i], x, i, M, b, Ps);
      i := i + 1;
    }
    y := x[..];
  }

  /** The state of the copy after i forward steps: rows 0..i-1 of L y = P b
      hold, and the entries from i on are those of b under the first i
      exchanges. */
  ghost predicate ForwardSoFar(M: Matrix, b: seq<real>, P: seq<nat>, x: seq<real>, i: nat) {
    |b| == |P| && i <= |x| == |b| && PivotsInRange(P, |b|, |b|)
    && ForwardPrefix(M, ApplySwaps(b, P, |b|), x, i)
    && x[i..] == ApplySwaps(b, P, i)[i..]
  }

  /** Step i of the forward substitution: exchange x[i] with x[P[i]], then
      subtract the products with the settled entries. */
  method ForwardStep(LUi: array<real>, p: nat, x: array<real>, i: nat, ghost M: Matrix, ghost b: seq<real>, ghost P: seq<nat>)
    requires x.Length == |M| == LUi.Length && i < |M| && LUi[..] == M[i] && LUi != x
    requires i < |P| && P[i] == p && ForwardSoFar(M, b, P, x[..], i)
    modifies x
    ensures ForwardSoFar(M, b, P, x[..], i + 1)
  {
    ghost var x0 := x[..];
    ExchangeEntries(x, i, p);
    ghost var xs := x[..];
    SubtractProducts(LUi, x, i, 0, i, M, xs);
    ForwardAdvances(M, b, P, x0, xs, x[..], i);
  }

  /** Step i of the forward substitution, on values: the exchange followed
      by the subtraction advances the invariant by one row. */
  lemma ForwardAdvances(M: Matrix, b: seq<real>, P: seq<nat>, x0: seq<real>, xs: seq<real>, x1: seq<real>, i: nat)
    requires i < |M| && ForwardSoFar(M, b, P, x0, i)
    requires xs == Swap(x0, i, P[i]) && x1 == xs[i := xs[i] - RowTimes(M, i, xs, 0, i)]
    ensures ForwardSoFar(M, b, P, x1, i + 1)
  {
    ForwardSwapped(M, b, P, x0, xs, i);
    ForwardRowDone(M, ApplySwaps(b, P, |b|), xs, x1, i);
  }

  /** Exchanges x[i] and x[p] (nothing when p == i). */
  method ExchangeEntries(x: array<real>, i: nat, p: nat)
    requires i < x.Length && p < x.Length
    modifies x
    ensures x[..] == Swap(old(x[..]), i, p)
  {
    if p != i {
      var tmp := x[i];
      x[i] := x[p];
      x[p] := tmp;
    }
  }

  /** x[i] -= x[j] * LUi[j] for j = lo .. hi - 1, with i outside that
      range: the inner loops of both substitutions. */
  method SubtractProducts(LUi: array<real>, x: array<real>, i: nat, lo: nat, hi: nat, ghost M: Matrix, ghost xs: seq<real>)
    requires LUi != x && i < |M| && LUi[..] == M[i] && x[..] == xs
    requires i < x.Length && lo <= hi <= x.Length && hi <= LUi.Length && (i < lo || hi <= i)
    modifies x
    ensures x[..] == xs[i := xs[i] - RowTimes(M, i, xs, lo, hi)]
  {
    RowTimesEmpty(M, i, xs, lo);
    var j := lo;
    while j < hi
      invariant lo <= j <= hi
      invariant forall t :: 0 <= t < x.Length && t != i ==> x[t] == xs[t]
      invariant x[i] == xs[i] - RowTimes(M, i, xs, lo, j)
    {
      RowTimesStep(M, i, xs, lo, j);
      assert Entry(M, i, j) == LUi[j] && Elem(xs, j) == x[j];
      x[i] := x[i] - x[j] * LUi[j];
      j := j + 1;
    }
    assert x[..] == xs[i := xs[i] - RowTimes(M, i, xs, lo, hi)];
  }

  /** The second loop of `LUsolve`: solves U x = y in place, bottom row first. */
  method BackSubstitute(LU: array<array<real>>, x: array<real>, ghost y: seq<real>, ghost M: Matrix)
    requires SquareRows(LU, LU.Length) && x.Length == LU.Length && x[..] == y
    requires |M| == LU.Length && forall i :: 0 <= i < LU.Length ==> LU[i][..] == M[i]
    requires forall i :: 0 <= i < LU.Length ==> LU[i][i] != 0.0
    requires forall i :: 0 <= i < LU.Length ==> LU[i] != x
    modifies x
    ensures BackSolved(M, y, x[..])
  {
    var n := LU.Length;
    var i := n;
    while i > 0
      invariant 0 <= i <= n
      invariant forall t :: 0 <= t < n ==> LU[t][..] == M[t]
      invariant x[..i] == y[..i]
      invariant BackSuffix(M, y, x[..], i)
    {
      i := i - 1;
      BackStep(LU[i], x, i, M, y);
    }
    assert BackSolved(M, y, x[..]);
  }

  /** Step i of the back substitution: x[i] := (x[i] - the products with
      the settled entries) / U[i][i]. */
  method BackStep(LUi: array<real>, x: array<real>, i: nat, ghost M: Matrix, ghost y: seq<real>)
    requires x.Length == |y| == |M| == LUi.Length && i < |M| && LUi[..] == M[i] && LUi != x
    requires LUi[i] != 0.0
    requires x[..i + 1] == y[..i + 1] && BackSuffix(M, y, x[..], i + 1)
    modifies x
    ensures x[..i] == y[..i] && BackSuffix(M, y, x[..], i)
  {
    ghost var xs := x[..];
    assert xs[i] == y[i] by {
      assert xs[i] == xs[..i + 1][i];
    }
    SubtractProducts(LUi, x, i, i + 1, LUi.Length, M, xs);
    x[i] := x[i] / LUi[i];
    assert x[..] == xs[i := (y[i] - RowTimes(M, i, xs, i + 1, |M|)) / Entry(M, i, i)];
    BackRowDone(M, y, xs, x[..], i);
    assert x[..i] == xs[..i] == y[..i] by {
      assert xs[..i] == xs[..i + 1][..i];
      assert y[..i] == y[..i + 1][..i];
    }
  }

  /** The exchange of step i acts on the not yet settled part of the copy;
      what lands in x[i] is entry i of the fully exchanged right-hand side. */
  lemma ForwardSwapped(M: Matrix, b: seq<real>, P: seq<nat>, x0: seq<real>, x1: seq<real>, i: nat)
    requires i < |b| == |P| == |x0| && PivotsInRange(P, |b|, |b|)
    requires ForwardPrefix(M, ApplySwaps(b, P, |b|), x0, i)
    requires x0[i..] == ApplySwaps(b, P, i)[i..]
    requires x1 == Swap(x0, i, P[i])
    ensures ForwardPrefix(M, ApplySwaps(b, P, |b|), x1, i)
    ensures x1[i + 1..] == ApplySwaps(b, P, i + 1)[i + 1..]
    ensures x1[i] == ApplySwaps(b, P, |b|)[i]
  {
    var s := ApplySwaps(b, P, i);
    forall t | i <= t < |b|
      ensures x1[t] == Swap(s, i, P[i])[t]
    {
      var u := if t == i then P[i] else if t == P[i] then i else t;
      assert x0[u] == x0[i..][u - i] == s[i..][u - i] == s[u];
    }
    ApplySwapsSettled(b, P, |b|, i);
    assert x1[..i] == x0[..i];
    ForwardPrefixFrame(M, ApplySwaps(b, P, |b|), x0, x1, i);
  }

  /** After the inner loop of forward step i, row i of L y = v holds too. */
  lemma ForwardRowDone(M: Matrix, v: seq<real>, xs: seq<real>, x: seq<real>, i: nat)
    requires i < |M| && ForwardPrefix(M, v, xs, i) && xs[i] == v[i]
    requires x == xs[i := xs[i] - RowTimes(M, i, xs, 0, i)]
    ensures ForwardPrefix(M, v, x, i + 1)
    ensures x[i + 1..] == xs[i + 1..]
  {
    assert x[..i] == xs[..i];
    ForwardPrefixFrame(M, v, xs, x, i);
    forall m | 0 <= m < i
      ensures Elem(xs, m) == Elem(x, m)
    {
    }
    RowTimesFrame(M, i, xs, x, 0, i);
  }

  /** After back step i, row i of U x = y holds too. */
  lemma BackRowDone(M: Matrix, y: seq<real>, xs: seq<real>, x: seq<real>, i: nat)
    requires i < |M| && BackSuffix(M, y, xs, i + 1) && Entry(M, i, i) != 0.0
    requires x == xs[i := (y[i] - RowTimes(M, i, xs, i + 1, |M|)) / Entry(M, i, i)]
    ensures BackSuffix(M, y, x, i)
    ensures x[..i] == xs[..i]
  {
    assert x[..i] == xs[..i];
    assert x[i + 1..] == xs[i + 1..];
    BackSuffixFrame(M, y, xs, x, i + 1);
    forall m | i + 1 <= m < |M|
      ensures Elem(xs, m) == Elem(x, m)
    {
    }
    RowTimesFrame(M, i, xs, x, i + 1, |M|);
  }

  // ---------------------------------------------------------------------
  // `LU` and `solve`

  /** `LU(A, fast)`: with fast the decomposition runs on A itself; without,
      on `clone(A)`, whose default depth copies only the outer array. The
      row arrays of A are therefore overwritten by the factors either way;
      only the order of A's row references is spared when fast is off. */
  method LU(A: array<array<real>>, fast: bool) returns (LU: array<array<real>>, P: array<nat>, ok: bool)
    requires SquareRows(A, A.Length)
    modifies (if fast then {A} else {}), set i | 0 <= i < A.Length :: A[i]
    ensures fast ==> LU == A
    ensures !fast ==> fresh(LU) && A[..] == old(A[..])
    ensures SquareRows(LU, A.Length) && fresh(P) && P.Length == A.Length
    ensures ok ==> FactoredSoFar(old(Rows(A)), old(A[..]), P[..], Rows(LU), LU[..], A.Length)
    ensures !ok ==> exists k :: 0 <= k < A.Length && ZeroColumn(old(Rows(A)), P[..], Rows(LU), k)
  {
    LU := A;
    if !fast {
      LU := Clone(A);
    }
    assert Rows(LU) == Rows(A);
    P, ok := Factorise(LU);
  }

  /** `solve(A, b, fast)`: when no pivot column is zero the result x solves
      A x = b for the matrix A held on entry, and b is left as it was.
      Otherwise the elimination reached a step whose pivot column is zero
      on and below the diagonal (there the source divides by zero and
      returns non-finite entries). */
  method Solve(A: array<array<real>>, b: array<real>, fast: bool) returns (x: array<real>, ok: bool)
    requires SquareRows(A, A.Length) && b.Length == A.Length
    requires forall i :: 0 <= i < A.Length ==> A[i] != b
    modifies (if fast then {A} else {}), set i | 0 <= i < A.Length :: A[i]
    ensures fresh(x) && x.Length == A.Length && b[..] == old(b[..])
    ensures ok ==> forall r :: 0 <= r < A.Length ==> AxRow(old(Rows(A)), r, x[..], A.Length) == b[r]
    ensures !ok ==> exists P: seq<nat>, M: Matrix, k: nat :: ZeroColumn(old(Rows(A)), P, M, k)
  {
    var n := A.Length;
    ghost var A0 := Rows(A);
    var factors, P;
    factors, P, ok := LU(A, fast);
    assert b[..] == old(b[..]);
    if !ok {
      x := new real[n];
      return;
    }
    ghost var M := Rows(factors);
    assert FactoredSoFar(A0, old(A[..]), P[..], M, factors[..], n);
    forall i | 0 <= i < n
      ensures factors[i][i] != 0.0
    {
      assert M[i][i] == factors[i][i];
    }
    ghost var bs, Ps, rows := b[..], P[..], factors[..];
    ghost var y;
    x, y := LUSolve(factors, P, b);
    FactorsSolve(A0, old(A[..]), Ps, M, rows, bs, y, x[..]);
  }

  /** Once the factors of a finished decomposition have been substituted
      through, x solves A0 x = b in the original row order. */
  lemma FactorsSolve<T>(A0: Matrix, R0: seq<T>, P: seq<nat>, M: Matrix, rows: seq<T>, b: seq<real>, y: seq<real>, x: seq<real>)
    requires FactoredSoFar(A0, R0, P, M, rows, |A0|) && |b| == |A0|
    requires ForwardSolved(M, ApplySwaps(b, P, |A0|), y) && BackSolved(M, y, x)
    ensures forall r :: 0 <= r < |A0| ==> AxRow(A0, r, x, |A0|) == b[r]
  {
    var n := |A0|;
    var perm := Permutation(P, n, n);
    var bp := ApplySwaps(b, P, n);
    forall r | 0 <= r < n
      ensures AxRow(A0, r, x, n) == b[r]
    {
      PermutationCovers(P, n, n, r);
      var i :| 0 <= i < n && perm[i] == r;
      SolvedByFactors(A0, perm, M, bp, y, x, i);
      ApplySwapsIndex(b, P, n, i);
    }
  }
}
