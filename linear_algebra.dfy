/** Exact-arithmetic facts behind the LU decomposition of homography.js:
    finite sums, the row swaps recorded by partial pivoting, and the
    invariant that one elimination step preserves. */
module LinearAlgebra {

  type Matrix = seq<seq<real>>

  /** M is an n-by-n matrix. */
  ghost predicate IsSquare(M: Matrix, n: nat) {
    |M| == n && forall i :: 0 <= i < n ==> |M[i]| == n
  }

  /** Entry (i, j) of M, and 0 outside its shape, so that it can stand in a sum. */
  function Entry(M: Matrix, i: int, j: int): real {
    if 0 <= i < |M| && 0 <= j < |M[i]| then M[i][j] else 0.0
  }

  /** Element m of v, and 0 outside it. */
  function Elem(v: seq<real>, m: int): real {
    if 0 <= m < |v| then v[m] else 0.0
  }

  function Min(a: nat, b: nat): nat {
    if a < b then a else b
  }

  /** f(0) + f(1) + ... + f(t - 1) */
  function Sum(t: nat, f: int -> real): real {
    if t == 0 then 0.0 else Sum(t - 1, f) + f(t - 1)
  }

  lemma {:induction false} SumExt(t: nat, f: int -> real, g: int -> real)
    requires forall m :: 0 <= m < t ==> f(m) == g(m)
    ensures Sum(t, f) == Sum(t, g)
  {
    if t > 0 {
      SumExt(t - 1, f, g);
    }
  }

  /** Terms from s on that are zero add nothing. */
  lemma {:induction false} SumZeroTail(s: nat, t: nat, f: int -> real)
    requires s <= t
    requires forall m :: s <= m < t ==> f(m) == 0.0
    ensures Sum(t, f) == Sum(s, f)
  {
    if s < t {
      SumZeroTail(s, t - 1, f);
    }
  }

  lemma {:induction false} SumAdd(t: nat, f: int -> real, g: int -> real, h: int -> real)
    requires forall m :: 0 <= m < t ==> h(m) == f(m) + g(m)
    ensures Sum(t, h) == Sum(t, f) + Sum(t, g)
  {
    if t > 0 {
      SumAdd(t - 1, f, g, h);
    }
  }

  lemma {:induction false} SumScale(t: nat, c: real, f: int -> real, g: int -> real)
    requires forall m :: 0 <= m < t ==> g(m) == c * f(m)
    ensures Sum(t, g) == c * Sum(t, f)
  {
    if t > 0 {
      SumScale(t - 1, c, f, g);
    }
  }

  /** A sum of t copies of 0 is 0. */
  lemma {:induction false} SumZero(t: nat, f: int -> real)
    requires forall m :: 0 <= m < t ==> f(m) == 0.0
    ensures Sum(t, f) == 0.0
  {
    if t > 0 {
      SumZero(t - 1, f);
    }
  }

  // ---------------------------------------------------------------------
  // Row swaps

  function Swap<T>(s: seq<T>, a: nat, b: nat): (r: seq<T>)
    requires a < |s| && b < |s|
    ensures |r| == |s| && r[a] == s[b] && r[b] == s[a]
    ensures forall m :: 0 <= m < |s| && m != a && m != b ==> r[m] == s[m]
  {
    s[a := s[b]][b := s[a]]
  }

  /** Each P[t] is a row at or below t, as partial pivoting records it. */
  ghost predicate PivotsInRange(P: seq<nat>, k: nat, n: nat) {
    k <= |P| && forall t :: 0 <= t < k ==> t <= P[t] < n
  }

  /** s after the row exchanges of the first k pivoting steps, in order. */
  function ApplySwaps<T>(s: seq<T>, P: seq<nat>, k: nat): (r: seq<T>)
    requires k <= |P|
    requires forall t :: 0 <= t < k ==> t <= P[t] < |s|
    ensures |r| == |s|
  {
    if k == 0 then s else Swap(ApplySwaps(s, P, k - 1), k - 1, P[k - 1])
  }

  function Identity(n: nat): (r: seq<nat>)
    ensures |r| == n && forall i :: 0 <= i < n ==> r[i] == i
  {
    seq(n, i => i)
  }

  /** The row order after the first k exchanges: position i holds the
      original row Permutation(P, k, n)[i]. */
  function Permutation(P: seq<nat>, k: nat, n: nat): (r: seq<nat>)
    requires k <= |P|
    requires forall t :: 0 <= t < k ==> t <= P[t] < n
    ensures |r| == n && forall i :: 0 <= i < n ==> r[i] < n
  {
    if k == 0 then Identity(n) else Swap(Permutation(P, k - 1, n), k - 1, P[k - 1])
  }

  /** Only the first k entries of P matter to the first k exchanges. */
  lemma {:induction false} ApplySwapsPrefix<T>(s: seq<T>, P: seq<nat>, Q: seq<nat>, k: nat)
    requires k <= |P| && k <= |Q| && P[..k] == Q[..k]
    requires forall t :: 0 <= t < k ==> t <= P[t] < |s|
    ensures forall t :: 0 <= t < k ==> t <= Q[t] < |s|
    ensures ApplySwaps(s, P, k) == ApplySwaps(s, Q, k)
  {
    assert forall t :: 0 <= t < k ==> P[t] == P[..k][t] == Q[..k][t] == Q[t];
    if k > 0 {
      assert P[..k - 1] == P[..k][..k - 1];
      assert Q[..k - 1] == Q[..k][..k - 1];
      ApplySwapsPrefix(s, P, Q, k - 1);
    }
  }

  /** Permuting a vector is reading it through the permuted index list. */
  lemma {:induction false} ApplySwapsIndex<T>(s: seq<T>, P: seq<nat>, k: nat, t: nat)
    requires k <= |P|
    requires forall m :: 0 <= m < k ==> m <= P[m] < |s|
    requires t < |s|
    ensures ApplySwaps(s, P, k)[t] == s[Permutation(P, k, |s|)[t]]
  {
    if k > 0 {
      var p := P[k - 1];
      var u := if t == k - 1 then p else if t == p then k - 1 else t;
      ApplySwapsIndex(s, P, k - 1, u);
    }
  }

  /** Later exchanges only touch positions at or below their own step, so
      position t is final once step t has been taken. */
  lemma {:induction false} ApplySwapsSettled<T>(s: seq<T>, P: seq<nat>, k: nat, t: nat)
    requires t < k <= |P|
    requires forall m :: 0 <= m < k ==> m <= P[m] < |s|
    ensures ApplySwaps(s, P, k)[t] == ApplySwaps(s, P, t + 1)[t]
  {
    if k > t + 1 {
      ApplySwapsSettled(s, P, k - 1, t);
    }
  }

  /** An exchange keeps the multiset of entries. */
  lemma SwapMultiset<T>(s: seq<T>, a: nat, b: nat)
    requires a < |s| && b < |s|
    ensures multiset(Swap(s, a, b)) == multiset(s)
  {
    var t := s[a := s[b]];
    assert multiset(t) == multiset(s) - multiset{s[a]} + multiset{s[b]};
    assert multiset(t[b := s[a]]) == multiset(t) - multiset{t[b]} + multiset{s[a]};
  }

  lemma {:induction false} PermutationMultiset(P: seq<nat>, k: nat, n: nat)
    requires k <= |P|
    requires forall t :: 0 <= t < k ==> t <= P[t] < n
    ensures multiset(Permutation(P, k, n)) == multiset(Identity(n))
  {
    if k > 0 {
      var u := Permutation(P, k - 1, n);
      PermutationMultiset(P, k - 1, n);
      assert multiset(u) == multiset(Identity(n));
      SwapMultiset(u, k - 1, P[k - 1]);
      assert Permutation(P, k, n) == Swap(u, k - 1, P[k - 1]);
    }
  }

  /** The index list built by the exchanges is a permutation: every row is
      some position's row. */
  lemma PermutationCovers(P: seq<nat>, k: nat, n: nat, r: nat)
    requires k <= |P|
    requires forall m :: 0 <= m < k ==> m <= P[m] < n
    requires r < n
    ensures exists i :: 0 <= i < n && Permutation(P, k, n)[i] == r
  {
    var perm := Permutation(P, k, n);
    PermutationMultiset(P, k, n);
    assert r in multiset(Identity(n)) by {
      assert Identity(n)[r] == r;
    }
    assert r in multiset(perm);
    assert r in perm;
  }

  // ---------------------------------------------------------------------
  // The elimination invariant

  /** Sum over m < t of M[i][m] * M[m][j]: what the first t columns of the
      unit lower factor contribute to entry (i, j) of L * U. */
  function PartialProduct(M: Matrix, i: int, j: int, t: nat): real {
    Sum(t, m => Entry(M, i, m) * Entry(M, m, j))
  }

  /** Entry (i, j) of the matrix that the working array M stands for after k
      elimination steps: the multipliers below the diagonal in the first k
      columns, the rows of U in the first k rows, and the Schur complement in
      the lower right block. */
  function Recon(M: Matrix, k: nat, i: nat, j: nat): real {
    PartialProduct(M, i, j, Min(Min(i, j), k))
      + (if j < i && j < k then Entry(M, i, j) * Entry(M, j, j) else Entry(M, i, j))
  }

  /** The matrix that the working array M stands for after k steps. */
  function Reconstruction(M: Matrix, k: nat): Matrix {
    seq(|M|, i requires 0 <= i < |M| => seq(|M|, j requires 0 <= j < |M| => Recon(M, k, i, j)))
  }

  /** The rows of A taken in the order perm. */
  function Rearranged(A: Matrix, perm: seq<nat>): Matrix
    requires forall i :: 0 <= i < |perm| ==> perm[i] < |A|
  {
    seq(|perm|, i requires 0 <= i < |perm| => A[perm[i]])
  }

  /** After k steps, row i of M encodes row perm[i] of the original A. */
  ghost predicate Factored(A: Matrix, perm: seq<nat>, M: Matrix, k: nat) {
    var n := |A|;
    IsSquare(A, n) && IsSquare(M, n) && |perm| == n
    && (forall i :: 0 <= i < n ==> perm[i] < n)
    && Rearranged(A, perm) == Reconstruction(M, k)
  }

  /** Entry (i, j) of the invariant. */
  lemma FactoredEntry(A: Matrix, perm: seq<nat>, M: Matrix, k: nat, i: nat, j: nat)
    requires Factored(A, perm, M, k) && i < |A| && j < |A|
    ensures A[perm[i]][j] == Recon(M, k, i, j)
  {
    assert Rearranged(A, perm)[i][j] == Reconstruction(M, k)[i][j];
  }

  /** The invariant from all of its entries. */
  lemma FactoredIntro(A: Matrix, perm: seq<nat>, M: Matrix, k: nat)
    requires IsSquare(A, |A|) && IsSquare(M, |A|) && |perm| == |A|
    requires forall i :: 0 <= i < |A| ==> perm[i] < |A|
    requires forall i, j :: 0 <= i < |A| && 0 <= j < |A| ==> A[perm[i]][j] == Recon(M, k, i, j)
    ensures Factored(A, perm, M, k)
  {
    forall i | 0 <= i < |A|
      ensures Rearranged(A, perm)[i] == Reconstruction(M, k)[i]
    {
      assert |Rearranged(A, perm)[i]| == |Reconstruction(M, k)[i]|;
    }
  }

  lemma {:induction false} PartialProductFrame(M: Matrix, i: nat, M2: Matrix, i2: nat, j: nat, t: nat)
    requires forall m :: 0 <= m < t ==> Entry(M2, i2, m) == Entry(M, i, m) && Entry(M2, m, j) == Entry(M, m, j)
    ensures PartialProduct(M2, i2, j, t) == PartialProduct(M, i, j, t)
  {
    SumExt(t, m => Entry(M2, i2, m) * Entry(M2, m, j), m => Entry(M, i, m) * Entry(M, m, j));
  }

  /** Before any step, the working array is the matrix itself. */
  lemma FactoredInit(A: Matrix)
    requires IsSquare(A, |A|)
    ensures Factored(A, Identity(|A|), A, 0)
  {
    FactoredIntro(A, Identity(|A|), A, 0);
  }

  /** Exchanging two rows at or below step k keeps the invariant, provided the
      same exchange is applied to the index list. */
  lemma FactoredSwap(A: Matrix, perm: seq<nat>, M: Matrix, k: nat, p: nat)
    requires Factored(A, perm, M, k)
    requires k <= p < |A|
    ensures Factored(A, Swap(perm, k, p), Swap(M, k, p), k)
  {
    var n := |A|;
    forall i, j | 0 <= i < n && 0 <= j < n
      ensures A[Swap(perm, k, p)[i]][j] == Recon(Swap(M, k, p), k, i, j)
    {
      var s := if i == k then p else if i == p then k else i;
      FactoredSwapEntry(M, Swap(M, k, p), k, i, s, j);
      FactoredEntry(A, perm, M, k, s, j);
    }
    FactoredIntro(A, Swap(perm, k, p), Swap(M, k, p), k);
  }

  /** Row i of the exchanged array is row s of the old one, and the rows
      the reconstruction reads besides it lie above step k, where nothing moved. */
  lemma FactoredSwapEntry(M: Matrix, M2: Matrix, k: nat, i: nat, s: nat, j: nat)
    requires IsSquare(M, |M|) && |M2| == |M| && k <= |M|
    requires i < |M| && s < |M| && j < |M| && M2[i] == M[s]
    requires i < k ==> s == i
    requires k <= i ==> k <= s
    requires forall m :: 0 <= m < k ==> M2[m] == M[m]
    ensures Recon(M2, k, i, j) == Recon(M, k, s, j)
  {
    var t := Min(Min(i, j), k);
    assert t == Min(Min(s, j), k);
    forall m | 0 <= m < t
      ensures Entry(M2, i, m) == Entry(M, s, m) && Entry(M2, m, j) == Entry(M, m, j)
    {
      assert M2[m] == M[m];
    }
    PartialProductFrame(M, s, M2, i, j, t);
    if j < k {
      assert M2[j] == M[j];
    }
  }

  /** Step k divides column k below the diagonal by the pivot. */
  function ScaleStep(M: Matrix, k: nat): (r: Matrix)
    requires IsSquare(M, |M|) && k < |M| && M[k][k] != 0.0
    ensures IsSquare(r, |M|)
  {
    seq(|M|, i requires 0 <= i < |M| =>
      if i <= k then M[i] else M[i][k := M[i][k] / M[k][k]])
  }

  /** Step k then subtracts multiplier times row k from every row below it,
      in the columns right of k. */
  function SubtractStep(M: Matrix, k: nat): (r: Matrix)
    requires IsSquare(M, |M|) && k < |M|
    ensures IsSquare(r, |M|)
  {
    seq(|M|, i requires 0 <= i < |M| =>
      if i <= k then M[i] else SubtractedRow(M[i], M[k], k))
  }

  /** Row ri after subtracting ri[k] times rk in every column right of k. */
  function SubtractedRow(ri: seq<real>, rk: seq<real>, k: nat): (r: seq<real>)
    requires k < |ri| == |rk|
    ensures |r| == |ri|
  {
    seq(|ri|, j requires 0 <= j < |ri| => if j <= k then ri[j] else ri[j] - ri[k] * rk[j])
  }

  /** The entries after one elimination step, in terms of those before. */
  lemma SteppedEntry(M: Matrix, k: nat, i: nat, j: nat)
    requires IsSquare(M, |M|) && k < |M| && M[k][k] != 0.0
    requires i < |M| && j < |M|
    ensures Entry(SubtractStep(ScaleStep(M, k), k), i, j)
      == if i <= k || j < k then M[i][j]
         else if j == k then M[i][k] / M[k][k]
         else M[i][j] - M[i][k] / M[k][k] * M[k][j]
  {
    var S := ScaleStep(M, k);
    if k < i {
      assert S[i][k] == M[i][k] / M[k][k];
      assert S[k] == M[k];
    }
  }

  /** M2 holds the entries that step k computes from M, as SteppedEntry states them. */
  ghost predicate Stepped(M: Matrix, M2: Matrix, k: nat)
    requires IsSquare(M, |M|) && k < |M| && M[k][k] != 0.0
  {
    IsSquare(M2, |M|)
    && forall i, j {:trigger M2[i][j]} :: 0 <= i < |M| && 0 <= j < |M| ==>
         M2[i][j] == if i <= k || j < k then M[i][j]
                     else if j == k then M[i][k] / M[k][k]
                     else M[i][j] - M[i][k] / M[k][k] * M[k][j]
  }

  lemma StepIsStepped(M: Matrix, k: nat)
    requires IsSquare(M, |M|) && k < |M| && M[k][k] != 0.0
    ensures Stepped(M, SubtractStep(ScaleStep(M, k), k), k)
  {
    var M2 := SubtractStep(ScaleStep(M, k), k);
    forall i, j | 0 <= i < |M| && 0 <= j < |M|
      ensures M2[i][j] == if i <= k || j < k then M[i][j]
                          else if j == k then M[i][k] / M[k][k]
                          else M[i][j] - M[i][k] / M[k][k] * M[k][j]
    {
      SteppedEntry(M, k, i, j);
    }
  }

  lemma DivTimes(a: real, b: real)
    requires b != 0.0
    ensures a / b * b == a
  {
  }

  /** The first t columns of row i and rows of column j are untouched by the step. */
  lemma SteppedPrefix(M: Matrix, M2: Matrix, k: nat, i: nat, j: nat, t: nat)
    requires IsSquare(M, |M|) && k < |M| && M[k][k] != 0.0 && Stepped(M, M2, k)
    requires i < |M| && j < |M| && t <= k && t <= i && t <= j
    ensures PartialProduct(M2, i, j, t) == PartialProduct(M, i, j, t)
  {
    forall m | 0 <= m < t
      ensures Entry(M2, i, m) == Entry(M, i, m) && Entry(M2, m, j) == Entry(M, m, j)
    {
      assert M2[i][m] == M[i][m];
      assert M2[m][j] == M[m][j];
    }
    PartialProductFrame(M, i, M2, i, j, t);
  }

  /** Entry (i, j) below and right of the pivot: the new Schur complement entry
      plus the new product term give back the old entry. */
  lemma FactoredStepInner(M: Matrix, M2: Matrix, k: nat, i: nat, j: nat)
    requires IsSquare(M, |M|) && k < |M| && M[k][k] != 0.0 && Stepped(M, M2, k)
    requires k < i < |M| && k < j < |M|
    ensures Recon(M2, k + 1, i, j) == Recon(M, k, i, j)
  {
    SteppedPrefix(M, M2, k, i, j, k);
    assert M2[i][k] == M[i][k] / M[k][k];
    assert M2[k][j] == M[k][j];
    assert M2[i][j] == M[i][j] - M[i][k] / M[k][k] * M[k][j];
    assert PartialProduct(M2, i, j, k + 1) == PartialProduct(M2, i, j, k) + Entry(M2, i, k) * Entry(M2, k, j);
  }

  /** Entry (i, k) below the pivot: the multiplier times the pivot is the old entry. */
  lemma FactoredStepColumn(M: Matrix, M2: Matrix, k: nat, i: nat)
    requires IsSquare(M, |M|) && k < |M| && M[k][k] != 0.0 && Stepped(M, M2, k)
    requires k < i < |M|
    ensures Recon(M2, k + 1, i, k) == Recon(M, k, i, k)
  {
    SteppedPrefix(M, M2, k, i, k, k);
    assert M2[i][k] == M[i][k] / M[k][k];
    assert M2[k][k] == M[k][k];
    DivTimes(M[i][k], M[k][k]);
  }

  /** Entries in rows at or above the pivot, or left of the pivot column, keep
      their reconstruction. */
  lemma FactoredStepOuter(M: Matrix, M2: Matrix, k: nat, i: nat, j: nat)
    requires IsSquare(M, |M|) && k < |M| && M[k][k] != 0.0 && Stepped(M, M2, k)
    requires i < |M| && j < |M| && (i <= k || j < k)
    ensures Recon(M2, k + 1, i, j) == Recon(M, k, i, j)
  {
    var t := Min(Min(i, j), k);
    assert Min(Min(i, j), k + 1) == t;
    SteppedPrefix(M, M2, k, i, j, t);
    assert M2[i][j] == M[i][j];
    if j < i && j < k {
      assert M2[j][j] == M[j][j];
    }
  }

  /** One elimination step with a non-zero pivot advances the invariant. */
  lemma FactoredStep(A: Matrix, perm: seq<nat>, M: Matrix, k: nat)
    requires Factored(A, perm, M, k)
    requires k < |A| && M[k][k] != 0.0
    ensures Factored(A, perm, SubtractStep(ScaleStep(M, k), k), k + 1)
  {
    var M2 := SubtractStep(ScaleStep(M, k), k);
    StepIsStepped(M, k);
    forall i, j | 0 <= i < |A| && 0 <= j < |A|
      ensures A[perm[i]][j] == Recon(M2, k + 1, i, j)
    {
      FactoredEntry(A, perm, M, k, i, j);
      if i <= k || j < k {
        FactoredStepOuter(M, M2, k, i, j);
      } else if j == k {
        FactoredStepColumn(M, M2, k, i);
      } else {
        FactoredStepInner(M, M2, k, i, j);
      }
    }
    FactoredIntro(A, perm, M2, k + 1);
  }

  // ---------------------------------------------------------------------
  // From the finished factorisation to a solution of A x = b

  /** Entry (i, m) of the unit lower-triangular factor stored in M. */
  function Lower(M: Matrix, i: int, m: int): real {
    if m < i then Entry(M, i, m) else if m == i then 1.0 else 0.0
  }

  /** Entry (m, j) of the upper-triangular factor stored in M. */
  function Upper(M: Matrix, m: int, j: int): real {
    if m <= j then Entry(M, m, j) else 0.0
  }

  /** Sum over lo <= m < hi of M[i][m] * x[m]. */
  function RowTimes(M: Matrix, i: int, x: seq<real>, lo: int, hi: nat): real {
    Sum(hi, m => if lo <= m then Entry(M, i, m) * Elem(x, m) else 0.0)
  }

  lemma {:induction false} RowTimesFrame(M: Matrix, i: nat, x: seq<real>, x2: seq<real>, lo: nat, hi: nat)
    requires forall m :: lo <= m < hi ==> Elem(x, m) == Elem(x2, m)
    ensures RowTimes(M, i, x, lo, hi) == RowTimes(M, i, x2, lo, hi)
  {
    SumExt(hi, m => if lo <= m then Entry(M, i, m) * Elem(x, m) else 0.0,
               m => if lo <= m then Entry(M, i, m) * Elem(x2, m) else 0.0);
  }

  /** After all n steps, the invariant says that row perm[i] of A is row i of L * U. */
  lemma FactoredProduct(A: Matrix, perm: seq<nat>, M: Matrix, i: nat, j: nat)
    requires Factored(A, perm, M, |A|)
    requires i < |A| && j < |A|
    ensures A[perm[i]][j] == LUEntry(M, i, j, |A|)
  {
    FactoredEntry(A, perm, M, |A|, i, j);
    ReconIsProduct(M, i, j);
  }

  /** Below min(i, j) the factors are the stored entries themselves. */
  lemma {:induction false} LUEntryPrefix(M: Matrix, i: nat, j: nat, t: nat)
    requires t <= i && t <= j
    ensures LUEntry(M, i, j, t) == PartialProduct(M, i, j, t)
  {
    if t > 0 {
      LUEntryPrefix(M, i, j, t - 1);
      assert Lower(M, i, t - 1) == Entry(M, i, t - 1);
      assert Upper(M, t - 1, j) == Entry(M, t - 1, j);
    }
  }

  /** Past min(i, j) one of the two triangular factors is zero. */
  lemma {:induction false} LUEntryTail(M: Matrix, i: nat, j: nat, t: nat)
    requires Min(i, j) < t
    ensures LUEntry(M, i, j, t) == LUEntry(M, i, j, Min(i, j) + 1)
  {
    if t > Min(i, j) + 1 {
      LUEntryTail(M, i, j, t - 1);
      if i < t - 1 {
        assert Lower(M, i, t - 1) == 0.0;
      } else {
        assert Upper(M, t - 1, j) == 0.0;
      }
    }
  }

  /** Once every step is done, the reconstruction is entry (i, j) of L * U. */
  lemma ReconIsProduct(M: Matrix, i: nat, j: nat)
    requires i < |M| && j < |M|
    ensures Recon(M, |M|, i, j) == LUEntry(M, i, j, |M|)
  {
    var c := Min(i, j);
    assert Min(c, |M|) == c;
    LUEntryPrefix(M, i, j, c);
    LUEntryTail(M, i, j, |M|);
    if j < i {
      assert Lower(M, i, c) == Entry(M, i, j) && Upper(M, c, j) == Entry(M, j, j);
    } else {
      assert Lower(M, i, c) == 1.0 && Upper(M, c, j) == Entry(M, i, j);
    }
  }

  /** y solves L y = v by forward substitution. */
  ghost predicate ForwardSolved(M: Matrix, v: seq<real>, y: seq<real>) {
    |y| == |v| == |M|
    && forall i :: 0 <= i < |M| ==> RowTimes(M, i, y, 0, i) + y[i] == v[i]
  }

  /** x solves U x = y by back substitution. */
  ghost predicate BackSolved(M: Matrix, y: seq<real>, x: seq<real>) {
    |x| == |y| == |M|
    && forall i :: 0 <= i < |M| ==> Entry(M, i, i) * x[i] + RowTimes(M, i, x, i + 1, |M|) == y[i]
  }

  lemma LowerRow(M: Matrix, i: nat, y: seq<real>)
    requires i < |M| == |y|
    ensures Sum(|M|, m => Lower(M, i, m) * Elem(y, m)) == RowTimes(M, i, y, 0, i) + y[i]
  {
    var f := m => Lower(M, i, m) * Elem(y, m);
    SumZeroTail(i + 1, |M|, f);
    SumExt(i, f, m => if 0 <= m then Entry(M, i, m) * Elem(y, m) else 0.0);
  }

  lemma UpperRow(M: Matrix, i: nat, x: seq<real>)
    requires i < |M| == |x|
    ensures Sum(|M|, j => Upper(M, i, j) * Elem(x, j)) == Entry(M, i, i) * x[i] + RowTimes(M, i, x, i + 1, |M|)
  {
    var n := |M|;
    var f := j => Upper(M, i, j) * Elem(x, j);
    var g := j => if i + 1 <= j then Entry(M, i, j) * Elem(x, j) else 0.0;
    var h := j => if j == i then Entry(M, i, i) * x[i] else 0.0;
    SumAdd(n, h, g, f);
    SumZeroTail(i + 1, n, h);
    SumZero(i, h);
  }

  // The product L (U x) written out as first-order sums, so that the two
  // orders of summation can be exchanged by plain induction.

  /** Upper(M, m, 0) * x[0] + ... + Upper(M, m, t - 1) * x[t - 1]. */
  function UxRow(M: Matrix, m: int, x: seq<real>, t: nat): real {
    if t == 0 then 0.0 else UxRow(M, m, x, t - 1) + Upper(M, m, t - 1) * Elem(x, t - 1)
  }

  /** Lower(M, i, 0) * y[0] + ... + Lower(M, i, t - 1) * y[t - 1]. */
  function LyRow(M: Matrix, i: int, y: seq<real>, t: nat): real {
    if t == 0 then 0.0 else LyRow(M, i, y, t - 1) + Lower(M, i, t - 1) * Elem(y, t - 1)
  }

  /** Entry (i, j) of L * U, summed over the first t terms. */
  function LUEntry(M: Matrix, i: int, j: int, t: nat): real {
    if t == 0 then 0.0 else LUEntry(M, i, j, t - 1) + Lower(M, i, t - 1) * Upper(M, t - 1, j)
  }

  /** A[r][0] * x[0] + ... + A[r][t - 1] * x[t - 1]. */
  function AxRow(A: Matrix, r: int, x: seq<real>, t: nat): real {
    if t == 0 then 0.0 else AxRow(A, r, x, t - 1) + Entry(A, r, t - 1) * Elem(x, t - 1)
  }

  function Term(M: Matrix, i: int, x: seq<real>, m: int, j: int): real {
    Lower(M, i, m) * Upper(M, m, j) * Elem(x, j)
  }

  function TermRow(M: Matrix, i: int, x: seq<real>, m: int, t: nat): real {
    if t == 0 then 0.0 else TermRow(M, i, x, m, t - 1) + Term(M, i, x, m, t - 1)
  }

  function TermCol(M: Matrix, i: int, x: seq<real>, j: int, s: nat): real {
    if s == 0 then 0.0 else TermCol(M, i, x, j, s - 1) + Term(M, i, x, s - 1, j)
  }

  /** The double sum of Term over [0, s) x [0, t), row by row. */
  function TermRows(M: Matrix, i: int, x: seq<real>, s: nat, t: nat): real {
    if s == 0 then 0.0 else TermRows(M, i, x, s - 1, t) + TermRow(M, i, x, s - 1, t)
  }

  /** The same double sum, column by column. */
  function TermCols(M: Matrix, i: int, x: seq<real>, s: nat, t: nat): real {
    if t == 0 then 0.0 else TermCols(M, i, x, s, t - 1) + TermCol(M, i, x, t - 1, s)
  }

  lemma {:induction false} TermRowsPeel(M: Matrix, i: int, x: seq<real>, s: nat, t: nat)
    requires t > 0
    ensures TermRows(M, i, x, s, t) == TermRows(M, i, x, s, t - 1) + TermCol(M, i, x, t - 1, s)
  {
    if s > 0 {
      TermRowsPeel(M, i, x, s - 1, t);
    }
  }

  lemma {:induction false} TermRowsEmpty(M: Matrix, i: int, x: seq<real>, s: nat)
    ensures TermRows(M, i, x, s, 0) == 0.0
  {
    if s > 0 {
      TermRowsEmpty(M, i, x, s - 1);
    }
  }

  /** The two orders of summation agree. */
  lemma {:induction false} TermSwap(M: Matrix, i: int, x: seq<real>, s: nat, t: nat)
    ensures TermRows(M, i, x, s, t) == TermCols(M, i, x, s, t)
  {
    if t == 0 {
      TermRowsEmpty(M, i, x, s);
    } else {
      TermRowsPeel(M, i, x, s, t);
      TermSwap(M, i, x, s, t - 1);
    }
  }

  lemma MulAssoc(a: real, b: real, c: real)
    ensures a * b * c == a * (b * c)
  {
  }

  lemma MulDistrib(a: real, b: real, c: real)
    ensures a * b + a * c == a * (b + c)
  {
  }

  /** Row m of the double sum factors as L[i][m] * (U x)[m]. */
  lemma {:induction false} TermRowFactor(M: Matrix, i: int, x: seq<real>, m: int, t: nat)
    ensures TermRow(M, i, x, m, t) == Lower(M, i, m) * UxRow(M, m, x, t)
  {
    if t > 0 {
      TermRowFactor(M, i, x, m, t - 1);
      var l, u := Lower(M, i, m), Upper(M, m, t - 1) * Elem(x, t - 1);
      MulAssoc(l, Upper(M, m, t - 1), Elem(x, t - 1));
      MulDistrib(l, UxRow(M, m, x, t - 1), u);
    }
  }

  /** Column j of the double sum factors as (L U)[i][j] * x[j]. */
  lemma {:induction false} TermColFactor(M: Matrix, i: int, x: seq<real>, j: int, s: nat)
    ensures TermCol(M, i, x, j, s) == LUEntry(M, i, j, s) * Elem(x, j)
  {
    if s > 0 {
      TermColFactor(M, i, x, j, s - 1);
      var e := Elem(x, j);
      MulDistrib(e, LUEntry(M, i, j, s - 1), Lower(M, i, s - 1) * Upper(M, s - 1, j));
    }
  }

  lemma {:induction false} TermRowsByY(M: Matrix, i: int, x: seq<real>, y: seq<real>, s: nat, t: nat)
    requires forall m :: 0 <= m < s ==> UxRow(M, m, x, t) == Elem(y, m)
    ensures TermRows(M, i, x, s, t) == LyRow(M, i, y, s)
  {
    if s > 0 {
      TermRowsByY(M, i, x, y, s - 1, t);
      TermRowFactor(M, i, x, s - 1, t);
      assert UxRow(M, s - 1, x, t) == Elem(y, s - 1);
      assert TermRow(M, i, x, s - 1, t) == Lower(M, i, s - 1) * Elem(y, s - 1);
      assert TermRows(M, i, x, s, t) == TermRows(M, i, x, s - 1, t) + TermRow(M, i, x, s - 1, t);
      assert LyRow(M, i, y, s) == LyRow(M, i, y, s - 1) + Lower(M, i, s - 1) * Elem(y, s - 1);
    }
  }

  lemma {:induction false} TermColsByA(A: Matrix, r: int, M: Matrix, i: int, x: seq<real>, s: nat, t: nat)
    requires forall j :: 0 <= j < t ==> LUEntry(M, i, j, s) == Entry(A, r, j)
    ensures TermCols(M, i, x, s, t) == AxRow(A, r, x, t)
  {
    if t > 0 {
      TermColsByA(A, r, M, i, x, s, t - 1);
      TermColFactor(M, i, x, t - 1, s);
      assert LUEntry(M, i, t - 1, s) == Entry(A, r, t - 1);
      assert TermCol(M, i, x, t - 1, s) == Entry(A, r, t - 1) * Elem(x, t - 1);
      assert TermCols(M, i, x, s, t) == TermCols(M, i, x, s, t - 1) + TermCol(M, i, x, t - 1, s);
      assert AxRow(A, r, x, t) == AxRow(A, r, x, t - 1) + Entry(A, r, t - 1) * Elem(x, t - 1);
    }
  }

  lemma {:induction false} UxRowIsSum(M: Matrix, m: int, x: seq<real>, t: nat)
    ensures UxRow(M, m, x, t) == Sum(t, j => Upper(M, m, j) * Elem(x, j))
  {
    if t > 0 {
      UxRowIsSum(M, m, x, t - 1);
    }
  }

  lemma {:induction false} LyRowIsSum(M: Matrix, i: int, y: seq<real>, t: nat)
    ensures LyRow(M, i, y, t) == Sum(t, m => Lower(M, i, m) * Elem(y, m))
  {
    if t > 0 {
      LyRowIsSum(M, i, y, t - 1);
    }
  }

  lemma {:induction false} AxRowIsSum(A: Matrix, r: int, x: seq<real>, t: nat)
    ensures AxRow(A, r, x, t) == Sum(t, j => Entry(A, r, j) * Elem(x, j))
  {
    if t > 0 {
      AxRowIsSum(A, r, x, t - 1);
    }
  }

  /** Back substitution made (U x)[m] == y[m] for every row m. */
  lemma UxIsY(M: Matrix, y: seq<real>, x: seq<real>, m: nat)
    requires BackSolved(M, y, x)
    requires m < |M|
    ensures UxRow(M, m, x, |M|) == Elem(y, m)
  {
    UxRowIsSum(M, m, x, |M|);
    UpperRow(M, m, x);
  }

  /** The finished factorisation makes (L U)[i][j] == A[perm[i]][j]. */
  lemma LUIsA(A: Matrix, perm: seq<nat>, M: Matrix, i: nat, j: nat)
    requires Factored(A, perm, M, |A|)
    requires i < |A| && j < |A|
    ensures LUEntry(M, i, j, |A|) == Entry(A, perm[i], j)
  {
    FactoredProduct(A, perm, M, i, j);
  }

  /** Row i of (A x), taken in pivoted order, is bp[i] once L y = bp and U x = y. */
  lemma SolvedByFactors(A: Matrix, perm: seq<nat>, M: Matrix, bp: seq<real>, y: seq<real>, x: seq<real>, i: nat)
    requires Factored(A, perm, M, |A|)
    requires ForwardSolved(M, bp, y) && BackSolved(M, y, x)
    requires i < |A|
    ensures AxRow(A, perm[i], x, |A|) == bp[i]
  {
    var n := |A|;
    forall m | 0 <= m < n
      ensures UxRow(M, m, x, n) == Elem(y, m)
    {
      UxIsY(M, y, x, m);
    }
    forall j | 0 <= j < n
      ensures LUEntry(M, i, j, n) == Entry(A, perm[i], j)
    {
      LUIsA(A, perm, M, i, j);
    }
    TermRowsByY(M, i, x, y, n, n);
    TermColsByA(A, perm[i], M, i, x, n, n);
    TermSwap(M, i, x, n, n);
    LyRowIsSum(M, i, y, n);
    LowerRow(M, i, y);
  }
}
