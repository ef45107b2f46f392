/** The array operations the detectors use: `filter` and `map`. */
module Sequences {
  /** `s.filter(keep)`: the elements that satisfy keep, in order. */
  function Filter<T>(keep: T -> bool, s: seq<T>): (r: seq<T>)
    ensures |r| <= |s|
    ensures forall i :: 0 <= i < |r| ==> keep(r[i])
    ensures forall i :: 0 <= i < |r| ==> r[i] in s
    ensures forall i :: 0 <= i < |s| && keep(s[i]) ==> s[i] in r
  {
    if |s| == 0 then []
    else (if keep(s[0]) then [s[0]] else []) + Filter(keep, s[1..])
  }

  /** Filtering a concatenation filters each part: the kept elements stay
      in their original order. */
  lemma {:induction false} FilterAppend<T>(keep: T -> bool, a: seq<T>, b: seq<T>)
    ensures Filter(keep, a + b) == Filter(keep, a) + Filter(keep, b)
  {
    if |a| > 0 {
      FilterAppend(keep, a[1..], b);
      assert (a + b)[1..] == a[1..] + b;
      var h := if keep(a[0]) then [a[0]] else [];
      assert Filter(keep, a + b) == h + (Filter(keep, a[1..]) + Filter(keep, b));
      assert Filter(keep, a) == h + Filter(keep, a[1..]);
    } else {
      assert a + b == b;
    }
  }

  /** A sequence whose every element is kept is left as it is. */
  lemma {:induction false} FilterAll<T>(keep: T -> bool, s: seq<T>)
    requires forall i :: 0 <= i < |s| ==> keep(s[i])
    ensures Filter(keep, s) == s
  {
    if |s| > 0 {
      FilterAll(keep, s[1..]);
      assert s == [s[0]] + s[1..];
    }
  }

  /** An element survives the filter exactly when it is in s and kept. */
  lemma FilterMember<T>(keep: T -> bool, s: seq<T>, x: T)
    ensures x in Filter(keep, s) <==> x in s && keep(x)
  {
    var r := Filter(keep, s);
    if x in r {
      var i :| 0 <= i < |r| && r[i] == x;
      assert keep(r[i]) && r[i] in s;
    }
    if x in s && keep(x) {
      var i :| 0 <= i < |s| && s[i] == x;
      assert s[i] in r;
    }
  }

  /** `s.map(f)`. */
  function Map<T, U>(f: T -> U, s: seq<T>): (r: seq<U>)
    ensures |r| == |s| && forall i :: 0 <= i < |s| ==> r[i] == f(s[i])
  {
    seq(|s|, i requires 0 <= i < |s| => f(s[i]))
  }

  /** The first step of a pipeline of map, filter and map. */
  lemma PipelineCons<A, B, C>(f: A -> B, keep: B -> bool, g: B -> C, s: seq<A>)
    requires |s| > 0
    ensures Map(g, Filter(keep, Map(f, s)))
      == (if keep(f(s[0])) then [g(f(s[0]))] else []) + Map(g, Filter(keep, Map(f, s[1..])))
  {
    var m := Map(f, s);
    assert m[1..] == Map(f, s[1..]);
    var kept := if keep(f(s[0])) then [f(s[0])] else [];
    assert Filter(keep, m) == kept + Filter(keep, m[1..]);
    MapAppend(g, kept, Filter(keep, m[1..]));
    assert Map(g, kept) == (if keep(f(s[0])) then [g(f(s[0]))] else []);
  }

  /** Mapping a concatenation maps each part. */
  lemma MapAppend<T, U>(f: T -> U, a: seq<T>, b: seq<T>)
    ensures Map(f, a + b) == Map(f, a) + Map(f, b)
  {
    assert forall i :: 0 <= i < |a + b| ==> Map(f, a + b)[i] == (Map(f, a) + Map(f, b))[i];
  }

  /** A loop that maps s element by element extends the mapped prefix by
      one. */
  lemma MapSnoc<T, U>(f: T -> U, s: seq<T>, k: nat, acc: seq<U>, y: U)
    requires k < |s| && acc == Map(f, s[..k]) && y == f(s[k])
    ensures acc + [y] == Map(f, s[..k + 1])
  {
    assert s[..k + 1] == s[..k] + [s[k]];
    MapAppend(f, s[..k], [s[k]]);
  }
}
