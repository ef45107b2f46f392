/** The JavaScript string operations the text clean-up relies on, over
    strings as sequences of Unicode scalar values standing for the source's
    UTF-16 strings: `split` and `join` on one separator character, `trim`,
    and `replace(/\s+/g, ' ')`. */
module Strings {

  /** The characters `\s` and `trim` treat as white space: the ECMAScript
      WhiteSpace and LineTerminator code points. */
  predicate IsSpace(c: char) {
    var n := c as int;
    (0x09 <= n <= 0x0D) || n == 0x20 || n == 0xA0 || n == 0x1680
    || (0x2000 <= n <= 0x200A) || n == 0x2028 || n == 0x2029 || n == 0x202F
    || n == 0x205F || n == 0x3000 || n == 0xFEFF
  }

  // ---------------------------------------------------------------------
  // split and join

  /** `s.split(sep)`: the pieces between separators; always at least one. */
  function Split(s: string, sep: char): (r: seq<string>)
    ensures |r| >= 1
    ensures forall i, j :: 0 <= i < |r| && 0 <= j < |r[i]| ==> r[i][j] != sep
  {
    if |s| == 0 then [""]
    else if s[0] == sep then [""] + Split(s[1..], sep)
    else
      var rest := Split(s[1..], sep);
      [[s[0]] + rest[0]] + rest[1..]
  }

  /** `s.length > 0`, as a filter. */
  const NonEmpty: string -> bool := s => |s| > 0

  /** `lines.join(sep)`. */
  function Join(lines: seq<string>, sep: char): string {
    if |lines| == 0 then ""
    else if |lines| == 1 then lines[0]
    else lines[0] + [sep] + Join(lines[1..], sep)
  }

  /** Joining the pieces of a split gives back the string. */
  lemma {:induction false} JoinSplit(s: string, sep: char)
    ensures Join(Split(s, sep), sep) == s
  {
    if |s| > 0 {
      JoinSplit(s[1..], sep);
      var rest := Split(s[1..], sep);
      if s[0] == sep {
        JoinCons("", rest, sep);
      } else {
        JoinPrepend(s[0], rest, sep);
      }
      assert s == [s[0]] + s[1..];
    }
  }

  /** Joining a piece in front of at least one more puts a separator
      between them. */
  lemma JoinCons(w: string, rest: seq<string>, sep: char)
    requires |rest| >= 1
    ensures Join([w] + rest, sep) == w + [sep] + Join(rest, sep)
  {
    assert ([w] + rest)[1..] == rest;
  }

  /** A character put in front of the first piece comes first in the join. */
  lemma JoinPrepend(c: char, rest: seq<string>, sep: char)
    requires |rest| >= 1
    ensures Join([[c] + rest[0]] + rest[1..], sep) == [c] + Join(rest, sep)
  {
    var r := [[c] + rest[0]] + rest[1..];
    assert r[1..] == rest[1..];
    if |rest| > 1 {
      assert Join(r, sep) == [c] + rest[0] + [sep] + Join(rest[1..], sep);
      assert Join(rest, sep) == rest[0] + [sep] + Join(rest[1..], sep);
    }
  }

  /** Splitting a join of pieces that hold no separator gives the pieces
      back (a join of no pieces splits into one empty piece). */
  lemma {:induction false} SplitJoin(lines: seq<string>, sep: char)
    requires |lines| >= 1
    requires forall i, j :: 0 <= i < |lines| && 0 <= j < |lines[i]| ==> lines[i][j] != sep
    ensures Split(Join(lines, sep), sep) == lines
  {
    if |lines| == 1 {
      SplitNoSeparator(lines[0], sep);
    } else {
      SplitJoin(lines[1..], sep);
      SplitPrefix(lines[0], Join(lines[1..], sep), sep);
    }
  }

  /** A string without the separator splits into itself. */
  lemma {:induction false} SplitNoSeparator(s: string, sep: char)
    requires forall j :: 0 <= j < |s| ==> s[j] != sep
    ensures Split(s, sep) == [s]
  {
    if |s| > 0 {
      SplitNoSeparator(s[1..], sep);
      assert s == [s[0]] + s[1..];
    }
  }

  /** Splitting w + sep + t, where w holds no separator, gives w followed by
      the pieces of t. */
  lemma {:induction false} SplitPrefix(w: string, t: string, sep: char)
    requires forall j :: 0 <= j < |w| ==> w[j] != sep
    ensures Split(w + [sep] + t, sep) == [w] + Split(t, sep)
  {
    if |w| == 0 {
      assert w + [sep] + t == [sep] + t;
      assert ([sep] + t)[1..] == t;
    } else {
      SplitPrefix(w[1..], t, sep);
      assert (w + [sep] + t)[1..] == w[1..] + [sep] + t;
      assert w == [w[0]] + w[1..];
    }
  }

  // ---------------------------------------------------------------------
  // White space

  /** The number of white-space characters s begins with. */
  function LeadingSpaces(s: string): (n: nat)
    ensures n <= |s| && (n == |s| || !IsSpace(s[n]))
    ensures forall k :: 0 <= k < n ==> IsSpace(s[k])
  {
    if |s| > 0 && IsSpace(s[0]) then 1 + LeadingSpaces(s[1..]) else 0
  }

  /** The number of white-space characters s ends with. */
  function TrailingSpaces(s: string): (n: nat)
    ensures n <= |s| && (n == |s| || !IsSpace(s[|s| - n - 1]))
    ensures forall k :: |s| - n <= k < |s| ==> IsSpace(s[k])
  {
    if |s| > 0 && IsSpace(s[|s| - 1]) then 1 + TrailingSpaces(s[..|s| - 1]) else 0
  }

  /** s without its leading white space (`trimStart`). */
  function TrimStart(s: string): (r: string)
    ensures |r| <= |s|
  {
    s[LeadingSpaces(s)..]
  }

  /** s without its trailing white space (`trimEnd`). */
  function TrimEnd(s: string): (r: string)
    ensures |r| <= |s|
  {
    s[..|s| - TrailingSpaces(s)]
  }

  /** trimStart cuts a leading run of white space and no more: what is
      left is a suffix of s that does not begin with white space. */
  lemma TrimStartSpec(s: string)
    ensures var r := TrimStart(s);
      r == s[|s| - |r|..] && (r == "" || !IsSpace(r[0]))
      && forall k :: 0 <= k < |s| - |r| ==> IsSpace(s[k])
  {
  }

  /** trimEnd cuts a trailing run of white space and no more: what is left
      is a prefix of s that does not end with white space. */
  lemma TrimEndSpec(s: string)
    ensures var r := TrimEnd(s);
      r == s[..|r|] && (r == "" || !IsSpace(r[|r| - 1]))
      && forall k :: |r| <= k < |s| ==> IsSpace(s[k])
  {
  }

  /** `trim`. */
  function Trim(s: string): string {
    TrimEnd(TrimStart(s))
  }

  /** The trimmed string is the part of s between its leading and trailing
      white space: a slice of s with no white space at either end, and
      everything cut off is white space. */
  lemma TrimSpec(s: string)
    ensures exists i, j ::
      (0 <= i <= j <= |s| && Trim(s) == s[i..j]
       && (forall k :: 0 <= k < i ==> IsSpace(s[k]))
       && (forall k :: j <= k < |s| ==> IsSpace(s[k])))
    ensures Trim(s) == "" || (!IsSpace(Trim(s)[0]) && !IsSpace(Trim(s)[|Trim(s)| - 1]))
  {
    var i, j := TrimCut(s);
    assert 0 <= i <= j <= |s| && Trim(s) == s[i..j]
       && (forall k :: 0 <= k < i ==> IsSpace(s[k]))
       && (forall k :: j <= k < |s| ==> IsSpace(s[k]));
    TrimEnds(s);
  }

  /** The two cuts trim makes, with only white space outside them. */
  lemma TrimCut(s: string) returns (i: nat, j: nat)
    ensures i <= j <= |s| && Trim(s) == s[i..j]
    ensures forall k :: 0 <= k < i ==> IsSpace(s[k])
    ensures forall k :: j <= k < |s| ==> IsSpace(s[k])
  {
    var u := TrimStart(s);
    i := |s| - |u|;
    j := i + |TrimEnd(u)|;
    EndCut(s, i, u);
  }

  /** Trimming the end of the suffix u = s[i..] cuts s at i + |TrimEnd(u)|,
      with only white space behind the cut. */
  lemma EndCut(s: string, i: nat, u: string)
    requires i <= |s| && u == s[i..]
    ensures i + |TrimEnd(u)| <= |s| && TrimEnd(u) == s[i..i + |TrimEnd(u)|]
    ensures forall k :: i + |TrimEnd(u)| <= k < |s| ==> IsSpace(s[k])
  {
    var v := TrimEnd(u);
    assert v == u[..|v|];
    assert u[..|v|] == s[i..i + |v|];
    forall k | i + |v| <= k < |s|
      ensures IsSpace(s[k])
    {
      assert s[k] == u[k - i];
    }
  }

  /** Where the trimmed string sits in s. */
  lemma TrimSlice(s: string) returns (i: nat, j: nat)
    ensures i <= j <= |s| && Trim(s) == s[i..j]
  {
    var u := TrimStart(s);
    var v := TrimEnd(u);
    i := |s| - |u|;
    j := i + |v|;
    assert u == s[i..] && v == u[..|v|];
    assert u[..|v|] == s[i..j];
  }

  /** The trimmed string has no white space at either end. */
  lemma TrimEnds(s: string)
    ensures Trim(s) == "" || (!IsSpace(Trim(s)[0]) && !IsSpace(Trim(s)[|Trim(s)| - 1]))
  {
    var u := TrimStart(s);
    if Trim(s) != "" {
      assert Trim(s)[0] == u[0];
    }
  }

  /** Trimming twice trims nothing more. */
  lemma TrimIdempotent(s: string)
    ensures Trim(Trim(s)) == Trim(s)
  {
    var t := Trim(s);
    TrimSpec(s);
    assert TrimStart(t) == t;
    assert TrimEnd(t) == t;
  }

  /** s without its leading run of white space. */
  function AfterSpaces(s: string): (r: string)
    ensures |r| == |s| - LeadingSpaces(s)
    ensures forall i :: 0 <= i < |r| ==> r[i] == s[LeadingSpaces(s) + i]
  {
    s[LeadingSpaces(s)..]
  }

  /** `s.replace(/\s+/g, ' ')`: every maximal run of white space becomes a
      single space. */
  function CollapseSpaces(s: string): string
    decreases |s|
  {
    if |s| == 0 then ""
    else if IsSpace(s[0]) then [' '] + CollapseSpaces(AfterSpaces(s))
    else [s[0]] + CollapseSpaces(s[1..])
  }

  /** No two white-space characters are adjacent, and the only white space
      is the plain space. */
  predicate Collapsed(s: string) {
    (forall i :: 0 <= i < |s| && IsSpace(s[i]) ==> s[i] == ' ')
    && (forall i :: 0 < i < |s| && IsSpace(s[i - 1]) ==> !IsSpace(s[i]))
  }

  /** The characters of s that are not white space, in order. */
  function Visible(s: string): string {
    if |s| == 0 then "" else (if IsSpace(s[0]) then "" else [s[0]]) + Visible(s[1..])
  }

  /** Collapsing gives a collapsed string with the same visible characters,
      whose first character is white space exactly when s begins with
      white space. */
  lemma CollapseSpec(s: string)
    ensures Collapsed(CollapseSpaces(s))
    ensures Visible(CollapseSpaces(s)) == Visible(s)
    ensures |CollapseSpaces(s)| > 0 <==> |s| > 0
    ensures |s| > 0 ==> (IsSpace(CollapseSpaces(s)[0]) <==> IsSpace(s[0]))
  {
    CollapseShape(s);
    CollapseVisible(s);
  }

  /** The first character of the collapsed string, and its being collapsed. */
  lemma {:induction false} CollapseShape(s: string)
    ensures Collapsed(CollapseSpaces(s))
    ensures |CollapseSpaces(s)| > 0 <==> |s| > 0
    ensures |s| > 0 ==> (IsSpace(CollapseSpaces(s)[0]) <==> IsSpace(s[0]))
    decreases |s|
  {
    if |s| > 0 {
      var r := CollapseSpaces(s);
      if IsSpace(s[0]) {
        var d := AfterSpaces(s);
        CollapseShape(d);
        var rest := CollapseSpaces(d);
        assert r == [' '] + rest;
        assert rest == [] || !IsSpace(rest[0]);
        CollapsedCons(' ', rest);
      } else {
        CollapseShape(s[1..]);
        var rest := CollapseSpaces(s[1..]);
        assert r == [s[0]] + rest;
        CollapsedCons(s[0], rest);
      }
    }
  }

  /** A collapsed string stays collapsed behind a character that is not
      white space, or behind a plain space when it does not begin with
      white space. */
  lemma CollapsedCons(c: char, t: string)
    requires Collapsed(t)
    requires !IsSpace(c) || (c == ' ' && (t == [] || !IsSpace(t[0])))
    ensures Collapsed([c] + t)
  {
    var u := [c] + t;
    forall i | 0 < i < |u| && IsSpace(u[i - 1])
      ensures !IsSpace(u[i])
    {
      if i > 1 {
        assert u[i - 1] == t[i - 2] && u[i] == t[i - 1];
      }
    }
  }

  /** Collapsing keeps the visible characters. */
  lemma {:induction false} CollapseVisible(s: string)
    ensures Visible(CollapseSpaces(s)) == Visible(s)
    decreases |s|
  {
    if |s| > 0 {
      var r := CollapseSpaces(s);
      if IsSpace(s[0]) {
        var d := AfterSpaces(s);
        CollapseVisible(d);
        var rest := CollapseSpaces(d);
        assert r == [' '] + rest;
        VisibleSpaces(s, LeadingSpaces(s));
        assert ([' '] + rest)[1..] == rest;
      } else {
        CollapseVisible(s[1..]);
        var rest := CollapseSpaces(s[1..]);
        assert r == [s[0]] + rest;
        assert ([s[0]] + rest)[1..] == rest;
      }
    }
  }

  /** Dropping k leading white-space characters leaves the visible
      characters alone. */
  lemma {:induction false} VisibleSpaces(s: string, k: nat)
    requires k <= |s| && forall i :: 0 <= i < k ==> IsSpace(s[i])
    ensures Visible(s[k..]) == Visible(s)
  {
    if k > 0 {
      VisibleSpaces(s[1..], k - 1);
      assert s[1..][k - 1..] == s[k..];
    }
  }

  /** A collapsed string is left as it is. */
  lemma {:induction false} CollapseFixes(s: string)
    requires Collapsed(s)
    ensures CollapseSpaces(s) == s
    decreases |s|
  {
    if |s| > 0 {
      assert Collapsed(s[1..]);
      if IsSpace(s[0]) {
        assert |s| == 1 || !IsSpace(s[1]);
        assert LeadingSpaces(s) == 1;
      }
      CollapseFixes(s[1..]);
      assert s == [s[0]] + s[1..];
    }
  }

  /** Collapsing twice collapses nothing more. */
  lemma CollapseIdempotent(s: string)
    ensures CollapseSpaces(CollapseSpaces(s)) == CollapseSpaces(s)
  {
    CollapseSpec(s);
    CollapseFixes(CollapseSpaces(s));
  }

  /** A slice of a collapsed string is collapsed. */
  lemma CollapsedSlice(s: string, i: nat, j: nat)
    requires Collapsed(s) && i <= j <= |s|
    ensures Collapsed(s[i..j])
  {
    var t := s[i..j];
    forall k | 0 < k < |t| && IsSpace(t[k - 1])
      ensures !IsSpace(t[k])
    {
      assert t[k - 1] == s[i + k - 1] && t[k] == s[i + k];
    }
  }

  /** Collapsing then trimming, applied again, changes nothing. */
  lemma CollapseTrimIdempotent(s: string)
    ensures Trim(CollapseSpaces(Trim(CollapseSpaces(s)))) == Trim(CollapseSpaces(s))
  {
    var c := CollapseSpaces(s);
    CollapseSpec(s);
    var i, j := TrimCut(c);
    CollapsedSlice(c, i, j);
    CollapseFixes(Trim(c));
    TrimIdempotent(c);
  }
}
