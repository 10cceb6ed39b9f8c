/**
 * Reading the value out of a SCIM filter such as `userName eq "alice"`
 * (section 3.4.2.2 of RFC 7644) the way the list handlers do it: split the
 * filter at single spaces, take the third piece and strip the double
 * quotes around it.
 */
module Filters {
  import opened Wrappers

  /** `s` split at every occurrence of `c`, empty pieces included, as
      Python's `str.split` does when given a separator. */
  function Split(s: string, c: char): (parts: seq<string>)
    ensures |parts| >= 1
    ensures forall i :: 0 <= i < |parts| ==> c !in parts[i]
    decreases |s|
  {
    if s == [] then [""]
    else if s[0] == c then [""] + Split(s[1..], c)
    else
      var rest := Split(s[1..], c);
      [[s[0]] + rest[0]] + rest[1..]
  }

  /** The pieces glued back together with `c` between neighbours. */
  function Join(parts: seq<string>, c: char): string
    requires |parts| >= 1
    decreases |parts|
  {
    if |parts| == 1 then parts[0] else parts[0] + [c] + Join(parts[1..], c)
  }

  /** Splitting loses nothing: joining the pieces gives the string back. */
  lemma {:induction false} JoinSplit(s: string, c: char)
    ensures Join(Split(s, c), c) == s
    decreases |s|
  {
    if s != [] {
      JoinSplit(s[1..], c);
      var rest := Split(s[1..], c);
      if s[0] == c {
        assert Split(s, c)[1..] == rest;
        assert s == [c] + s[1..];
      } else {
        var parts := Split(s, c);
        assert parts[1..] == rest[1..];
        if |rest| == 1 {
          assert s == [s[0]] + s[1..];
        } else {
          assert rest[1..][1..] == rest[2..] && Join(rest, c) == rest[0] + [c] + Join(rest[1..], c);
          assert s == [s[0]] + s[1..];
        }
      }
    }
  }

  /** Splitting a string glued from separator-free pieces gives the pieces. */
  lemma {:induction false} SplitJoin(parts: seq<string>, c: char)
    requires |parts| >= 1 && forall i :: 0 <= i < |parts| ==> c !in parts[i]
    ensures Split(Join(parts, c), c) == parts
    decreases |parts|, |parts[0]|
  {
    var p := parts[0];
    var s := Join(parts, c);
    if p == [] {
      if |parts| > 1 {
        SplitJoin(parts[1..], c);
        assert s == [c] + Join(parts[1..], c);
        assert s[1..] == Join(parts[1..], c);
        assert [""] + parts[1..] == parts;
      }
    } else {
      var shorter := [p[1..]] + parts[1..];
      assert shorter[1..] == parts[1..];
      assert c !in p[1..] by {
        assert forall k :: 0 <= k < |p[1..]| ==> p[1..][k] == p[k + 1];
      }
      SplitJoin(shorter, c);
      var t := Join(shorter, c);
      if |parts| == 1 {
        assert s == p && t == p[1..];
      } else {
        assert s == p + [c] + Join(parts[1..], c);
        assert t == p[1..] + [c] + Join(parts[1..], c);
      }
      assert s == [p[0]] + t;
      assert s[0] == p[0] && s[1..] == t;
      var rest := Split(s[1..], c);
      assert rest == shorter;
      assert Split(s, c) == [[p[0]] + p[1..]] + parts[1..];
      assert [p[0]] + p[1..] == p;
      assert [p] + parts[1..] == parts;
    }
  }

  /** `s` without the leading occurrences of `q`. */
  function StripLeft(s: string, q: char): (r: string)
    ensures |r| <= |s| && r == s[|s| - |r|..]
    ensures r != [] ==> r[0] != q
    ensures forall k :: 0 <= k < |s| - |r| ==> s[k] == q
    decreases |s|
  {
    if s != [] && s[0] == q then StripLeft(s[1..], q) else s
  }

  /** `s` without the trailing occurrences of `q`. */
  function StripRight(s: string, q: char): (r: string)
    ensures |r| <= |s| && r == s[..|r|]
    ensures r != [] ==> r[|r| - 1] != q
    ensures forall k :: |r| <= k < |s| ==> s[k] == q
    decreases |s|
  {
    if s != [] && s[|s| - 1] == q then StripRight(s[..|s| - 1], q) else s
  }

  /** `r` is the run `s[a..b]` of `s`, and everything around it is `q`. */
  predicate RunBetween(s: string, r: string, q: char, a: int, b: int) {
    && 0 <= a <= b <= |s| && |r| == b - a
    && (forall i :: 0 <= i < |r| ==> r[i] == s[a + i])
    && (forall k :: 0 <= k < a ==> s[k] == q)
    && (forall k :: b <= k < |s| ==> s[k] == q)
  }

  /** Python's `str.strip(q)`: `s` without its leading and trailing
      occurrences of `q`. */
  function Strip(s: string, q: char): (r: string)
    ensures |r| <= |s|
    ensures r != [] ==> r[0] != q && r[|r| - 1] != q
    ensures exists a, b :: RunBetween(s, r, q, a, b)
  {
    var l := StripLeft(s, q);
    var r := StripRight(l, q);
    RunOfSuffix(s, l, r, q);
    r
  }

  /** A prefix `r` of a suffix `l` of `s`, with only `q` left out on either
      side, is a run of `s` between quotes. */
  lemma RunOfSuffix(s: string, l: string, r: string, q: char)
    requires |l| <= |s| && l == s[|s| - |l|..]
    requires l != [] ==> l[0] != q
    requires forall k :: 0 <= k < |s| - |l| ==> s[k] == q
    requires |r| <= |l| && r == l[..|r|]
    requires forall k :: |r| <= k < |l| ==> l[k] == q
    ensures r != [] ==> r[0] != q
    ensures RunBetween(s, r, q, |s| - |l|, |s| - |l| + |r|)
  {
    var a := |s| - |l|;
    forall k | a + |r| <= k < |s|
      ensures s[k] == q
    {
      assert s[k] == l[k - a];
    }
  }

  /** Stripping what is already stripped changes nothing. */
  lemma StripIdempotent(s: string, q: char)
    ensures Strip(Strip(s, q), q) == Strip(s, q)
  {
    var r := Strip(s, q);
    assert StripLeft(r, q) == r;
    assert StripRight(r, q) == r;
  }

  lemma StripLeftCons(q: char, t: string)
    ensures StripLeft([q] + t, q) == StripLeft(t, q)
  {
    assert ([q] + t)[1..] == t;
  }

  lemma StripRightSnoc(t: string, q: char)
    ensures StripRight(t + [q], q) == StripRight(t, q)
  {
    assert (t + [q])[..|t|] == t;
  }

  /** A value quoted once comes out of the quotes unchanged. */
  lemma StripQuoted(v: string, q: char)
    requires v == [] || (v[0] != q && v[|v| - 1] != q)
    ensures Strip([q] + v + [q], q) == v
  {
    var s := [q] + v + [q];
    assert s == [q] + (v + [q]);
    StripLeftCons(q, v + [q]);
    var l := StripLeft(v + [q], q);
    if v == [] {
      assert v + [q] == [q] + [];
      StripLeftCons(q, []);
      assert l == [];
    } else {
      assert (v + [q])[0] == v[0];
      assert l == v + [q];
      StripRightSnoc(v, q);
      assert StripRight(l, q) == v;
    }
    assert Strip(s, q) == StripRight(l, q);
  }

  /** The filter value: the third space-separated piece without its
      surrounding double quotes; a filter with fewer than three pieces has
      none (the handler raises on it). */
  function FilterValue(filter: string): (v: Option<string>)
    ensures v.None? <==> |Split(filter, ' ')| < 3
  {
    var pieces := Split(filter, ' ');
    if |pieces| < 3 then None else Some(Strip(pieces[2], '"'))
  }

  /** An equality filter `attr op "v"` yields `v`, when neither the
      attribute, the operator nor the value holds a space and the value
      neither starts nor ends with a double quote. */
  lemma FilterValueOfComparison(attr: string, op: string, v: string)
    requires ' ' !in attr && ' ' !in op && ' ' !in v
    requires v == [] || (v[0] != '"' && v[|v| - 1] != '"')
    ensures FilterValue(attr + " " + op + " \"" + v + "\"") == Some(v)
  {
    var quoted := ['"'] + v + ['"'];
    var parts := [attr, op, quoted];
    assert ' ' !in quoted;
    assert Join(parts, ' ') == attr + " " + op + " \"" + v + "\"" by {
      assert Join(parts[2..], ' ') == quoted;
      assert Join(parts[1..], ' ') == op + [' '] + quoted;
    }
    SplitJoin(parts, ' ');
    StripQuoted(v, '"');
  }
}
