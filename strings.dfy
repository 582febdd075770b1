/**
 * String helpers with Python's meaning: substring search (`t in s`, `str.find`),
 * code-point-wise ordering (`a < b` on `str`), `str.isspace`, `'\n'.join`, and
 * sorting a set of names the way `sorted(...)` does.
 */
module Strings {

  /** `t` occurs in `s` starting at index `i`. */
  predicate OccursAt(s: string, t: string, i: int) {
    0 <= i && i + |t| <= |s| && s[i..i + |t|] == t
  }

  /** A piece of an occurrence occurs at the matching offset. */
  lemma OccursInside(s: string, t: string, i: int, a: nat, b: nat)
    requires OccursAt(s, t, i) && a <= b <= |t|
    ensures OccursAt(s, t[a..b], i + a)
  {
    forall k | 0 <= k < b - a
      ensures s[i + a..i + b][k] == t[a..b][k]
    {
      assert s[i + a + k] == s[i..i + |t|][a + k];
    }
  }

  /** The first index at or after `i` where `t` occurs in `s`, or -1 (Python's `s.find(t, i)`). */
  function FindFrom(s: string, t: string, i: nat): (r: int)
    requires i <= |s|
    decreases |s| - i
    ensures r == -1 || (i <= r && OccursAt(s, t, r))
    ensures r == -1 ==> forall j :: i <= j ==> !OccursAt(s, t, j)
    ensures r >= 0 ==> forall j :: i <= j < r ==> !OccursAt(s, t, j)
  {
    if OccursAt(s, t, i) then i
    else if i + |t| >= |s| then -1
    else FindFrom(s, t, i + 1)
  }

  /** The first index where `t` occurs in `s`, or -1. */
  function Find(s: string, t: string): int {
    FindFrom(s, t, 0)
  }

  /** Python's `t in s` for two strings. */
  predicate Contains(s: string, t: string) {
    Find(s, t) >= 0
  }

  lemma ContainsIff(s: string, t: string)
    ensures Contains(s, t) <==> exists i :: OccursAt(s, t, i)
  {
    if !Contains(s, t) {
      forall i ensures !OccursAt(s, t, i) {
        if 0 <= i { }
      }
    }
  }

  /** A string `t` placed anywhere inside a larger one is contained in it. */
  lemma {:induction false} ContainsInside(a: string, t: string, b: string)
    ensures Contains(a + t + b, t)
  {
    var s := a + t + b;
    assert s[|a|..|a| + |t|] == t;
    assert OccursAt(s, t, |a|);
    ContainsIff(s, t);
  }

  /** Python's `str.isspace()` for one character: the characters `\s` matches in a `str` pattern. */
  predicate IsSpace(c: char) {
    c == ' ' || ('\t' <= c <= '\r') || ('\U{1C}' <= c <= '\U{1F}') || c == '\U{85}' || c == '\U{A0}'
    || c == '\U{1680}' || ('\U{2000}' <= c <= '\U{200A}') || c == '\U{2028}' || c == '\U{2029}'
    || c == '\U{202F}' || c == '\U{205F}' || c == '\U{3000}'
  }


  /** Python's comparison `a < b` of two `str` values: lexicographic by code point. */
  predicate Less(a: string, b: string) {
    if a == [] then b != []
    else if b == [] then false
    else if a[0] != b[0] then a[0] < b[0]
    else Less(a[1..], b[1..])
  }

  lemma {:induction false} LessIrreflexive(a: string)
    ensures !Less(a, a)
  {
    if a != [] { LessIrreflexive(a[1..]); }
  }

  lemma {:induction false} LessTransitive(a: string, b: string, c: string)
    requires Less(a, b) && Less(b, c)
    ensures Less(a, c)
  {
    if a != [] && b != [] && c != [] && a[0] == b[0] && b[0] == c[0] {
      LessTransitive(a[1..], b[1..], c[1..]);
    }
  }

  lemma {:induction false} LessTotal(a: string, b: string)
    ensures a == b || Less(a, b) || Less(b, a)
  {
    if a != [] && b != [] && a[0] == b[0] {
      LessTotal(a[1..], b[1..]);
      if a[1..] == b[1..] {
        assert a == [a[0]] + a[1..] && b == [b[0]] + b[1..];
      }
    }
  }

  lemma {:induction false} LessAsymmetric(a: string, b: string)
    requires Less(a, b)
    ensures !Less(b, a)
  {
    if Less(b, a) {
      LessTransitive(a, b, a);
      LessIrreflexive(a);
    }
  }

  /** Strictly increasing under `Less`, hence also free of repetitions. */
  predicate StrictlySorted(s: seq<string>) {
    forall i, j :: 0 <= i < j < |s| ==> Less(s[i], s[j])
  }

  /** Inserts a new name at its place in a strictly sorted sequence. */
  function Insert(x: string, s: seq<string>): (r: seq<string>)
    requires StrictlySorted(s) && x !in s
    ensures StrictlySorted(r)
    ensures |r| == |s| + 1
    ensures forall y :: y in r <==> y == x || y in s
  {
    if s == [] then [x]
    else if Less(x, s[0]) then
      assert forall j :: 0 < j < |s| ==> Less(x, s[j]) by {
        forall j | 0 < j < |s| ensures Less(x, s[j]) { LessTransitive(x, s[0], s[j]); }
      }
      [x] + s
    else
      LessTotal(x, s[0]);
      var t := Insert(x, s[1..]);
      assert forall y :: y in t ==> Less(s[0], y);
      [s[0]] + t
  }

  /** Two strictly sorted sequences holding the same names are equal: a set sorts one way only. */
  lemma {:induction false} SortedUnique(a: seq<string>, b: seq<string>)
    requires StrictlySorted(a) && StrictlySorted(b)
    requires |a| == |b| && forall y :: y in a <==> y in b
    decreases |a|
    ensures a == b
  {
    if a != [] && b != [] {
      if a[0] != b[0] {
        assert b[0] in a;
        assert a[0] in b;
        LessAsymmetric(a[0], b[0]);
        assert false;
      }
      LessIrreflexive(a[0]);
      forall y
        ensures y in a[1..] <==> y in b[1..]
      {
        if y in a[1..] {
          assert y in b && y != b[0];
        }
        if y in b[1..] {
          assert y in a && y != a[0];
        }
      }
      SortedUnique(a[1..], b[1..]);
      assert a == [a[0]] + a[1..] && b == [b[0]] + b[1..];
    }
  }

  lemma {:induction false} SortedExists(names: set<string>)
    decreases |names|
    ensures exists r :: StrictlySorted(r) && |r| == |names| && forall y :: y in r <==> y in names
  {
    if names == {} {
      var r: seq<string> := [];
      assert StrictlySorted(r) && |r| == |names| && forall y :: y in r <==> y in names;
    } else {
      var x :| x in names;
      SortedExists(names - {x});
      var r :| StrictlySorted(r) && |r| == |names - {x}| && forall y :: y in r <==> y in names - {x};
      var t := Insert(x, r);
      assert StrictlySorted(t) && |t| == |names| && forall y :: y in t <==> y in names;
    }
  }

  /** Python's `sorted(names)` for a set of names, as a value: the names in strictly increasing order. */
  ghost function Sorted(names: set<string>): (r: seq<string>)
    ensures StrictlySorted(r) && |r| == |names|
    ensures forall y :: y in r <==> y in names
  {
    SortedExists(names);
    var r :| StrictlySorted(r) && |r| == |names| && forall y :: y in r <==> y in names;
    r
  }

  /** `sorted(names)` for a set of names, computed by insertion. */
  method SortNames(names: set<string>) returns (r: seq<string>)
    ensures r == Sorted(names)
  {
    var rest := names;
    r := [];
    while rest != {}
      invariant rest <= names
      invariant StrictlySorted(r)
      invariant forall y :: y in r <==> y in names && y !in rest
      invariant |r| + |rest| == |names|
      decreases |rest|
    {
      var x :| x in rest;
      r := Insert(x, r);
      rest := rest - {x};
    }
    SortedUnique(r, Sorted(names));
  }

  /** Python's `sep.join(parts)`. */
  function Join(parts: seq<string>, sep: string): string {
    if |parts| == 0 then ""
    else if |parts| == 1 then parts[0]
    else parts[0] + sep + Join(parts[1..], sep)
  }

  /** `list(s)`: every member once, in some order. */
  ghost predicate Lists(list: seq<string>, s: set<string>) {
    |list| == |s| && Distinct(list) && forall v :: v in list <==> v in s
  }

  /** No element occurs twice. */
  predicate Distinct<T(==)>(list: seq<T>) {
    forall i, j :: 0 <= i < j < |list| ==> list[i] != list[j]
  }

  /** `list(s)` for a set of strings. */
  method ListOf(s: set<string>) returns (list: seq<string>)
    ensures Lists(list, s)
  {
    list := [];
    var rest := s;
    while rest != {}
      invariant rest <= s
      invariant |list| + |rest| == |s| && Distinct(list)
      invariant forall v :: v in list <==> v in s && v !in rest
      decreases |rest|
    {
      var v :| v in rest;
      list := list + [v];
      rest := rest - {v};
    }
  }
}
