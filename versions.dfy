/**
 * The sort key the extractor uses to pick the highest of several versions of a package:
 * the version is split at every `.` and `-`, all-digit segments become integers, the other
 * segments stay strings, and keys are compared as Python compares lists.
 *
 * Python raises a `TypeError` when the first pair of differing segments is an integer and
 * a string; `Comparable` says when that cannot happen.
 */
module VersionKeys {
  import Strings

  predicate IsSeparator(c: char) {
    c == '.' || c == '-'
  }

  predicate NoSeparator(t: string) {
    forall k :: 0 <= k < |t| ==> !IsSeparator(t[k])
  }

  /** `re.split('[.-]', v)`: the pieces between separators, empty ones included. */
  function Split(v: string): (parts: seq<string>)
    ensures |parts| >= 1
    ensures forall k :: 0 <= k < |parts| ==> NoSeparator(parts[k])
  {
    if v == [] then [""]
    else
      var rest := Split(v[1..]);
      if IsSeparator(v[0]) then [""] + rest
      else [[v[0]] + rest[0]] + rest[1..]
  }

  /** The separators of `v`, in order. */
  function Separators(v: string): seq<char> {
    if v == [] then []
    else (if IsSeparator(v[0]) then [v[0]] else []) + Separators(v[1..])
  }

  /** The pieces put back together with the separators between them. */
  function Interleave(parts: seq<string>, seps: seq<char>): string
    requires |parts| == |seps| + 1
    decreases |seps|
  {
    if seps == [] then parts[0] else parts[0] + [seps[0]] + Interleave(parts[1..], seps[1..])
  }

  lemma InterleavePrepend(c: char, parts: seq<string>, seps: seq<char>)
    requires |parts| == |seps| + 1
    ensures Interleave([[c] + parts[0]] + parts[1..], seps) == [c] + Interleave(parts, seps)
  {
    var ps := [[c] + parts[0]] + parts[1..];
    assert ps[1..] == parts[1..];
  }

  /** Splitting loses nothing: the pieces and the separators give back the version string. */
  lemma {:induction false} SplitRoundTrip(v: string)
    ensures |Split(v)| == |Separators(v)| + 1
    ensures Interleave(Split(v), Separators(v)) == v
  {
    if v != [] {
      SplitRoundTrip(v[1..]);
      var rest := Split(v[1..]);
      if IsSeparator(v[0]) {
        assert ([""] + rest)[1..] == rest;
        assert v == [v[0]] + v[1..];
      } else {
        assert Split(v) == [[v[0]] + rest[0]] + rest[1..];
        assert Separators(v) == Separators(v[1..]);
        InterleavePrepend(v[0], rest, Separators(v[1..]));
        assert v == [v[0]] + v[1..];
      }
    }
  }

  /** A piece without separators splits into itself. */
  lemma {:induction false} SplitPlain(a: string)
    requires NoSeparator(a)
    ensures Split(a) == [a]
  {
    if a != [] {
      SplitPlain(a[1..]);
      assert a == [a[0]] + a[1..];
    }
  }

  /** A piece followed by a separator is the first part; the rest splits on its own. */
  lemma {:induction false} SplitSeparated(a: string, c: char, b: string)
    requires NoSeparator(a) && IsSeparator(c)
    ensures Split(a + [c] + b) == [a] + Split(b)
  {
    var v := a + [c] + b;
    if a == [] {
      assert v[1..] == b;
    } else {
      assert v[1..] == a[1..] + [c] + b;
      SplitSeparated(a[1..], c, b);
      assert a == [a[0]] + a[1..];
    }
  }

  /** A segment of a key: an integer for an all-digit piece, the piece itself otherwise. */
  datatype Segment = Num(n: nat) | Str(s: string)

  predicate IsDigit(c: char) {
    '0' <= c <= '9'
  }

  /** `str.isdigit()` on ASCII text: non-empty and digits only. */
  predicate AllDigits(t: string) {
    |t| > 0 && forall k :: 0 <= k < |t| ==> IsDigit(t[k])
  }

  function DigitValue(c: char): nat
    requires IsDigit(c)
  {
    c as int - '0' as int
  }

  /** `int(t)` for a string of decimal digits. */
  function DecimalValue(t: string): nat
    requires forall k :: 0 <= k < |t| ==> IsDigit(t[k])
  {
    if t == [] then 0 else DecimalValue(t[..|t| - 1]) * 10 + DigitValue(t[|t| - 1])
  }

  function SegmentOf(t: string): Segment {
    if AllDigits(t) then Num(DecimalValue(t)) else Str(t)
  }

  /** The sort key of a version string. */
  function Key(v: string): (key: seq<Segment>)
    ensures |key| == |Split(v)|
    ensures forall k :: 0 <= k < |key| ==> key[k] == SegmentOf(Split(v)[k])
  {
    var parts := Split(v);
    seq(|parts|, k requires 0 <= k < |parts| => SegmentOf(parts[k]))
  }

  /** Python's `<` on two segments of the same kind (never true across kinds). */
  predicate SegmentLess(x: Segment, y: Segment) {
    match (x, y)
    case (Num(a), Num(b)) => a < b
    case (Str(a), Str(b)) => Strings.Less(a, b)
    case _ => false
  }

  /** Python's `<` on two keys: the first differing segments decide, else the shorter key is smaller. */
  predicate KeyLess(a: seq<Segment>, b: seq<Segment>)
    decreases |a|
  {
    if a == [] then b != []
    else if b == [] then false
    else if a[0] != b[0] then SegmentLess(a[0], b[0])
    else KeyLess(a[1..], b[1..])
  }

  /** Python can compare the two keys: their first differing segments are of the same kind. */
  predicate Comparable(a: seq<Segment>, b: seq<Segment>)
    decreases |a|
  {
    if a == [] || b == [] then true
    else if a[0] != b[0] then a[0].Num? == b[0].Num?
    else Comparable(a[1..], b[1..])
  }

  lemma {:induction false} KeyLessIrreflexive(a: seq<Segment>)
    decreases |a|
    ensures !KeyLess(a, a)
  {
    if a != [] {
      KeyLessIrreflexive(a[1..]);
    }
  }

  lemma SegmentLessTransitive(x: Segment, y: Segment, z: Segment)
    requires SegmentLess(x, y) && SegmentLess(y, z)
    ensures SegmentLess(x, z)
  {
    if x.Str? {
      Strings.LessTransitive(x.s, y.s, z.s);
    }
  }

  lemma SegmentLessIrreflexive(x: Segment)
    ensures !SegmentLess(x, x)
  {
    if x.Str? {
      Strings.LessIrreflexive(x.s);
    }
  }

  /** The key order is transitive, with no comparability needed. */
  lemma {:induction false} KeyLessTransitive(a: seq<Segment>, b: seq<Segment>, c: seq<Segment>)
    requires KeyLess(a, b) && KeyLess(b, c)
    decreases |a|
    ensures KeyLess(a, c)
  {
    if a != [] && b != [] && c != [] {
      if a[0] == b[0] && b[0] == c[0] {
        KeyLessTransitive(a[1..], b[1..], c[1..]);
      } else if a[0] != b[0] && b[0] != c[0] {
        SegmentLessTransitive(a[0], b[0], c[0]);
        if a[0] == c[0] { SegmentLessIrreflexive(a[0]); }
      }
    }
  }

  /** Two comparable keys are equal or one is smaller: Python's sort never fails on them. */
  lemma {:induction false} KeyLessTotal(a: seq<Segment>, b: seq<Segment>)
    requires Comparable(a, b)
    decreases |a|
    ensures a == b || KeyLess(a, b) || KeyLess(b, a)
  {
    if a != [] && b != [] {
      if a[0] == b[0] {
        KeyLessTotal(a[1..], b[1..]);
        if a[1..] == b[1..] {
          assert a == [a[0]] + a[1..] && b == [b[0]] + b[1..];
        }
      } else if a[0].Str? {
        Strings.LessTotal(a[0].s, b[0].s);
      }
    }
  }

  lemma {:induction false} ComparableSymmetric(a: seq<Segment>, b: seq<Segment>)
    requires Comparable(a, b)
    decreases |a|
    ensures Comparable(b, a)
  {
    if a != [] && b != [] && a[0] == b[0] {
      ComparableSymmetric(a[1..], b[1..]);
    }
  }

  lemma ThreePartSplit(v: string, a: string, b: string, c: string, s1: char, s2: char)
    requires NoSeparator(a) && NoSeparator(b) && NoSeparator(c)
    requires IsSeparator(s1) && IsSeparator(s2)
    requires v == a + [s1] + (b + [s2] + c)
    ensures Split(v) == [a, b, c]
  {
    SplitPlain(c);
    SplitSeparated(b, s2, c);
    SplitSeparated(a, s1, b + [s2] + c);
  }

  lemma FourPartSplit(v: string, a: string, b: string, c: string, d: string, s1: char, s2: char, s3: char)
    requires NoSeparator(a) && NoSeparator(b) && NoSeparator(c) && NoSeparator(d)
    requires IsSeparator(s1) && IsSeparator(s2) && IsSeparator(s3)
    requires v == a + [s1] + (b + [s2] + (c + [s3] + d))
    ensures Split(v) == [a, b, c, d]
  {
    var w := b + [s2] + (c + [s3] + d);
    ThreePartSplit(w, b, c, d, s2, s3);
    SplitSeparated(a, s1, w);
  }

  lemma SegmentExamples()
    ensures SegmentOf("0") == Num(0) && SegmentOf("1") == Num(1) && SegmentOf("2") == Num(2)
    ensures SegmentOf("9") == Num(9) && SegmentOf("10") == Num(10)
    ensures SegmentOf("beta") == Str("beta")
  {
    assert "10"[..1] == "1";
    assert !IsDigit("beta"[0]);
  }

  lemma KeyOf_1_9_0()
    ensures Key("1.9.0") == [Num(1), Num(9), Num(0)]
  {
    SegmentExamples();
    assert "1.9.0" == "1" + ['.'] + ("9" + ['.'] + "0");
    ThreePartSplit("1.9.0", "1", "9", "0", '.', '.');
    KeyOfThree("1.9.0", "1", "9", "0");
  }

  lemma KeyOf_1_10_0()
    ensures Key("1.10.0") == [Num(1), Num(10), Num(0)]
  {
    SegmentExamples();
    assert "1.10.0" == "1" + ['.'] + ("10" + ['.'] + "0");
    ThreePartSplit("1.10.0", "1", "10", "0", '.', '.');
    KeyOfThree("1.10.0", "1", "10", "0");
  }

  lemma KeyOf_1_0_0()
    ensures Key("1.0.0") == [Num(1), Num(0), Num(0)]
  {
    SegmentExamples();
    assert "1.0.0" == "1" + ['.'] + ("0" + ['.'] + "0");
    ThreePartSplit("1.0.0", "1", "0", "0", '.', '.');
    KeyOfThree("1.0.0", "1", "0", "0");
  }

  lemma KeyOf_2_0_0()
    ensures Key("2.0.0") == [Num(2), Num(0), Num(0)]
  {
    SegmentExamples();
    assert "2.0.0" == "2" + ['.'] + ("0" + ['.'] + "0");
    ThreePartSplit("2.0.0", "2", "0", "0", '.', '.');
    KeyOfThree("2.0.0", "2", "0", "0");
  }

  lemma KeyOf_1_0_0_0()
    ensures Key("1.0.0.0") == [Num(1), Num(0), Num(0), Num(0)]
  {
    SegmentExamples();
    assert "1.0.0.0" == "1" + ['.'] + ("0" + ['.'] + ("0" + ['.'] + "0"));
    FourPartSplit("1.0.0.0", "1", "0", "0", "0", '.', '.', '.');
    KeyOfFour("1.0.0.0", "1", "0", "0", "0");
  }

  lemma KeyOf_2_0_0_beta()
    ensures Key("2.0.0-beta") == [Num(2), Num(0), Num(0), Str("beta")]
  {
    SegmentExamples();
    assert "2.0.0-beta" == "2" + ['.'] + ("0" + ['.'] + ("0" + ['-'] + "beta"));
    FourPartSplit("2.0.0-beta", "2", "0", "0", "beta", '.', '.', '-');
    KeyOfFour("2.0.0-beta", "2", "0", "0", "beta");
  }

  lemma KeyOf_1_0_0_beta()
    ensures Key("1.0.0-beta") == [Num(1), Num(0), Num(0), Str("beta")]
  {
    SegmentExamples();
    assert "1.0.0-beta" == "1" + ['.'] + ("0" + ['.'] + ("0" + ['-'] + "beta"));
    FourPartSplit("1.0.0-beta", "1", "0", "0", "beta", '.', '.', '-');
    KeyOfFour("1.0.0-beta", "1", "0", "0", "beta");
  }

  lemma KeyOf_1_0_0_1()
    ensures Key("1.0.0-1") == [Num(1), Num(0), Num(0), Num(1)]
  {
    SegmentExamples();
    assert "1.0.0-1" == "1" + ['.'] + ("0" + ['.'] + ("0" + ['-'] + "1"));
    FourPartSplit("1.0.0-1", "1", "0", "0", "1", '.', '.', '-');
    KeyOfFour("1.0.0-1", "1", "0", "0", "1");
  }

  lemma KeyOfThree(v: string, a: string, b: string, c: string)
    requires Split(v) == [a, b, c]
    ensures Key(v) == [SegmentOf(a), SegmentOf(b), SegmentOf(c)]
  {
  }

  lemma KeyOfFour(v: string, a: string, b: string, c: string, d: string)
    requires Split(v) == [a, b, c, d]
    ensures Key(v) == [SegmentOf(a), SegmentOf(b), SegmentOf(c), SegmentOf(d)]
  {
  }

  /** Integer segments compare by value: 1.10.0 is above 1.9.0. */
  lemma NumericSegmentsExample()
    ensures KeyLess(Key("1.9.0"), Key("1.10.0"))
  {
    KeyOf_1_9_0();
    KeyOf_1_10_0();
  }

  /** A longer key with the same start is larger: 1.0.0.0 is above 1.0.0. */
  lemma LongerKeyExample()
    ensures KeyLess(Key("1.0.0"), Key("1.0.0.0"))
  {
    KeyOf_1_0_0();
    KeyOf_1_0_0_0();
  }

  /** A pre-release suffix is one more segment, so 2.0.0-beta ranks above 2.0.0. */
  lemma PrereleaseExample()
    ensures KeyLess(Key("2.0.0"), Key("2.0.0-beta"))
  {
    KeyOf_2_0_0();
    KeyOf_2_0_0_beta();
  }

  /** 1.0.0-beta and 1.0.0-1 first differ in a string and an integer segment: Python cannot order them. */
  lemma IncomparableExample()
    ensures !Comparable(Key("1.0.0-beta"), Key("1.0.0-1"))
  {
    KeyOf_1_0_0_beta();
    KeyOf_1_0_0_1();
  }

  /*
   * Picking the highest version
   */

  /** Ascending by key: no version has a smaller key than one before it. */
  predicate SortedByKey(s: seq<string>) {
    forall i, j :: 0 <= i < j < |s| ==> !KeyLess(Key(s[j]), Key(s[i]))
  }

  /** Inserts `x` after every leading version whose key is not larger: the insertion keeps a sort stable. */
  function InsertByKey(x: string, s: seq<string>): (r: seq<string>)
    ensures multiset(r) == multiset(s) + multiset{x}
  {
    if s == [] then [x]
    else if KeyLess(Key(x), Key(s[0])) then [x] + s
    else
      assert s == [s[0]] + s[1..];
      [s[0]] + InsertByKey(x, s[1..])
  }

  lemma InsertInFront(x: string, s: seq<string>)
    requires SortedByKey(s) && s != [] && KeyLess(Key(x), Key(s[0]))
    ensures SortedByKey([x] + s)
  {
    forall j | 0 <= j < |s|
      ensures !KeyLess(Key(s[j]), Key(x))
    {
      if KeyLess(Key(s[j]), Key(x)) {
        KeyLessTransitive(Key(s[j]), Key(x), Key(s[0]));
        KeyLessIrreflexive(Key(s[0]));
      }
    }
  }

  lemma InsertBehind(x: string, s: seq<string>, t: seq<string>)
    requires SortedByKey(s) && s != [] && !KeyLess(Key(x), Key(s[0]))
    requires SortedByKey(t) && multiset(t) == multiset(s[1..]) + multiset{x}
    ensures SortedByKey([s[0]] + t)
  {
    forall y | y in t
      ensures !KeyLess(Key(y), Key(s[0]))
    {
      assert y in multiset(t);
      if y != x {
        assert y in s[1..];
      }
    }
  }

  lemma {:induction false} InsertByKeySorted(x: string, s: seq<string>)
    requires SortedByKey(s)
    decreases |s|
    ensures SortedByKey(InsertByKey(x, s))
  {
    if s != [] {
      if KeyLess(Key(x), Key(s[0])) {
        InsertInFront(x, s);
      } else {
        var t := InsertByKey(x, s[1..]);
        InsertByKeySorted(x, s[1..]);
        InsertBehind(x, s, t);
      }
    }
  }

  /** Python's stable `list.sort(key=...)` on the version key, as an insertion sort. */
  function SortByKey(versions: seq<string>): (r: seq<string>)
    ensures SortedByKey(r)
    ensures multiset(r) == multiset(versions)
  {
    if versions == [] then []
    else
      var n := |versions| - 1;
      assert versions == versions[..n] + [versions[n]];
      InsertByKeySorted(versions[n], SortByKey(versions[..n]));
      InsertByKey(versions[n], SortByKey(versions[..n]))
  }

  /** `version_list[-1]` after sorting by key. */
  function Highest(versions: seq<string>): string
    requires |versions| > 0
  {
    var sorted := SortByKey(versions);
    assert |sorted| == |multiset(versions)|;
    sorted[|sorted| - 1]
  }

  /** `r` is one of the versions and no version has a larger key. */
  predicate IsHighest(r: string, versions: set<string>) {
    r in versions && forall w {:trigger KeyLess(Key(r), Key(w))} :: w in versions ==> !KeyLess(Key(r), Key(w))
  }

  /** Python can compare the keys of every two versions, so sorting them raises no `TypeError`. */
  predicate AllComparable(versions: set<string>) {
    forall v, w {:trigger Comparable(Key(v), Key(w))} :: v in versions && w in versions ==> Comparable(Key(v), Key(w))
  }

  /** The last version after the sort is one of the versions and has a maximal key. */
  lemma HighestIsHighest(versions: seq<string>)
    requires |versions| > 0
    ensures IsHighest(Highest(versions), set v | v in versions)
  {
    var sorted := SortByKey(versions);
    var last := |sorted| - 1;
    assert sorted[last] in multiset(versions);
    forall w | w in versions
      ensures !KeyLess(Key(sorted[last]), Key(w))
    {
      assert w in multiset(sorted);
      var i :| 0 <= i < |sorted| && sorted[i] == w;
      if i == last {
        KeyLessIrreflexive(Key(w));
      }
    }
  }

  /** With comparable keys, all highest versions share one key: only versions that Python sees as equal can tie. */
  lemma HighestKeyUnique(a: string, b: string, versions: set<string>)
    requires AllComparable(versions)
    requires IsHighest(a, versions) && IsHighest(b, versions)
    ensures Key(a) == Key(b)
  {
    KeyLessTotal(Key(a), Key(b));
  }
}
