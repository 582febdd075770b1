/**
 * The text rewrites the batch updater applies to the contents of a `.csproj` file.
 *
 * Two of them are `re.sub` substitutions: one deletes the `Version="…"` attribute that
 * directly follows the `Include="…"` attribute of a `PackageReference` tag, the other
 * deletes every `PackageReference` tag for one package name together with the white space
 * after it. Each regular expression is modelled by a matcher that decides, at one position,
 * whether the expression matches there and where the deleted part begins and ends; `re.sub`
 * and `re.findall` are the usual left-to-right scan for non-overlapping matches.
 *
 * The other two insert one line after the first literal `<PropertyGroup>` (a single
 * substitution, `count=1`), each behind a "skip if already present" guard.
 */
module CsprojRewrites {
  import opened Wrappers
  import opened Strings

  const PackageReferenceOpen: string := "<PackageReference"
  const IncludeOpen: string := "Include=\""
  const VersionOpen: string := "Version=\""
  const PropertyGroupOpen: string := "<PropertyGroup>"
  /** What the replacement template puts between `<PropertyGroup>` and the new element. */
  const LineBreak: string := "\n    "

  // ---------------------------------------------------------------------------
  // Character runs, as the greedy classes `\s*` and `[^c]*` consume them
  // ---------------------------------------------------------------------------

  /** End of the run of white-space characters (`\s`) starting at `i`. */
  function SkipSpace(s: string, i: nat): (r: nat)
    requires i <= |s|
    decreases |s| - i
    ensures i <= r <= |s|
    ensures forall k :: i <= k < r ==> IsSpace(s[k])
    ensures r == |s| || !IsSpace(s[r])
  {
    if i < |s| && IsSpace(s[i]) then SkipSpace(s, i + 1) else i
  }

  /** End of the run of characters other than `c` starting at `i` (`[^c]*`). */
  function SkipUntil(s: string, i: nat, c: char): (r: nat)
    requires i <= |s|
    decreases |s| - i
    ensures i <= r <= |s|
    ensures forall k :: i <= k < r ==> s[k] != c
    ensures r == |s| || s[r] == c
  {
    if i < |s| && s[i] != c then SkipUntil(s, i + 1, c) else i
  }

  // ---------------------------------------------------------------------------
  // The shapes of text the two expressions describe
  // ---------------------------------------------------------------------------

  /** A non-empty run of white space (`\s+`). */
  predicate Spaces(t: string) {
    |t| > 0 && forall k :: 0 <= k < |t| ==> IsSpace(t[k])
  }

  /** A non-empty text without a double quote (`[^"]+`). */
  predicate Unquoted(t: string) {
    |t| > 0 && forall k :: 0 <= k < |t| ==> t[k] != '"'
  }

  /** `key="value"` with a non-empty, quote-free value. */
  predicate Attribute(t: string, key: string) {
    |t| >= |key| + 4 && t[..|key| + 2] == key + "=\"" && t[|t| - 1] == '"'
    && Unquoted(t[|key| + 2..|t| - 1])
  }

  /** White space followed by `key="value"`. */
  predicate SpacedAttribute(t: string, key: string) {
    exists k :: 0 < k < |t| && Spaces(t[..k]) && Attribute(t[k..], key)
  }

  /** `<PackageReference`, white space, `Include="name"`: what the first group matches. */
  predicate IncludeTagStart(t: string) {
    |t| > |PackageReferenceOpen| && t[..|PackageReferenceOpen|] == PackageReferenceOpen
    && SpacedAttribute(t[|PackageReferenceOpen|..], "Include")
  }

  /** White space, then at most one `/`: what the third group matches. */
  predicate SpacesThenSlash(t: string) {
    forall k :: 0 <= k < |t| ==> IsSpace(t[k]) || (k == |t| - 1 && t[k] == '/')
  }

  /**
   * A whole `PackageReference` tag for `name`, with the white space after it: the tag opens
   * at `i`, white space runs up to `b`, `Include="name"` follows, then text without `>` up
   * to the `>` at `d`, then white space up to `e`.
   */
  predicate TagAt(s: string, i: nat, b: nat, d: nat, e: nat, name: string) {
    var head := IncludeOpen + name + "\"";
    OccursAt(s, PackageReferenceOpen, i) && i + |PackageReferenceOpen| < b
    && b + |head| <= d < e <= |s| && Spaces(s[i + |PackageReferenceOpen|..b]) && OccursAt(s, head, b)
    && s[d] == '>' && (forall x :: b + |head| <= x < d ==> s[x] != '>')
    && (forall x :: d < x < e ==> IsSpace(s[x]))
  }

  // ---------------------------------------------------------------------------
  // Matchers
  // ---------------------------------------------------------------------------

  /**
   * A match spanning `[start, end)`; the substitution deletes `[cut, cutEnd)` and writes
   * back the rest of the matched text.
   */
  datatype Match = Match(start: nat, cut: nat, cutEnd: nat, end: nat)

  /** End of `\s+key="value"` (value non-empty and quote-free) starting at `j`, if it is there. */
  function AttributeEnd(s: string, j: nat, key: string): (r: Option<nat>)
    requires j <= |s|
    ensures r.Some? ==> j < r.value <= |s|
  {
    var b := SkipSpace(s, j);
    if b == j || !OccursAt(s, key + "=\"", b) then None
    else
      var c := b + |key| + 2;
      var d := SkipUntil(s, c, '"');
      if d == c || d == |s| then None else Some(d + 1)
  }

  /** End of the white space and optional slash starting at `j`. */
  function SlashEnd(s: string, j: nat): (r: nat)
    requires j <= |s|
    ensures j <= r <= |s|
  {
    var h := SkipSpace(s, j);
    if h < |s| && s[h] == '/' then h + 1 else h
  }

  /**
   * The version-attribute expression tried at position `i`: `<PackageReference` and an
   * `Include` attribute (kept), a `Version` attribute (cut), white space and `/` (kept).
   */
  function VersionMatchAt(s: string, i: nat): (r: Option<Match>)
    requires i <= |s|
    ensures r.Some? ==> r.value.start == i && i < r.value.cut < r.value.cutEnd <= r.value.end <= |s|
  {
    if !OccursAt(s, PackageReferenceOpen, i) then None
    else
      match AttributeEnd(s, i + |PackageReferenceOpen|, "Include")
      case None => None
      case Some(cut) =>
        match AttributeEnd(s, cut, "Version")
        case None => None
        case Some(cutEnd) => Some(Match(i, cut, cutEnd, SlashEnd(s, cutEnd)))
  }

  /** End of `[^>]*>\s*` starting at `j`, if there is a `>`. */
  function TagEnd(s: string, j: nat): (r: Option<nat>)
    requires j <= |s|
    ensures r.Some? ==> j < r.value <= |s|
  {
    var d := SkipUntil(s, j, '>');
    if d == |s| then None else Some(SkipSpace(s, d + 1))
  }

  /**
   * The tag expression for package `name` (escaped, so taken literally) tried at
   * position `i`; the whole match is cut.
   */
  function ReferenceMatchAt(s: string, i: nat, name: string): (r: Option<Match>)
    requires i <= |s|
    ensures r.Some? ==> r.value.start == r.value.cut == i && i < r.value.cutEnd == r.value.end <= |s|
  {
    if !OccursAt(s, PackageReferenceOpen, i) then None
    else
      var a := i + |PackageReferenceOpen|;
      var b := SkipSpace(s, a);
      var head := IncludeOpen + name + "\"";
      if b == a || !OccursAt(s, head, b) then None
      else
        match TagEnd(s, b + |head|)
        case None => None
        case Some(e) => Some(Match(i, i, e, e))
  }

  /** The two substitution patterns the updater uses. */
  datatype Pattern =
    | VersionAttribute                   // a `Version` attribute right after `Include` in a `PackageReference`
    | PackageReferenceTag(name: string)  // a whole `PackageReference` tag for one package

  function MatchAt(p: Pattern, s: string, i: nat): (r: Option<Match>)
    requires i <= |s|
    ensures r.Some? ==> r.value.start == i && i <= r.value.cut < r.value.cutEnd <= r.value.end <= |s|
  {
    match p
    case VersionAttribute => VersionMatchAt(s, i)
    case PackageReferenceTag(name) => ReferenceMatchAt(s, i, name)
  }

  // ---------------------------------------------------------------------------
  // re.findall and re.sub, for any matcher
  // ---------------------------------------------------------------------------

  /** A matcher: the match of one expression at a position, if any. */
  type Matcher = (string, nat) -> Option<Match>

  /** A match found at `i` starts there, cuts a non-empty part and stays inside the text. */
  predicate Fits(r: Option<Match>, i: nat, n: nat) {
    r.Some? ==> r.value.start == i && i <= r.value.cut < r.value.cutEnd <= r.value.end <= n
  }

  ghost predicate WellFormed(f: Matcher) {
    forall s: string, i: nat :: i <= |s| ==> Fits(f(s, i), i, |s|)
  }

  /** The matcher of a pattern. */
  function MatcherOf(p: Pattern): (f: Matcher)
    ensures WellFormed(f)
    ensures forall s: string, i: nat :: i <= |s| ==> f(s, i) == MatchAt(p, s, i)
  {
    (s: string, i: nat) => if i <= |s| then MatchAt(p, s, i) else None
  }

  /** Matches in increasing order, none overlapping, all inside `[lo, hi)`. */
  predicate Ordered(ms: seq<Match>, lo: nat, hi: nat)
    decreases |ms|
  {
    ms == [] || (lo <= ms[0].start <= ms[0].cut < ms[0].cutEnd <= ms[0].end <= hi && Ordered(ms[1..], ms[0].end, hi))
  }

  /** The matches `re.findall` finds from position `i` on. */
  function MatchesFrom(f: Matcher, s: string, i: nat): (ms: seq<Match>)
    requires WellFormed(f) && i <= |s|
    decreases |s| - i
    ensures Ordered(ms, i, |s|)
  {
    if i == |s| then []
    else
      assert Fits(f(s, i), i, |s|);
      match f(s, i)
      case Some(m) =>
        var rest := MatchesFrom(f, s, m.end);
        assert ([m] + rest)[1..] == rest;
        [m] + rest
      case None => MatchesFrom(f, s, i + 1)
  }

  /** The text `re.sub` produces from position `i` on: each match keeps all but its cut. */
  function SubFrom(f: Matcher, s: string, i: nat): string
    requires WellFormed(f) && i <= |s|
    decreases |s| - i
  {
    if i == |s| then []
    else
      assert Fits(f(s, i), i, |s|);
      match f(s, i)
      case Some(m) => s[i..m.cut] + s[m.cutEnd..m.end] + SubFrom(f, s, m.end)
      case None => [s[i]] + SubFrom(f, s, i + 1)
  }

  /** `s` from `i` on with the cut `[cut, cutEnd)` of every match in `ms` deleted. */
  function Splice(s: string, i: nat, ms: seq<Match>): string
    requires i <= |s| && Ordered(ms, i, |s|)
    decreases |ms|
  {
    if ms == [] then s[i..]
    else
      OrderedFrom(ms[1..], ms[0].end, ms[0].cutEnd, |s|);
      s[i..ms[0].cut] + Splice(s, ms[0].cutEnd, ms[1..])
  }

  /** Matches ordered from `lo` on are ordered from any earlier position. */
  lemma OrderedFrom(ms: seq<Match>, lo: nat, earlier: nat, hi: nat)
    requires earlier <= lo && Ordered(ms, lo, hi)
    ensures Ordered(ms, earlier, hi)
  {
  }

  lemma {:induction false} SpliceSkip(s: string, j: nat, k: nat, ms: seq<Match>)
    requires j <= k <= |s| && Ordered(ms, k, |s|)
    ensures Splice(s, j, ms) == s[j..k] + Splice(s, k, ms)
  {
    if ms == [] {
      assert s[j..] == s[j..k] + s[k..];
    } else {
      var m := ms[0];
      SpliceFirst(s, k, m, ms[1..]);
      assert ms == [m] + ms[1..];
      var tail := Splice(s, m.cutEnd, ms[1..]);
      assert Splice(s, j, ms) == s[j..m.cut] + tail;
      assert s[j..m.cut] == s[j..k] + s[k..m.cut];
    }
  }

  /** One step of the scan at a position where the expression matches. */
  lemma ScanMatch(f: Matcher, s: string, i: nat, m: Match)
    requires WellFormed(f) && i < |s| && f(s, i) == Some(m)
    ensures i <= m.cut < m.cutEnd <= m.end <= |s|
    ensures SubFrom(f, s, i) == s[i..m.cut] + s[m.cutEnd..m.end] + SubFrom(f, s, m.end)
    ensures MatchesFrom(f, s, i) == [m] + MatchesFrom(f, s, m.end)
  {
    assert Fits(f(s, i), i, |s|);
  }

  /** One step of the scan at a position where the expression does not match. */
  lemma ScanMiss(f: Matcher, s: string, i: nat)
    requires WellFormed(f) && i < |s| && f(s, i).None?
    ensures SubFrom(f, s, i) == [s[i]] + SubFrom(f, s, i + 1)
    ensures MatchesFrom(f, s, i) == MatchesFrom(f, s, i + 1)
  {
  }

  lemma SpliceFirst(s: string, i: nat, m: Match, rest: seq<Match>)
    requires i <= |s| && Ordered([m] + rest, i, |s|)
    ensures Ordered(rest, m.cutEnd, |s|)
    ensures Splice(s, i, [m] + rest) == s[i..m.cut] + Splice(s, m.cutEnd, rest)
  {
    assert ([m] + rest)[1..] == rest;
  }

  /** `re.sub` deletes exactly the cuts of the matches `re.findall` reports, and nothing else. */
  lemma {:induction false} SubIsSplice(f: Matcher, s: string, i: nat)
    requires WellFormed(f) && i <= |s|
    decreases |s| - i
    ensures SubFrom(f, s, i) == Splice(s, i, MatchesFrom(f, s, i))
  {
    if i < |s| {
      var r := f(s, i);
      if r.Some? {
        ScanMatch(f, s, i, r.value);
        SubIsSplice(f, s, r.value.end);
        SpliceAfterMatch(f, s, i, r.value);
      } else {
        ScanMiss(f, s, i);
        SubIsSplice(f, s, i + 1);
        SpliceAfterMiss(f, s, i);
      }
    }
  }

  lemma SpliceAfterMatch(f: Matcher, s: string, i: nat, m: Match)
    requires WellFormed(f) && i < |s| && f(s, i) == Some(m) && i <= m.cut < m.cutEnd <= m.end <= |s|
    requires SubFrom(f, s, i) == s[i..m.cut] + s[m.cutEnd..m.end] + SubFrom(f, s, m.end)
    requires MatchesFrom(f, s, i) == [m] + MatchesFrom(f, s, m.end)
    requires SubFrom(f, s, m.end) == Splice(s, m.end, MatchesFrom(f, s, m.end))
    ensures SubFrom(f, s, i) == Splice(s, i, MatchesFrom(f, s, i))
  {
    var rest := MatchesFrom(f, s, m.end);
    SpliceFirst(s, i, m, rest);
    SpliceSkip(s, m.cutEnd, m.end, rest);
    assert s[i..m.cut] + s[m.cutEnd..m.end] + Splice(s, m.end, rest)
      == s[i..m.cut] + (s[m.cutEnd..m.end] + Splice(s, m.end, rest));
  }

  lemma SpliceAfterMiss(f: Matcher, s: string, i: nat)
    requires WellFormed(f) && i < |s|
    requires SubFrom(f, s, i) == [s[i]] + SubFrom(f, s, i + 1)
    requires MatchesFrom(f, s, i) == MatchesFrom(f, s, i + 1)
    requires SubFrom(f, s, i + 1) == Splice(s, i + 1, MatchesFrom(f, s, i + 1))
    ensures SubFrom(f, s, i) == Splice(s, i, MatchesFrom(f, s, i))
  {
    SpliceSkip(s, i, i + 1, MatchesFrom(f, s, i + 1));
    assert s[i..i + 1] == [s[i]];
  }

  /** Every match deletes at least one character. */
  lemma {:induction false} SpliceShrinks(s: string, i: nat, ms: seq<Match>)
    requires i <= |s| && Ordered(ms, i, |s|)
    decreases |ms|
    ensures |Splice(s, i, ms)| + |ms| <= |s| - i
  {
    if ms != [] {
      SpliceShrinks(s, ms[0].cutEnd, ms[1..]);
    }
  }

  /**
   * A substitution changes the text exactly when the expression matches somewhere: the
   * updater's "content changed" test and its "matches found" count agree.
   */
  lemma SubChangesIff(f: Matcher, s: string)
    requires WellFormed(f)
    ensures SubFrom(f, s, 0) != s <==> |MatchesFrom(f, s, 0)| > 0
  {
    SubIsSplice(f, s, 0);
    SpliceShrinks(s, 0, MatchesFrom(f, s, 0));
    if |MatchesFrom(f, s, 0)| == 0 {
      assert SubFrom(f, s, 0) == s[0..] == s;
    }
  }

  /** Substitution of a pattern over the whole text, and the matches `re.findall` returns. */
  function Sub(p: Pattern, s: string): string {
    SubFrom(MatcherOf(p), s, 0)
  }

  function Matches(p: Pattern, s: string): seq<Match> {
    MatchesFrom(MatcherOf(p), s, 0)
  }

  // ---------------------------------------------------------------------------
  // What each matcher recognises
  // ---------------------------------------------------------------------------

  /** `s[x..]` begins with `u`, and after `u` comes `y`. */
  lemma SplitAt(s: string, x: nat, u: string, y: string)
    requires x <= |s| && s[x..] == u + y
    ensures x + |u| <= |s| && s[x..x + |u|] == u && s[x + |u|..] == y
  {
    assert s[x..][..|u|] == u;
    assert s[x..][|u|..] == y;
  }

  lemma AttributeEndSound(s: string, j: nat, key: string)
    requires j <= |s| && AttributeEnd(s, j, key).Some?
    ensures SpacedAttribute(s[j..AttributeEnd(s, j, key).value], key)
  {
    var e := AttributeEnd(s, j, key).value;
    var b := SkipSpace(s, j);
    var c := b + |key| + 2;
    var d := SkipUntil(s, c, '"');
    assert e == d + 1;
    var t := s[j..e];
    assert t[..b - j] == s[j..b];
    assert t[b - j..] == s[b..e];
    assert s[b..e][..|key| + 2] == s[b..c];
    assert s[b..e][|key| + 2..e - b - 1] == s[c..d];
    assert Attribute(t[b - j..], key);
  }

  /** A run of white space from `j` to `b` followed by a non-space is what `SkipSpace` consumes. */
  lemma SkipSpaceStops(s: string, j: nat, b: nat, run: string)
    requires j <= b <= |s| && (b == |s| || !IsSpace(s[b]))
    requires s[j..b] == run && forall x :: 0 <= x < |run| ==> IsSpace(run[x])
    ensures SkipSpace(s, j) == b
  {
    assert forall x :: j <= x < b ==> IsSpace(s[x]) by {
      forall x | j <= x < b ensures IsSpace(s[x]) { assert s[x] == run[x - j]; }
    }
  }

  /** A run without `c` from `j` to `d`, then a `c`, is what `SkipUntil` consumes. */
  lemma SkipUntilStops(s: string, j: nat, d: nat, c: char, run: string)
    requires j <= d < |s| && s[d] == c
    requires s[j..d] == run && forall x :: 0 <= x < |run| ==> run[x] != c
    ensures SkipUntil(s, j, c) == d
  {
    assert forall x :: j <= x < d ==> s[x] != c by {
      forall x | j <= x < d ensures s[x] != c { assert s[x] == run[x - j]; }
    }
  }

  /**
   * Conversely, white space on `[j, b)` followed by `key="value"` on `[b, e)` is recognised,
   * up to the closing quote (for a key that does not begin with white space).
   */
  lemma AttributeEndComplete(s: string, j: nat, b: nat, e: nat, key: string)
    requires j < b < e <= |s| && Spaces(s[j..b]) && Attribute(s[b..e], key)
    requires |key| > 0 && !IsSpace(key[0])
    ensures AttributeEnd(s, j, key) == Some(e)
  {
    var c := b + |key| + 2;
    var t := s[b..e];
    assert s[b..c] == t[..|key| + 2];
    var v := t[|key| + 2..|t| - 1];
    assert forall x :: 0 <= x < |v| ==> v[x] == s[c + x];
    assert v == s[c..e - 1];
    assert s[b] == s[b..c][0] == key[0];
    SkipSpaceStops(s, j, b, s[j..b]);
    assert OccursAt(s, key + "=\"", b);
    SkipUntilStops(s, c, e - 1, '"', v);
  }

  /** A run of white space with at most one `/` after it. */
  lemma SlashEndSound(s: string, j: nat)
    requires j <= |s|
    ensures SpacesThenSlash(s[j..SlashEnd(s, j)])
  {
  }

  /**
   * A version match keeps `<PackageReference`, white space and `Include="…"` in front,
   * deletes white space followed by `Version="…"`, and keeps the white space and optional
   * `/` after it.
   */
  lemma VersionMatchSound(s: string, i: nat)
    requires i <= |s| && VersionMatchAt(s, i).Some?
    ensures var m := VersionMatchAt(s, i).value;
      IncludeTagStart(s[i..m.cut]) && SpacedAttribute(s[m.cut..m.cutEnd], "Version")
      && SpacesThenSlash(s[m.cutEnd..m.end])
  {
    var m := VersionMatchAt(s, i).value;
    var a := i + |PackageReferenceOpen|;
    AttributeEndSound(s, a, "Include");
    AttributeEndSound(s, m.cut, "Version");
    SlashEndSound(s, m.cutEnd);
    assert s[i..m.cut][..|PackageReferenceOpen|] == s[i..a];
    assert s[i..m.cut][|PackageReferenceOpen|..] == s[a..m.cut];
  }

  /**
   * Conversely, wherever `<PackageReference`, white space and an `Include` attribute are
   * directly followed by white space and a `Version` attribute, the expression matches and
   * cuts exactly that `Version` attribute with the white space before it.
   */
  lemma VersionMatchAtComplete(s: string, i: nat, b1: nat, cut: nat, b2: nat, cutEnd: nat)
    requires OccursAt(s, PackageReferenceOpen, i)
    requires i + |PackageReferenceOpen| < b1 < cut < b2 < cutEnd <= |s|
    requires Spaces(s[i + |PackageReferenceOpen|..b1]) && Attribute(s[b1..cut], "Include")
    requires Spaces(s[cut..b2]) && Attribute(s[b2..cutEnd], "Version")
    ensures VersionMatchAt(s, i).Some?
    ensures VersionMatchAt(s, i).value.cut == cut && VersionMatchAt(s, i).value.cutEnd == cutEnd
  {
    AttributeEndComplete(s, i + |PackageReferenceOpen|, b1, cut, "Include");
    AttributeEndComplete(s, cut, b2, cutEnd, "Version");
  }

  /** A tag match deletes a whole `PackageReference` tag for exactly this name. */
  lemma ReferenceMatchSound(s: string, i: nat, name: string)
    requires i <= |s| && ReferenceMatchAt(s, i, name).Some?
    ensures exists b, d :: TagAt(s, i, b, d, ReferenceMatchAt(s, i, name).value.end, name)
  {
    var a := i + |PackageReferenceOpen|;
    var b := SkipSpace(s, a);
    var d := SkipUntil(s, b + |IncludeOpen + name + "\""|, '>');
    assert forall x :: 0 <= x < b - a ==> s[a..b][x] == s[a + x];
    assert TagAt(s, i, b, d, ReferenceMatchAt(s, i, name).value.end, name);
  }

  /**
   * Conversely, a whole `PackageReference` tag for `name` is matched and cut in full, up
   * to where the white space after it ends.
   */
  lemma ReferenceMatchAtComplete(s: string, i: nat, b: nat, d: nat, e: nat, name: string)
    requires TagAt(s, i, b, d, e, name) && (e == |s| || !IsSpace(s[e]))
    ensures ReferenceMatchAt(s, i, name) == Some(Match(i, i, e, e))
  {
    var a := i + |PackageReferenceOpen|;
    var head := IncludeOpen + name + "\"";
    IncludeHeadNotSpace(s, b, head);
    SkipSpaceStops(s, a, b, s[a..b]);
    TagEndAt(s, b + |head|, d, e);
  }

  lemma IncludeHeadNotSpace(s: string, b: nat, head: string)
    requires OccursAt(s, head, b) && |head| > 0 && head[0] == 'I'
    ensures b < |s| && !IsSpace(s[b])
  {
    assert s[b] == s[b..b + |head|][0];
  }

  /** A run without `>` up to `d`, then white space up to `e`, is where the tag ends. */
  lemma TagEndAt(s: string, j: nat, d: nat, e: nat)
    requires j <= d < e <= |s| && s[d] == '>' && (forall x :: j <= x < d ==> s[x] != '>')
    requires (forall x :: d < x < e ==> IsSpace(s[x])) && (e == |s| || !IsSpace(s[e]))
    ensures TagEnd(s, j) == Some(e)
  {
    assert SkipUntil(s, j, '>') == d;
    assert SkipSpace(s, d + 1) == e;
  }

  /** The `Include="…"` heads of two different quote-free names differ at a position both have. */
  lemma IncludeHeadsDiffer(name: string, other: string) returns (j: nat)
    requires Unquoted(name) && Unquoted(other) && name != other
    ensures j < |IncludeOpen + name + "\""| && j < |IncludeOpen + other + "\""|
    ensures (IncludeOpen + name + "\"")[j] != (IncludeOpen + other + "\"")[j]
  {
    var head := IncludeOpen + name + "\"";
    var found := IncludeOpen + other + "\"";
    if |name| < |other| {
      j := |IncludeOpen| + |name|;
      assert head[j] == '"' && found[j] == other[|name|];
    } else if |name| > |other| {
      j := |IncludeOpen| + |other|;
      assert found[j] == '"' && head[j] == name[|other|];
    } else {
      var q :| 0 <= q < |name| && name[q] != other[q];
      j := |IncludeOpen| + q;
      assert head[j] == name[q] && found[j] == other[q];
    }
  }

  /** Two texts that differ at position `j` do not both occur at the same place. */
  lemma NotBothAt(s: string, t: string, u: string, b: nat, j: nat)
    requires j < |t| && j < |u| && t[j] != u[j] && OccursAt(s, u, b)
    ensures !OccursAt(s, t, b)
  {
    assert s[b + j] == s[b..b + |u|][j] == u[j];
  }

  /**
   * A `PackageReference` tag whose `Include` names any other quote-free package is not
   * matched: only the requested package's tags are removed.
   */
  lemma OtherPackagesUntouched(s: string, i: nat, b: nat, name: string, other: string)
    requires i + |PackageReferenceOpen| <= b <= |s|
    requires OccursAt(s, PackageReferenceOpen, i) && Spaces(s[i + |PackageReferenceOpen|..b])
    requires OccursAt(s, IncludeOpen + other + "\"", b)
    requires Unquoted(name) && Unquoted(other) && name != other
    ensures ReferenceMatchAt(s, i, name).None?
  {
    var a := i + |PackageReferenceOpen|;
    var c := b + |IncludeOpen|;
    var found := IncludeOpen + other + "\"";
    assert s[b] == found[0] == 'I';
    assert forall k :: a <= k < b ==> IsSpace(s[k]) by {
      forall k | a <= k < b ensures IsSpace(s[k]) { assert s[k] == s[a..b][k - a]; }
    }
    assert SkipSpace(s, a) == b;
    var j := IncludeHeadsDiffer(name, other);
    NotBothAt(s, IncludeOpen + name + "\"", found, b, j);
  }

  // ---------------------------------------------------------------------------
  // What the scan removes
  // ---------------------------------------------------------------------------

  /** No match that starts before `j` reaches past it. */
  predicate Uncovered(ms: seq<Match>, j: nat) {
    forall m :: m in ms && m.start < j ==> m.end <= j
  }

  /**
   * The scan reaches every position that none of its own earlier matches covers, so where
   * the expression matches at such a position, that match is one of the scan's.
   */
  lemma {:induction false} ScanReaches(f: Matcher, s: string, i: nat, j: nat)
    requires WellFormed(f) && i <= j < |s| && f(s, j).Some?
    requires Uncovered(MatchesFrom(f, s, i), j)
    decreases j - i
    ensures f(s, j).value in MatchesFrom(f, s, i)
  {
    if i == j {
      ScanMatch(f, s, i, f(s, i).value);
    } else {
      assert Fits(f(s, i), i, |s|);
      match f(s, i)
      case Some(m) =>
        ScanMatch(f, s, i, m);
        assert m in MatchesFrom(f, s, i);
        ScanReaches(f, s, m.end, j);
      case None =>
        ScanMiss(f, s, i);
        ScanReaches(f, s, i + 1, j);
    }
  }

  /**
   * Every `<PackageReference Include="…" Version="…"` that no earlier match overlaps is
   * one of the matches `re.sub` rewrites, and its cut is exactly the `Version` attribute
   * with the white space before it.
   */
  lemma VersionMatchComplete(s: string, i: nat, b1: nat, cut: nat, b2: nat, cutEnd: nat)
    requires OccursAt(s, PackageReferenceOpen, i)
    requires i + |PackageReferenceOpen| < b1 < cut < b2 < cutEnd <= |s|
    requires Spaces(s[i + |PackageReferenceOpen|..b1]) && Attribute(s[b1..cut], "Include")
    requires Spaces(s[cut..b2]) && Attribute(s[b2..cutEnd], "Version")
    requires Uncovered(Matches(VersionAttribute, s), i)
    ensures Match(i, cut, cutEnd, SlashEnd(s, cutEnd)) in Matches(VersionAttribute, s)
  {
    VersionMatchAtComplete(s, i, b1, cut, b2, cutEnd);
    var f := MatcherOf(VersionAttribute);
    assert f(s, i) == VersionMatchAt(s, i);
    ScanReaches(f, s, 0, i);
  }

  /** A file with a `Version` attribute right after an `Include` is changed, and the count is positive. */
  lemma VersionPresentChanges(s: string, i: nat, b1: nat, cut: nat, b2: nat, cutEnd: nat)
    requires OccursAt(s, PackageReferenceOpen, i)
    requires i + |PackageReferenceOpen| < b1 < cut < b2 < cutEnd <= |s|
    requires Spaces(s[i + |PackageReferenceOpen|..b1]) && Attribute(s[b1..cut], "Include")
    requires Spaces(s[cut..b2]) && Attribute(s[b2..cutEnd], "Version")
    ensures CountVersionAttributes(s) > 0 && RemovePackageVersions(s) != s
  {
    if Uncovered(Matches(VersionAttribute, s), i) {
      VersionMatchComplete(s, i, b1, cut, b2, cutEnd);
    }
    RemovePackageVersionsChangesIff(s);
  }

  /**
   * Every `PackageReference` tag for `name` that no earlier match overlaps is removed by
   * `re.sub`, with the white space after it.
   */
  lemma ReferenceMatchComplete(s: string, i: nat, b: nat, d: nat, e: nat, name: string)
    requires TagAt(s, i, b, d, e, name) && (e == |s| || !IsSpace(s[e]))
    requires Uncovered(Matches(PackageReferenceTag(name), s), i)
    ensures Match(i, i, e, e) in Matches(PackageReferenceTag(name), s)
  {
    ReferenceMatchAtComplete(s, i, b, d, e, name);
    var f := MatcherOf(PackageReferenceTag(name));
    assert f(s, i) == ReferenceMatchAt(s, i, name);
    ScanReaches(f, s, 0, i);
  }

  /** A file with a `PackageReference` tag for `name` is changed by removing that package. */
  lemma TagPresentChanges(s: string, i: nat, b: nat, d: nat, e: nat, name: string)
    requires TagAt(s, i, b, d, e, name) && (e == |s| || !IsSpace(s[e]))
    ensures RemovePackageReference(s, name) != s
  {
    if Uncovered(Matches(PackageReferenceTag(name), s), i) {
      ReferenceMatchComplete(s, i, b, d, e, name);
    }
    RemovePackageReferenceChangesIff(s, name);
  }

  // ---------------------------------------------------------------------------
  // Replacement templates
  // ---------------------------------------------------------------------------

  predicate IsAsciiDigit(c: char) {
    '0' <= c <= '9'
  }

  predicate IsOctalDigit(c: char) {
    '0' <= c <= '7'
  }

  predicate IsAsciiLetter(c: char) {
    'a' <= c <= 'z' || 'A' <= c <= 'Z'
  }

  function Digit(c: char): (d: nat)
    requires IsAsciiDigit(c)
    ensures d <= 9
  {
    (c as int) - ('0' as int)
  }

  /** The value of a run of decimal digits. */
  function DecimalValue(ds: string): nat
    requires forall k :: 0 <= k < |ds| ==> IsAsciiDigit(ds[k])
  {
    if ds == [] then 0 else DecimalValue(ds[..|ds| - 1]) * 10 + Digit(ds[|ds| - 1])
  }

  /** End of the run of ASCII digits starting at `i`. */
  function DigitsEnd(t: string, i: nat): (r: nat)
    requires i <= |t|
    decreases |t| - i
    ensures i <= r <= |t| && (forall k :: i <= k < r ==> IsAsciiDigit(t[k]))
  {
    if i < |t| && IsAsciiDigit(t[i]) then DigitsEnd(t, i + 1) else i
  }

  /** The character a one-letter escape `\a`, `\b`, `\f`, `\n`, `\r`, `\t`, `\v` or `\\` stands for. */
  function EscapeOf(c: char): Option<char> {
    match c
    case 'a' => Some(7 as char)
    case 'b' => Some(8 as char)
    case 'f' => Some(12 as char)
    case 'n' => Some('\n')
    case 'r' => Some('\r')
    case 't' => Some('\t')
    case 'v' => Some(11 as char)
    case '\\' => Some('\\')
    case _ => None
  }

  /** An expansion with `p` in front; a failed expansion stays failed. */
  function Prepend(p: string, r: Option<string>): Option<string> {
    match r
    case None => None
    case Some(t) => Some(p + t)
  }

  /**
   * The text `re.sub` writes for a match, given the replacement template `t`, for a
   * pattern with exactly one group whose text, like the whole match's, is `group`.
   * Backslashes are read as Python's template parser reads them: `\1`, `\g<0>` and
   * `\g<1>` insert the group; other group numbers and names are errors; `\0` and
   * three-digit numbers are octal character codes; the one-letter escapes stand for
   * their characters; any other ASCII letter after a backslash is a "bad escape"
   * error; a backslash before anything else is kept with it. `None` is the exception
   * the parser raises.
   */
  function Expand(t: string, group: string): (r: Option<string>)
    decreases |t|
  {
    if t == [] then Some([])
    else if t[0] != '\\' then Prepend([t[0]], Expand(t[1..], group))
    else if |t| == 1 then None
    else
      var c := t[1];
      if c == 'g' then
        if |t| == 2 || t[2] != '<' then None
        else
          var k := DigitsEnd(t, 3);
          if k == 3 || k == |t| || t[k] != '>' || DecimalValue(t[3..k]) > 1 then None
          else Prepend(group, Expand(t[k + 1..], group))
      else if c == '0' then
        if |t| > 2 && IsOctalDigit(t[2]) then
          if |t| > 3 && IsOctalDigit(t[3]) then Prepend([(Digit(t[2]) * 8 + Digit(t[3])) as char], Expand(t[4..], group))
          else Prepend([Digit(t[2]) as char], Expand(t[3..], group))
        else Prepend([0 as char], Expand(t[2..], group))
      else if IsAsciiDigit(c) then
        if |t| > 2 && IsAsciiDigit(t[2]) then
          if IsOctalDigit(c) && IsOctalDigit(t[2]) && |t| > 3 && IsOctalDigit(t[3]) then
            var v := Digit(c) * 64 + Digit(t[2]) * 8 + Digit(t[3]);
            if v > 255 then None else Prepend([v as char], Expand(t[4..], group))
          else None
        else if c == '1' then Prepend(group, Expand(t[2..], group))
        else None
      else if EscapeOf(c).Some? then Prepend([EscapeOf(c).value], Expand(t[2..], group))
      else if IsAsciiLetter(c) then None
      else Prepend(t[..2], Expand(t[2..], group))
  }

  /** Text without a backslash expands to itself, whatever follows it. */
  lemma {:induction false} ExpandPlainPrefix(x: string, rest: string, group: string)
    requires '\\' !in x
    ensures Expand(x + rest, group) == Prepend(x, Expand(rest, group))
  {
    if x == [] {
      assert x + rest == rest;
      if Expand(rest, group).Some? {
        assert x + Expand(rest, group).value == Expand(rest, group).value;
      }
    } else {
      assert (x + rest)[0] == x[0];
      assert (x + rest)[1..] == x[1..] + rest;
      ExpandPlainPrefix(x[1..], rest, group);
      if Expand(rest, group).Some? {
        assert [x[0]] + (x[1..] + Expand(rest, group).value) == x + Expand(rest, group).value;
      }
    }
  }

  /** A template with no backslash is taken literally. */
  lemma ExpandPlain(x: string, group: string)
    requires '\\' !in x
    ensures Expand(x, group) == Some(x)
  {
    ExpandPlainPrefix(x, [], group);
    assert x + [] == x;
  }

  /** `\1\n    `: the group, a line break and the indentation the updater's templates begin with. */
  const TemplateHead: string := "\\1\\n    "

  lemma ExpandHead(rest: string, group: string)
    ensures Expand(TemplateHead + rest, group) == Prepend(group + LineBreak, Expand(rest, group))
  {
    var t := TemplateHead + rest;
    assert t[0] == '\\' && t[1] == '1' && t[2] == '\\';
    assert t[2..] == "\\n" + ("    " + rest);
    var u := t[2..];
    assert u[0] == '\\' && u[1] == 'n' && u[2..] == "    " + rest;
    ExpandPlainPrefix("    ", rest, group);
    if Expand(rest, group).Some? {
      var e := Expand(rest, group).value;
      assert group + ("\n" + ("    " + e)) == (group + LineBreak) + e;
    }
  }

  /** Replaces the first literal `<PropertyGroup>` with `e` (a substitution with `count=1`). */
  function ReplaceFirstPropertyGroup(content: string, e: string): string {
    var k := Find(content, PropertyGroupOpen);
    if k < 0 then content else content[..k] + e + content[k + |PropertyGroupOpen|..]
  }

  /**
   * `re.sub(r'(<PropertyGroup>)', template, content, count=1)`: the template is parsed
   * before the search, so a template error is raised whether or not the text matches.
   */
  function SubFirstPropertyGroup(content: string, template: string): Option<string> {
    match Expand(template, PropertyGroupOpen)
    case None => None
    case Some(e) => Some(ReplaceFirstPropertyGroup(content, e))
  }

  /** A template `\1\n    line` with a backslash-free line inserts the line literally. */
  lemma LiteralTemplate(content: string, line: string)
    requires '\\' !in line
    ensures SubFirstPropertyGroup(content, TemplateHead + line) == Some(InsertAfterPropertyGroup(content, line))
  {
    ExpandHead(line, PropertyGroupOpen);
    ExpandPlain(line, PropertyGroupOpen);
    var k := Find(content, PropertyGroupOpen);
    if k >= 0 {
      assert content[..k] + (PropertyGroupOpen + LineBreak + line) + content[k + |PropertyGroupOpen|..]
        == content[..k + |PropertyGroupOpen|] + LineBreak + line + content[k + |PropertyGroupOpen|..];
    }
  }

  // ---------------------------------------------------------------------------
  // The four rewrites
  // ---------------------------------------------------------------------------

  /** Deletes every `Version` attribute that directly follows an `Include` attribute. */
  function RemovePackageVersions(content: string): string {
    Sub(VersionAttribute, content)
  }

  /** The number of version attributes reported as removed. */
  function CountVersionAttributes(content: string): nat {
    |Matches(VersionAttribute, content)|
  }

  /** Deletes every `PackageReference` tag for `name`, with the white space after it. */
  function RemovePackageReference(content: string, name: string): string {
    Sub(PackageReferenceTag(name), content)
  }

  /** Inserts `line` on a new line after the first literal `<PropertyGroup>`, if there is one. */
  function InsertAfterPropertyGroup(content: string, line: string): string {
    var k := Find(content, PropertyGroupOpen);
    if k < 0 then content
    else content[..k + |PropertyGroupOpen|] + LineBreak + line + content[k + |PropertyGroupOpen|..]
  }

  /** `<GenerateAssemblyInfo>false</GenerateAssemblyInfo>` */
  const GenerateAssemblyInfoLine: string := PropertyElement("GenerateAssemblyInfo", "false")

  /**
   * Turns assembly-info generation off in projects that share an assembly-info file. Its
   * template is fixed and inserts the line literally (`GenerateAssemblyInfoTemplate`).
   */
  function AddGenerateAssemblyInfo(content: string): string {
    if !Contains(content, "SharedAssemblyInfo") || Contains(content, "GenerateAssemblyInfo") then content
    else InsertAfterPropertyGroup(content, GenerateAssemblyInfoLine)
  }

  function PropertyElement(name: string, value: string): string {
    "<" + name + ">" + value + "</" + name + ">"
  }

  /** The template `\1\n    <name>value</name>` the property rewrite substitutes with. */
  function PropertyTemplate(name: string, value: string): string {
    TemplateHead + PropertyElement(name, value)
  }

  /**
   * Adds `<name>value</name>` unless `<name>` is already there. Name and value are
   * spliced into a replacement template, so their backslashes are read as escapes;
   * `None` is the error a malformed escape raises, after which the file is left alone.
   */
  function AddProperty(content: string, name: string, value: string): Option<string> {
    if Contains(content, "<" + name + ">") then Some(content)
    else SubFirstPropertyGroup(content, PropertyTemplate(name, value))
  }

  // ---------------------------------------------------------------------------
  // Properties of the rewrites
  // ---------------------------------------------------------------------------

  /** The version rewrite changes a file exactly when it reports a positive count. */
  lemma RemovePackageVersionsChangesIff(content: string)
    ensures RemovePackageVersions(content) != content <==> CountVersionAttributes(content) > 0
  {
    SubChangesIff(MatcherOf(VersionAttribute), content);
  }

  /** The tag rewrite changes a file exactly when some tag for the package is matched. */
  lemma RemovePackageReferenceChangesIff(content: string, name: string)
    ensures RemovePackageReference(content, name) != content <==> |Matches(PackageReferenceTag(name), content)| > 0
  {
    SubChangesIff(MatcherOf(PackageReferenceTag(name)), content);
  }

  /**
   * The new line lands right after the FIRST `<PropertyGroup>`; everything before and
   * after that point is kept.
   */
  lemma InsertsAfterFirstPropertyGroup(content: string, line: string, k: nat)
    requires OccursAt(content, PropertyGroupOpen, k)
    requires forall j :: 0 <= j < k ==> !OccursAt(content, PropertyGroupOpen, j)
    ensures InsertAfterPropertyGroup(content, line)
      == content[..k] + PropertyGroupOpen + LineBreak + line + content[k + |PropertyGroupOpen|..]
  {
    var f := Find(content, PropertyGroupOpen);
    assert f == k;
    assert content[..k + |PropertyGroupOpen|] == content[..k] + PropertyGroupOpen;
  }

  /** Without a literal `<PropertyGroup>` (an attributed one does not count) nothing is inserted. */
  lemma NoPropertyGroupNoChange(content: string, line: string)
    requires forall j :: !OccursAt(content, PropertyGroupOpen, j)
    ensures InsertAfterPropertyGroup(content, line) == content
  {
  }

  lemma InsertionChangesIff(content: string, line: string)
    ensures InsertAfterPropertyGroup(content, line) != content <==> Contains(content, PropertyGroupOpen)
  {
    if Contains(content, PropertyGroupOpen) {
      assert |InsertAfterPropertyGroup(content, line)| > |content|;
    }
  }

  /** The inserted element is in the result. */
  lemma InsertionContains(content: string, line: string)
    requires Contains(content, PropertyGroupOpen)
    ensures Contains(InsertAfterPropertyGroup(content, line), line)
  {
    var k := Find(content, PropertyGroupOpen) + |PropertyGroupOpen|;
    assert InsertAfterPropertyGroup(content, line)
      == (content[..k] + LineBreak) + line + content[k..];
    ContainsInside(content[..k] + LineBreak, line, content[k..]);
  }

  /** A text containing an element `<name>value</name>` contains its opening tag and its name. */
  lemma ContainsElementParts(s: string, name: string, value: string)
    requires Contains(s, PropertyElement(name, value))
    ensures Contains(s, "<" + name + ">") && Contains(s, name)
  {
    var e := PropertyElement(name, value);
    var k := Find(s, e);
    var open := "<" + name + ">";
    assert e[..|open|] == open;
    assert e[1..|name| + 1] == name;
    OccursInside(s, e, k, 0, |open|);
    OccursInside(s, e, k, 1, |name| + 1);
    ContainsIff(s, open);
    ContainsIff(s, name);
  }

  /** The assembly-info rewrite changes the file exactly when its guards let it through and a `<PropertyGroup>` exists. */
  lemma AddGenerateAssemblyInfoChangesIff(content: string)
    ensures AddGenerateAssemblyInfo(content) != content
      <==> Contains(content, "SharedAssemblyInfo") && !Contains(content, "GenerateAssemblyInfo")
           && Contains(content, PropertyGroupOpen)
  {
    InsertionChangesIff(content, GenerateAssemblyInfoLine);
  }

  /** Running the assembly-info rewrite twice is the same as running it once. */
  lemma AddGenerateAssemblyInfoIdempotent(content: string)
    ensures AddGenerateAssemblyInfo(AddGenerateAssemblyInfo(content)) == AddGenerateAssemblyInfo(content)
  {
    var once := AddGenerateAssemblyInfo(content);
    if once != content {
      InsertionChangesIff(content, GenerateAssemblyInfoLine);
      InsertionContains(content, GenerateAssemblyInfoLine);
      ContainsElementParts(once, "GenerateAssemblyInfo", "false");
    }
  }

  /** The assembly-info template has no escape beyond `\1\n`, so its line is inserted literally. */
  lemma GenerateAssemblyInfoTemplate(content: string)
    ensures SubFirstPropertyGroup(content, TemplateHead + GenerateAssemblyInfoLine)
      == Some(InsertAfterPropertyGroup(content, GenerateAssemblyInfoLine))
  {
    assert '\\' !in GenerateAssemblyInfoLine;
    LiteralTemplate(content, GenerateAssemblyInfoLine);
  }

  /** With no backslash in the name or the value, the property is inserted literally. */
  lemma AddPropertyLiteral(content: string, name: string, value: string)
    requires '\\' !in name && '\\' !in value
    ensures AddProperty(content, name, value)
      == Some(if Contains(content, "<" + name + ">") then content
              else InsertAfterPropertyGroup(content, PropertyElement(name, value)))
  {
    assert '\\' !in PropertyElement(name, value);
    LiteralTemplate(content, PropertyElement(name, value));
  }

  /**
   * A value with a backslash before an ASCII letter that is no escape (such as
   * `bin\Release`) makes the rewrite fail, unless `<name>` is already there.
   */
  lemma AddPropertyBadEscape(content: string, name: string, a: string, x: char, b: string)
    requires '\\' !in name && '\\' !in a
    requires IsAsciiLetter(x) && x != 'g' && EscapeOf(x).None?
    requires !Contains(content, "<" + name + ">")
    ensures AddProperty(content, name, a + ['\\', x] + b) == None
  {
    var value := a + ['\\', x] + b;
    var plain := "<" + name + ">" + a;
    var tail := ['\\', x] + b + "</" + name + ">";
    assert PropertyElement(name, value) == plain + tail;
    ExpandHead(plain + tail, PropertyGroupOpen);
    ExpandPlainPrefix(plain, tail, PropertyGroupOpen);
    assert tail[0] == '\\' && tail[1] == x;
  }

  /** `OutputPath` set to `bin\Release`: `\R` is a bad escape, so no project gets the property. */
  lemma OutputPathExample(content: string)
    requires !Contains(content, "<OutputPath>")
    ensures AddProperty(content, "OutputPath", "bin\\Release") == None
  {
    assert "bin\\Release" == "bin" + ['\\', 'R'] + "elease";
    assert "<" + "OutputPath" + ">" == "<OutputPath>";
    AddPropertyBadEscape(content, "OutputPath", "bin", 'R', "elease");
  }

  /**
   * The property rewrite changes the file exactly when `<name>` is absent, the template
   * expands and a `<PropertyGroup>` exists.
   */
  lemma AddPropertyChangesIff(content: string, name: string, value: string)
    ensures (AddProperty(content, name, value).Some? && AddProperty(content, name, value).value != content)
      <==> !Contains(content, "<" + name + ">") && Expand(PropertyTemplate(name, value), PropertyGroupOpen).Some?
           && Contains(content, PropertyGroupOpen)
  {
    ExpandHead(PropertyElement(name, value), PropertyGroupOpen);
  }

  /**
   * Running the property rewrite twice is the same as running it once, for a name without
   * a backslash (a backslash in the name is expanded in the inserted tag but not in the
   * `<name>` test, so the test can miss the tag it inserted).
   */
  lemma AddPropertyIdempotent(content: string, name: string, value: string)
    requires '\\' !in name
    ensures AddProperty(content, name, value).Some? ==>
      AddProperty(AddProperty(content, name, value).value, name, value) == AddProperty(content, name, value)
  {
    var open := "<" + name + ">";
    if !Contains(content, open) && AddProperty(content, name, value).Some? {
      var rest := value + "</" + name + ">";
      assert PropertyElement(name, value) == open + rest;
      ExpandHead(open + rest, PropertyGroupOpen);
      ExpandPlainPrefix(open, rest, PropertyGroupOpen);
      var e := Expand(open + rest, PropertyGroupOpen).value;
      var k := Find(content, PropertyGroupOpen);
      if k >= 0 {
        var once := AddProperty(content, name, value).value;
        var tailText := e[|open|..];
        assert e == open + tailText;
        assert once == (content[..k] + PropertyGroupOpen + LineBreak) + open + (tailText + content[k + |PropertyGroupOpen|..]);
        ContainsInside(content[..k] + PropertyGroupOpen + LineBreak, open, tailText + content[k + |PropertyGroupOpen|..]);
      }
    }
  }
}
