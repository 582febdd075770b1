/**
 * The build-log analyzer: the NuGet and MSBuild error codes its pattern table looks for, the
 * per-file counts and affected packages of `analyze_log`, the file selection of
 * `analyze_directory`, and the aggregate of `generate_summary_report`.
 *
 * The regular expressions are not modelled: a `Finder` stands for `re.findall` of each code's
 * pattern, giving a plain string per match for one-group patterns and a tuple otherwise.
 */
module BuildLogAnalysis {
  import opened Wrappers
  import Strings

  datatype Code = NU1103 | NU1605 | NU1202 | NU1010 | NU1008 | NU1506 | MSB4062

  /** The codes in the order of the pattern table, which is the order `analyze_log` searches them. */
  const Codes: seq<Code> := [NU1103, NU1605, NU1202, NU1010, NU1008, NU1506, MSB4062]

  /** The position of a code in the table. */
  function Index(c: Code): (i: nat)
    ensures i < |Codes| && Codes[i] == c
  {
    match c
    case NU1103 => 0
    case NU1605 => 1
    case NU1202 => 2
    case NU1010 => 3
    case NU1008 => 4
    case NU1506 => 5
    case MSB4062 => 6
  }

  /** The table position of the code at position `i` is `i`. */
  lemma IndexOf(i: nat)
    requires i < |Codes|
    ensures Index(Codes[i]) == i
  {
  }

  lemma CodesDistinct()
    ensures Strings.Distinct(Codes)
  {
  }

  function Name(c: Code): string {
    match c
    case NU1103 => "NU1103"
    case NU1605 => "NU1605"
    case NU1202 => "NU1202"
    case NU1010 => "NU1010"
    case NU1008 => "NU1008"
    case NU1506 => "NU1506"
    case MSB4062 => "MSB4062"
  }

  function Description(c: Code): string {
    match c
    case NU1103 => "Unable to find package"
    case NU1605 => "Detected package downgrade"
    case NU1202 => "Package not compatible with framework"
    case NU1010 => "Package reference without version"
    case NU1008 => "Package has known vulnerability"
    case NU1506 => "Duplicate package version"
    case MSB4062 => "Duplicate assembly attributes"
  }

  /** 1 blocks the build, 2 is a build issue, 3 is a warning. */
  function Priority(c: Code): (p: nat)
    ensures 1 <= p <= 3
  {
    match c
    case NU1103 | NU1605 | NU1202 | NU1010 => 1
    case MSB4062 => 2
    case NU1506 | NU1008 => 3
  }

  /** The number of capture groups in the code's pattern. */
  function Captures(c: Code): nat {
    match c
    case NU1103 | NU1008 => 2
    case NU1605 | NU1202 => 3
    case NU1010 | NU1506 | MSB4062 => 1
  }

  /** Codes are told apart by name, and the two tables give every code one description and one priority. */
  lemma TablesFacts()
    ensures forall c, d :: Name(c) == Name(d) ==> c == d
    ensures forall c, d :: Description(c) == Description(d) ==> c == d
    ensures forall c :: Priority(c) == 1 <==> c in {NU1103, NU1605, NU1202, NU1010}
    ensures forall c :: Priority(c) == 3 <==> c in {NU1506, NU1008}
  {
    forall c, d | Name(c) == Name(d)
      ensures c == d
    {
      assert Name(c)[|Name(c)| - 1] == Name(d)[|Name(d)| - 1];
      assert Name(c)[|Name(c)| - 2] == Name(d)[|Name(d)| - 2];
    }
    forall c, d | Description(c) == Description(d)
      ensures c == d
    {
      assert |Description(c)| == |Description(d)|;
      assert Description(c)[0] == Description(d)[0];
      assert Description(c)[|Description(c)| - 1] == Description(d)[|Description(d)| - 1];
    }
  }

  /** One result of `re.findall`: a string for a one-group pattern, a tuple of groups otherwise. */
  datatype Match = Single(text: string) | Tuple(groups: seq<string>)

  /** The shape `re.findall` gives for the code's pattern. */
  predicate Shaped(c: Code, m: Match) {
    if Captures(c) == 1 then m.Single? else m.Tuple? && |m.groups| == Captures(c)
  }

  /** The match names package `p`: it is a non-empty tuple whose first group is `p`. */
  predicate Names(m: Match, p: string) {
    m.Tuple? && |m.groups| > 0 && m.groups[0] == p
  }

  datatype ErrorInfo = ErrorInfo(code: Code, description: string, priority: nat, details: Match)

  /** The `error_info` record of one match. */
  function Info(c: Code, m: Match): ErrorInfo {
    ErrorInfo(c, Description(c), Priority(c), m)
  }

  /** The result of `analyze_log` for one readable file. */
  datatype LogAnalysis = LogAnalysis(
    file: string,
    errors: map<Code, seq<ErrorInfo>>,
    summary: map<Code, nat>,
    packagesAffected: seq<string>,
    totalErrors: nat)

  /** `re.findall(pattern_of(code), content, re.IGNORECASE | re.MULTILINE)`. */
  type Finder = (Code, string) -> seq<Match>

  /*
   * One log
   */

  /** The matches of one code, each tagged with the code. */
  function Tagged(c: Code, matches: seq<Match>): (found: seq<(Code, Match)>)
    ensures |found| == |matches|
    ensures forall k :: 0 <= k < |matches| ==> found[k] == (c, matches[k])
  {
    seq(|matches|, k requires 0 <= k < |matches| => (c, matches[k]))
  }

  /** The matches of the first `n` codes of the table, in search order. */
  function FoundIn(find: Finder, content: string, n: nat): seq<(Code, Match)>
    requires n <= |Codes|
  {
    if n == 0 then [] else FoundIn(find, content, n - 1) + Tagged(Codes[n - 1], find(Codes[n - 1], content))
  }

  /** `results['errors']` after recording the given matches one by one. */
  function ErrorsOf(found: seq<(Code, Match)>): map<Code, seq<ErrorInfo>>
    decreases |found|
  {
    if found == [] then map[]
    else
      var n := |found| - 1;
      var errors := ErrorsOf(found[..n]);
      var c := found[n].0;
      errors[c := (if c in errors then errors[c] else []) + [Info(c, found[n].1)]]
  }

  /** `results['summary']` after recording the given matches one by one. */
  function SummaryOf(found: seq<(Code, Match)>): map<Code, nat>
    decreases |found|
  {
    if found == [] then map[]
    else
      var n := |found| - 1;
      var summary := SummaryOf(found[..n]);
      var c := found[n].0;
      summary[c := (if c in summary then summary[c] else 0) + 1]
  }

  /** `results['packages_affected']` after recording the given matches one by one. */
  function PackagesOf(found: seq<(Code, Match)>): set<string>
    decreases |found|
  {
    if found == [] then {}
    else
      var n := |found| - 1;
      var m := found[n].1;
      PackagesOf(found[..n]) + (if m.Tuple? && |m.groups| > 0 then {m.groups[0]} else {})
  }

  /** The number of matches of code `c`. */
  function Count(found: seq<(Code, Match)>, c: Code): nat
    decreases |found|
  {
    if found == [] then 0
    else
      var n := |found| - 1;
      Count(found[..n], c) + (if found[n].0 == c then 1 else 0)
  }

  /** The sum of a summary's counts over the given codes; a missing code counts 0. */
  function SumOver(summary: map<Code, nat>, codes: seq<Code>): nat
    decreases |codes|
  {
    if codes == [] then 0
    else
      var n := |codes| - 1;
      SumOver(summary, codes[..n]) + (if codes[n] in summary then summary[codes[n]] else 0)
  }

  /** `analyze_log`'s result describes exactly the given matches. */
  ghost predicate Analysed(r: LogAnalysis, file: string, found: seq<(Code, Match)>) {
    r.file == file
    && r.errors == ErrorsOf(found)
    && r.summary == SummaryOf(found)
    && Strings.Lists(r.packagesAffected, PackagesOf(found))
    && r.totalErrors == |found|
  }

  /** A code is in the summary exactly when it matched, with its number of matches. */
  lemma {:induction false} SummaryCounts(found: seq<(Code, Match)>, c: Code)
    decreases |found|
    ensures c in SummaryOf(found) <==> Count(found, c) > 0
    ensures c in SummaryOf(found) ==> SummaryOf(found)[c] == Count(found, c)
  {
    if found != [] {
      SummaryCounts(found[..|found| - 1], c);
    }
  }

  /** `info` is the record of some match of code `c`. */
  ghost predicate Recorded(found: seq<(Code, Match)>, c: Code, info: ErrorInfo) {
    exists k :: 0 <= k < |found| && found[k].0 == c && info == Info(c, found[k].1)
  }

  /** The error lists have the summary's keys, one record per counted match, each carrying its code's description and priority. */
  lemma {:induction false} ErrorsMatchSummary(found: seq<(Code, Match)>)
    decreases |found|
    ensures ErrorsOf(found).Keys == SummaryOf(found).Keys
    ensures forall c :: c in ErrorsOf(found) ==> |ErrorsOf(found)[c]| == SummaryOf(found)[c]
    ensures forall c, k :: c in ErrorsOf(found) && 0 <= k < |ErrorsOf(found)[c]| ==> Recorded(found, c, ErrorsOf(found)[c][k])
  {
    if found != [] {
      var n := |found| - 1;
      ErrorsMatchSummary(found[..n]);
      var before := ErrorsOf(found[..n]);
      var after := ErrorsOf(found);
      var c := found[n].0;
      forall d, k | d in after && 0 <= k < |after[d]|
        ensures Recorded(found, d, after[d][k])
      {
        if d == c && k == |after[d]| - 1 {
          assert found[n].0 == d && after[d][k] == Info(d, found[n].1);
        } else {
          assert after[d][k] == before[d][k];
          var i :| 0 <= i < n && found[..n][i].0 == d && before[d][k] == Info(d, found[..n][i].1);
          assert found[i] == found[..n][i];
        }
      }
    }
  }

  /** How many times `c` is listed in `codes`. */
  function Listed(codes: seq<Code>, c: Code): nat
    decreases |codes|
  {
    if codes == [] then 0
    else
      var n := |codes| - 1;
      Listed(codes[..n], c) + (if codes[n] == c then 1 else 0)
  }

  /** Adding one to a code's count adds to the sum once for each time the code is listed. */
  lemma {:induction false} SumOverBump(summary: map<Code, nat>, codes: seq<Code>, c: Code)
    decreases |codes|
    ensures SumOver(summary[c := (if c in summary then summary[c] else 0) + 1], codes)
         == SumOver(summary, codes) + Listed(codes, c)
  {
    if codes != [] {
      SumOverBump(summary, codes[..|codes| - 1], c);
    }
  }

  /** A list without repeats lists each of its members once. */
  lemma {:induction false} ListedOnce(codes: seq<Code>, c: Code)
    requires Strings.Distinct(codes)
    decreases |codes|
    ensures Listed(codes, c) == if c in codes then 1 else 0
  {
    if codes != [] {
      var n := |codes| - 1;
      var prefix := codes[..n];
      assert codes == prefix + [codes[n]];
      assert Strings.Distinct(prefix) by {
        forall i, j | 0 <= i < j < n
          ensures prefix[i] != prefix[j]
        {
          assert prefix[i] == codes[i] && prefix[j] == codes[j];
        }
      }
      assert codes[n] !in prefix by {
        forall i | 0 <= i < n
          ensures prefix[i] != codes[n]
        {
          assert prefix[i] == codes[i];
        }
      }
      ListedOnce(prefix, c);
    }
  }

  /** Each code appears once in the table. */
  lemma CodesOnce(c: Code)
    ensures Listed(Codes, c) == 1
  {
    CodesDistinct();
    ListedOnce(Codes, c);
    assert Codes[Index(c)] == c;
  }

  /** `total_errors` is the sum of the summary's counts. */
  lemma {:induction false} TotalIsSum(found: seq<(Code, Match)>)
    decreases |found|
    ensures |found| == SumOver(SummaryOf(found), Codes)
  {
    if found != [] {
      var n := |found| - 1;
      var c := found[n].0;
      TotalIsSum(found[..n]);
      SumOverBump(SummaryOf(found[..n]), Codes, c);
      CodesOnce(c);
    } else {
      SumOverEmpty(Codes);
    }
  }

  lemma {:induction false} SumOverEmpty(codes: seq<Code>)
    decreases |codes|
    ensures SumOver(map[], codes) == 0
  {
    if codes != [] {
      SumOverEmpty(codes[..|codes| - 1]);
    }
  }

  /** `packages_affected` holds exactly the packages some match names. */
  lemma {:induction false} PackagesNamed(found: seq<(Code, Match)>, p: string)
    decreases |found|
    ensures p in PackagesOf(found) <==> exists k :: 0 <= k < |found| && Names(found[k].1, p)
  {
    if found != [] {
      var n := |found| - 1;
      PackagesNamed(found[..n], p);
      if p in PackagesOf(found[..n]) {
        var k :| 0 <= k < n && Names(found[..n][k].1, p);
        assert Names(found[k].1, p);
      }
      if exists k :: 0 <= k < |found| && Names(found[k].1, p) {
        var k :| 0 <= k < |found| && Names(found[k].1, p);
        if k < n {
          assert Names(found[..n][k].1, p);
        }
      }
    }
  }

  lemma {:induction false} CountConcat(a: seq<(Code, Match)>, b: seq<(Code, Match)>, c: Code)
    decreases |b|
    ensures Count(a + b, c) == Count(a, c) + Count(b, c)
  {
    if b == [] {
      assert a + b == a;
    } else {
      var n := |b| - 1;
      assert (a + b)[..|a| + n] == a + b[..n];
      CountConcat(a, b[..n], c);
    }
  }

  lemma {:induction false} CountTagged(d: Code, matches: seq<Match>, c: Code)
    decreases |matches|
    ensures Count(Tagged(d, matches), c) == if c == d then |matches| else 0
  {
    if matches != [] {
      var n := |matches| - 1;
      assert Tagged(d, matches)[..n] == Tagged(d, matches[..n]);
      CountTagged(d, matches[..n], c);
    }
  }

  /** Searching the first `n` codes counts each of them once, with all of its matches. */
  lemma {:induction false} FoundCounts(find: Finder, content: string, n: nat, c: Code)
    requires n <= |Codes|
    decreases n
    ensures Count(FoundIn(find, content, n), c) == if Index(c) < n then |find(c, content)| else 0
  {
    if n > 0 {
      var d := Codes[n - 1];
      FoundCounts(find, content, n - 1, c);
      CountConcat(FoundIn(find, content, n - 1), Tagged(d, find(d, content)), c);
      CountTagged(d, find(d, content), c);
      IndexOf(n - 1);
    }
  }

  /** A code's summary entry is its number of pattern matches, and it has one exactly when there is a match. */
  lemma SummaryIsMatchCount(find: Finder, content: string, c: Code)
    ensures var summary := SummaryOf(FoundIn(find, content, |Codes|));
      (c in summary <==> |find(c, content)| > 0) && (c in summary ==> summary[c] == |find(c, content)|)
  {
    FoundCounts(find, content, |Codes|, c);
    SummaryCounts(FoundIn(find, content, |Codes|), c);
  }

  /** A match of a one-group pattern is a plain string, so only the tuple-producing codes contribute packages. */
  lemma OnlyTupleCodesNamePackages(found: seq<(Code, Match)>, p: string)
    requires forall k :: 0 <= k < |found| ==> Shaped(found[k].0, found[k].1)
    requires p in PackagesOf(found)
    ensures exists k :: 0 <= k < |found| && Captures(found[k].0) > 1 && Names(found[k].1, p)
  {
    PackagesNamed(found, p);
    var k :| 0 <= k < |found| && Names(found[k].1, p);
    assert Shaped(found[k].0, found[k].1);
  }

  /** The `results` dictionary while `analyze_log` runs, its package set not yet turned into a list. */
  datatype Tally = Tally(errors: map<Code, seq<ErrorInfo>>, summary: map<Code, nat>, packages: set<string>, total: nat)

  /** The tally after recording the given matches one by one. */
  function TallyOf(found: seq<(Code, Match)>): Tally {
    Tally(ErrorsOf(found), SummaryOf(found), PackagesOf(found), |found|)
  }

  /** One pass of the inner loop of `analyze_log`: append the record, count the match, add the package a tuple names. */
  function Step(tally: Tally, c: Code, m: Match): Tally {
    Tally(
      tally.errors[c := (if c in tally.errors then tally.errors[c] else []) + [Info(c, m)]],
      tally.summary[c := (if c in tally.summary then tally.summary[c] else 0) + 1],
      tally.packages + (if m.Tuple? && |m.groups| > 0 then {m.groups[0]} else {}),
      tally.total + 1)
  }

  lemma Recording(seen: seq<(Code, Match)>, c: Code, m: Match)
    ensures TallyOf(seen + [(c, m)]) == Step(TallyOf(seen), c, m)
  {
    assert (seen + [(c, m)])[..|seen|] == seen;
  }

  /** The inner loop of `analyze_log`: record every match of one code. */
  method RecordMatches(tally: Tally, code: Code, matches: seq<Match>, ghost seen: seq<(Code, Match)>) returns (r: Tally)
    requires tally == TallyOf(seen)
    ensures r == TallyOf(seen + Tagged(code, matches))
  {
    r := tally;
    ghost var now := seen;
    for j := 0 to |matches|
      invariant now == seen + Tagged(code, matches[..j])
      invariant r == TallyOf(now)
    {
      var m := matches[j];
      Recording(now, code, m);
      r := Step(r, code, m);
      assert Tagged(code, matches[..j + 1]) == Tagged(code, matches[..j]) + [(code, m)];
      now := now + [(code, m)];
    }
    assert matches[..|matches|] == matches;
  }

  /** `analyze_log`: `None` when the file cannot be read; otherwise the counts, records and packages of every match. */
  method AnalyzeLog(file: string, content: Option<string>, find: Finder) returns (result: Option<LogAnalysis>)
    ensures content.None? <==> result.None?
    ensures content.Some? ==> Analysed(result.value, file, FoundIn(find, content.value, |Codes|))
  {
    if content.None? {
      return None;
    }
    var text := content.value;
    var tally := Tally(map[], map[], {}, 0);
    for i := 0 to |Codes|
      invariant tally == TallyOf(FoundIn(find, text, i))
    {
      var code := Codes[i];
      tally := RecordMatches(tally, code, find(code, text), FoundIn(find, text, i));
    }
    var affected := Strings.ListOf(tally.packages);
    result := Some(LogAnalysis(file, tally.errors, tally.summary, affected, tally.total));
  }

  /*
   * A directory of logs
   */

  /** `name` ends with `suffix`. */
  predicate EndsWith(name: string, suffix: string) {
    |suffix| <= |name| && name[|name| - |suffix|..] == suffix
  }

  /** `directory.glob('*' + suffix)`: the entries whose name ends with the suffix, in listing order. */
  function WithSuffix(entries: seq<(string, Option<string>)>, suffix: string): (r: seq<(string, Option<string>)>)
    decreases |entries|
    ensures forall e :: e in r <==> e in entries && EndsWith(e.0, suffix)
  {
    if entries == [] then []
    else
      var n := |entries| - 1;
      assert entries == entries[..n] + [entries[n]];
      WithSuffix(entries[..n], suffix) + (if EndsWith(entries[n].0, suffix) then [entries[n]] else [])
  }

  /** The files `analyze_directory` considers: the `.log` files, then the `.txt` files. */
  function LogFiles(entries: seq<(string, Option<string>)>): seq<(string, Option<string>)> {
    WithSuffix(entries, ".log") + WithSuffix(entries, ".txt")
  }

  /** The files whose content could be read, in order. */
  function Readable(files: seq<(string, Option<string>)>): (r: seq<(string, string)>)
    decreases |files|
    ensures forall f :: f in r <==> (f.0, Some(f.1)) in files
  {
    if files == [] then []
    else
      var n := |files| - 1;
      assert files == files[..n] + [files[n]];
      Readable(files[..n]) + (if files[n].1.Some? then [(files[n].0, files[n].1.value)] else [])
  }

  /** A directory entry's name and content, `None` when reading it fails. */
  type Entry = (string, Option<string>)

  /** A file that `analyze_directory` reads: a readable `.log` or `.txt` file of the directory. */
  lemma AnalysedFiles(entries: seq<Entry>, f: (string, string))
    ensures f in Readable(LogFiles(entries)) <==> (f.0, Some(f.1)) in entries && (EndsWith(f.0, ".log") || EndsWith(f.0, ".txt"))
  {
  }

  /** Each result is the analysis of the file at the same position. */
  ghost predicate AllAnalysed(results: seq<LogAnalysis>, files: seq<(string, string)>, find: Finder) {
    |results| == |files|
    && forall k :: 0 <= k < |results| ==> Analysed(results[k], files[k].0, FoundIn(find, files[k].1, |Codes|))
  }

  lemma AnalysedOneMore(results: seq<LogAnalysis>, files: seq<(string, string)>, find: Finder, r: LogAnalysis, f: (string, string))
    requires AllAnalysed(results, files, find) && Analysed(r, f.0, FoundIn(find, f.1, |Codes|))
    ensures AllAnalysed(results + [r], files + [f], find)
  {
  }

  lemma ReadableStep(files: seq<(string, Option<string>)>, i: nat)
    requires i < |files|
    ensures Readable(files[..i + 1])
         == Readable(files[..i]) + (if files[i].1.Some? then [(files[i].0, files[i].1.value)] else [])
  {
    assert files[..i + 1][..i] == files[..i];
  }

  /** `analyze_directory` over a listing: one result per readable `.log` or `.txt` file, `.log` files first. */
  method AnalyzeDirectory(entries: seq<Entry>, find: Finder) returns (results: seq<LogAnalysis>)
    ensures AllAnalysed(results, Readable(LogFiles(entries)), find)
  {
    var files := LogFiles(entries);
    results := [];
    for i := 0 to |files|
      invariant AllAnalysed(results, Readable(files[..i]), find)
    {
      var result := AnalyzeLog(files[i].0, files[i].1, find);
      ReadableStep(files, i);
      if result.Some? {
        AnalysedOneMore(results, Readable(files[..i]), find, result.value, (files[i].0, files[i].1.value));
        results := results + [result.value];
      }
    }
    assert files[..|files|] == files;
  }

  /*
   * Counters
   */

  /** The count a `Counter`, kept as its entries in insertion order, holds for `key` (0 when absent). */
  function CountOf<T(==)>(counts: seq<(T, nat)>, key: T): nat
    decreases |counts|
  {
    if counts == [] then 0 else (if counts[0].0 == key then counts[0].1 else 0) + CountOf(counts[1..], key)
  }

  /** `counter[key] += n`: a new key goes at the end. */
  function Add<T(==,!new)>(counts: seq<(T, nat)>, key: T, n: nat): (r: seq<(T, nat)>)
    decreases |counts|
    ensures CountOf(r, key) == CountOf(counts, key) + n
    ensures forall other :: other != key ==> CountOf(r, other) == CountOf(counts, other)
  {
    if counts == [] then [(key, n)]
    else if counts[0].0 == key then [(key, counts[0].1 + n)] + counts[1..]
    else [counts[0]] + Add(counts[1..], key, n)
  }

  /*
   * The summary over several logs
   */

  /** `error_counts` after adding one summary's first `n` codes of the table (the summary's own insertion order). */
  function AddSummary(counts: seq<(Code, nat)>, summary: map<Code, nat>, n: nat): seq<(Code, nat)>
    requires n <= |Codes|
  {
    if n == 0 then counts
    else
      var before := AddSummary(counts, summary, n - 1);
      var c := Codes[n - 1];
      if c in summary then Add(before, c, summary[c]) else before
  }

  /** `error_counts` after the given results. */
  function CodeCounts(results: seq<LogAnalysis>): seq<(Code, nat)>
    decreases |results|
  {
    if results == [] then []
    else
      var n := |results| - 1;
      AddSummary(CodeCounts(results[..n]), results[n].summary, |Codes|)
  }

  /** `package_issues` after adding one result's affected packages. */
  function AddPackages(counts: seq<(string, nat)>, packages: seq<string>): seq<(string, nat)>
    decreases |packages|
  {
    if packages == [] then counts
    else
      var n := |packages| - 1;
      Add(AddPackages(counts, packages[..n]), packages[n], 1)
  }

  /** `package_issues` after the given results. */
  function PackageCounts(results: seq<LogAnalysis>): seq<(string, nat)>
    decreases |results|
  {
    if results == [] then []
    else
      var n := |results| - 1;
      AddPackages(PackageCounts(results[..n]), results[n].packagesAffected)
  }

  /** The sum of the results' `total_errors`. */
  function TotalErrors(results: seq<LogAnalysis>): nat
    decreases |results|
  {
    if results == [] then 0
    else
      var n := |results| - 1;
      TotalErrors(results[..n]) + results[n].totalErrors
  }

  /** The sum of the results' summary entries for code `c`. */
  function TotalCount(results: seq<LogAnalysis>, c: Code): nat
    decreases |results|
  {
    if results == [] then 0
    else
      var n := |results| - 1;
      var summary := results[n].summary;
      TotalCount(results[..n], c) + (if c in summary then summary[c] else 0)
  }

  /** The number of results whose affected packages include `p`. */
  function FilesNaming(results: seq<LogAnalysis>, p: string): nat
    decreases |results|
  {
    if results == [] then 0
    else
      var n := |results| - 1;
      FilesNaming(results[..n], p) + (if p in results[n].packagesAffected then 1 else 0)
  }

  lemma {:induction false} AddSummaryCount(counts: seq<(Code, nat)>, summary: map<Code, nat>, n: nat, c: Code)
    requires n <= |Codes|
    decreases n
    ensures CountOf(AddSummary(counts, summary, n), c)
         == CountOf(counts, c) + (if Index(c) < n && c in summary then summary[c] else 0)
  {
    if n > 0 {
      AddSummaryCount(counts, summary, n - 1, c);
      IndexOf(n - 1);
    }
  }

  /** The aggregated count of a code is the sum of its summary entries over all results. */
  lemma {:induction false} CodeCountsAreSums(results: seq<LogAnalysis>, c: Code)
    decreases |results|
    ensures CountOf(CodeCounts(results), c) == TotalCount(results, c)
  {
    if results != [] {
      var n := |results| - 1;
      CodeCountsAreSums(results[..n], c);
      AddSummaryCount(CodeCounts(results[..n]), results[n].summary, |Codes|, c);
    }
  }

  lemma {:induction false} AddPackagesCount(counts: seq<(string, nat)>, packages: seq<string>, p: string)
    requires Strings.Distinct(packages)
    decreases |packages|
    ensures CountOf(AddPackages(counts, packages), p) == CountOf(counts, p) + (if p in packages then 1 else 0)
  {
    if packages != [] {
      var n := |packages| - 1;
      assert packages == packages[..n] + [packages[n]];
      assert p in packages <==> p in packages[..n] || p == packages[n];
      assert packages[n] !in packages[..n];
      AddPackagesCount(counts, packages[..n], p);
    }
  }

  /** A package's issue count is the number of files that name it, not its number of errors. */
  lemma {:induction false} PackageCountsAreFiles(results: seq<LogAnalysis>, p: string)
    requires forall k :: 0 <= k < |results| ==> Strings.Distinct(results[k].packagesAffected)
    decreases |results|
    ensures CountOf(PackageCounts(results), p) == FilesNaming(results, p)
  {
    if results != [] {
      var n := |results| - 1;
      PackageCountsAreFiles(results[..n], p);
      AddPackagesCount(PackageCounts(results[..n]), results[n].packagesAffected, p);
    }
  }

  /** The sum of the counts of the given codes. */
  function SumCounts(counts: seq<(Code, nat)>, codes: seq<Code>): nat
    decreases |codes|
  {
    if codes == [] then 0
    else
      var n := |codes| - 1;
      SumCounts(counts, codes[..n]) + CountOf(counts, codes[n])
  }

  lemma {:induction false} SumCountsSplit(before: seq<(Code, nat)>, after: seq<(Code, nat)>, summary: map<Code, nat>, codes: seq<Code>)
    requires forall c :: CountOf(after, c) == CountOf(before, c) + (if c in summary then summary[c] else 0)
    decreases |codes|
    ensures SumCounts(after, codes) == SumCounts(before, codes) + SumOver(summary, codes)
  {
    if codes != [] {
      SumCountsSplit(before, after, summary, codes[..|codes| - 1]);
    }
  }

  /** The report's error total is the sum of its per-code counts, for results whose totals are their summaries' sums. */
  lemma {:induction false} TotalIsSumOfCounts(results: seq<LogAnalysis>)
    requires forall k :: 0 <= k < |results| ==> results[k].totalErrors == SumOver(results[k].summary, Codes)
    decreases |results|
    ensures TotalErrors(results) == SumCounts(CodeCounts(results), Codes)
  {
    if results == [] {
      SumCountsEmpty(Codes);
    } else {
      var n := |results| - 1;
      TotalIsSumOfCounts(results[..n]);
      var before := CodeCounts(results[..n]);
      var summary := results[n].summary;
      forall c
        ensures CountOf(CodeCounts(results), c) == CountOf(before, c) + (if c in summary then summary[c] else 0)
      {
        AddSummaryCount(before, summary, |Codes|, c);
      }
      SumCountsSplit(before, CodeCounts(results), summary, Codes);
    }
  }

  lemma {:induction false} SumCountsEmpty(codes: seq<Code>)
    decreases |codes|
    ensures SumCounts([], codes) == 0
  {
    if codes != [] {
      SumCountsEmpty(codes[..|codes| - 1]);
    }
  }

  /*
   * Sorting by count and the report sections
   */

  /** Counts never increase along the sequence. */
  predicate Descending<T>(s: seq<(T, nat)>) {
    forall i, j :: 0 <= i < j < |s| ==> s[j].1 <= s[i].1
  }
  /** Insert `x` after every entry whose count is at least its own, as a stable sort places a later entry. */
  function InsertDesc<T>(x: (T, nat), s: seq<(T, nat)>): seq<(T, nat)>
    decreases |s|
  {
    if s == [] then [x]
    else if s[0].1 < x.1 then [x] + s
    else [s[0]] + InsertDesc(x, s[1..])
  }

  /** Inserting adds exactly `x`. */
  lemma {:induction false} InsertDescAdds<T>(x: (T, nat), s: seq<(T, nat)>)
    decreases |s|
    ensures multiset(InsertDesc(x, s)) == multiset(s) + multiset{x}
  {
    if s != [] && s[0].1 >= x.1 {
      assert s == [s[0]] + s[1..];
      InsertDescAdds(x, s[1..]);
    }
  }

  /** Inserting keeps the order descending. */
  lemma {:induction false} InsertDescSorted<T>(x: (T, nat), s: seq<(T, nat)>)
    requires Descending(s)
    decreases |s|
    ensures Descending(InsertDesc(x, s))
  {
    if s != [] && s[0].1 >= x.1 {
      var rest := InsertDesc(x, s[1..]);
      InsertDescSorted(x, s[1..]);
      InsertDescAdds(x, s[1..]);
      forall j | 0 <= j < |rest|
        ensures rest[j].1 <= s[0].1
      {
        assert rest[j] in multiset(rest);
        if rest[j] != x {
          assert rest[j] in multiset(s[1..]);
          var k :| 0 <= k < |s[1..]| && s[1..][k] == rest[j];
          assert s[k + 1] == rest[j];
        }
      }
      assert InsertDesc(x, s) == [s[0]] + rest;
    }
  }

  /** `sorted(entries, key=count, reverse=True)`. */
  function SortDesc<T>(s: seq<(T, nat)>): seq<(T, nat)>
    decreases |s|
  {
    if s == [] then [] else InsertDesc(s[|s| - 1], SortDesc(s[..|s| - 1]))
  }

  /** Sorting permutes the entries into descending order of count. */
  lemma {:induction false} SortDescFacts<T>(s: seq<(T, nat)>)
    decreases |s|
    ensures multiset(SortDesc(s)) == multiset(s) && Descending(SortDesc(s))
  {
    if s != [] {
      var n := |s| - 1;
      assert s == s[..n] + [s[n]];
      SortDescFacts(s[..n]);
      InsertDescAdds(s[n], SortDesc(s[..n]));
      InsertDescSorted(s[n], SortDesc(s[..n]));
    }
  }

  /** `Counter.most_common(n)`: the first `n` entries by descending count. */
  function MostCommon<T>(counts: seq<(T, nat)>, n: nat): seq<(T, nat)> {
    var sorted := SortDesc(counts);
    if |sorted| <= n then sorted else sorted[..n]
  }

  /** An entry `most_common` leaves out counts no more than any entry it lists, and it lists `n` of them. */
  lemma MostCommonOmits<T>(counts: seq<(T, nat)>, n: nat, e: (T, nat))
    requires e in counts && e !in MostCommon(counts, n)
    ensures |MostCommon(counts, n)| == n && forall t :: t in MostCommon(counts, n) ==> e.1 <= t.1
  {
    var sorted := SortDesc(counts);
    var top := MostCommon(counts, n);
    SortDescFacts(counts);
    assert e in multiset(sorted);
    var i :| 0 <= i < |sorted| && sorted[i] == e;
    assert |sorted| > n && i >= n;
    forall t | t in top
      ensures e.1 <= t.1
    {
      var k :| 0 <= k < |top| && top[k] == t;
      assert top[k] == sorted[k];
    }
  }

  /** The listed entries come from the counter, by descending count, at most `n` of them; an entry left out counts no more than any listed one. */
  lemma MostCommonFacts<T>(counts: seq<(T, nat)>, n: nat)
    ensures var top := MostCommon(counts, n);
      |top| <= n && Descending(top)
      && (forall e :: e in top ==> e in counts)
      && (forall e :: e in counts && e !in top ==> |top| == n && forall t :: t in top ==> e.1 <= t.1)
  {
    var sorted := SortDesc(counts);
    SortDescFacts(counts);
    var top := MostCommon(counts, n);
    forall e | e in top
      ensures e in counts
    {
      assert e in multiset(sorted);
    }
    forall e | e in counts && e !in top
      ensures |top| == n && forall t :: t in top ==> e.1 <= t.1
    {
      MostCommonOmits(counts, n, e);
    }
  }

  /** The (code, count) entries of one priority, in counter order. */
  function OfPriority(counts: seq<(Code, nat)>, p: nat): seq<(Code, nat)>
    decreases |counts|
  {
    if counts == [] then []
    else
      var n := |counts| - 1;
      OfPriority(counts[..n], p) + (if Priority(counts[n].0) == p then [counts[n]] else [])
  }

  /** The entries of a priority are exactly the counter's entries whose code has it. */
  lemma {:induction false} OfPriorityMembers(counts: seq<(Code, nat)>, p: nat, e: (Code, nat))
    decreases |counts|
    ensures e in OfPriority(counts, p) <==> e in counts && Priority(e.0) == p
  {
    if counts != [] {
      var n := |counts| - 1;
      assert counts == counts[..n] + [counts[n]];
      OfPriorityMembers(counts[..n], p, e);
    }
  }

  /** One block of the summary: a priority and its codes by descending count. */
  datatype Section = Section(priority: nat, rows: seq<(Code, nat)>)

  /** The section of priority `p`: none when no code of that priority was counted. */
  function SectionFor(counts: seq<(Code, nat)>, p: nat): seq<Section> {
    var rows := OfPriority(counts, p);
    if rows == [] then [] else [Section(p, SortDesc(rows))]
  }

  /** The sections of priorities `1..p` that have codes, in ascending order of priority. */
  function SectionsUpTo(counts: seq<(Code, nat)>, p: nat): seq<Section>
    decreases p
  {
    if p == 0 then [] else SectionsUpTo(counts, p - 1) + SectionFor(counts, p)
  }

  /** The priority sections of the summary: blocking errors, build issues, warnings. */
  function Sections(counts: seq<(Code, nat)>): seq<Section> {
    SectionFor(counts, 1) + SectionFor(counts, 2) + SectionFor(counts, 3)
  }

  /** Walking the priorities in ascending order builds the summary's sections. */
  lemma SectionsInOrder(counts: seq<(Code, nat)>)
    ensures SectionsUpTo(counts, 3) == Sections(counts)
  {
    assert SectionsUpTo(counts, 1) == SectionFor(counts, 1);
  }

  /** Sections never repeat a priority and come in ascending order of it. */
  predicate Ascending(sections: seq<Section>) {
    forall i, j :: 0 <= i < j < |sections| ==> sections[i].priority < sections[j].priority
  }

  /** The section of priority `p` has that priority, is non-empty and is sorted by descending count. */
  lemma SectionForShape(counts: seq<(Code, nat)>, p: nat)
    ensures |SectionFor(counts, p)| <= 1
    ensures forall s :: s in SectionFor(counts, p) ==> s.priority == p && s.rows != [] && Descending(s.rows)
  {
    var rows := OfPriority(counts, p);
    if rows != [] {
      SortDescFacts(rows);
      assert rows[0] in multiset(SortDesc(rows));
    }
  }

  /** The section of priority `p` lists exactly the counted entries whose code has that priority. */
  lemma SectionForRows(counts: seq<(Code, nat)>, p: nat, e: (Code, nat))
    ensures SectionFor(counts, p) != [] ==> (e in SectionFor(counts, p)[0].rows <==> e in counts && Priority(e.0) == p)
    ensures e in counts && Priority(e.0) == p ==> SectionFor(counts, p) != []
  {
    var rows := OfPriority(counts, p);
    SortDescFacts(rows);
    OfPriorityMembers(counts, p, e);
    assert e in SortDesc(rows) <==> e in multiset(SortDesc(rows));
    assert e in rows <==> e in multiset(rows);
  }

  /** The summary's sections come in ascending priority, each non-empty and sorted by descending count. */
  lemma SectionsOrdered(counts: seq<(Code, nat)>)
    ensures Ascending(Sections(counts))
    ensures forall s :: s in Sections(counts) ==> 1 <= s.priority <= 3 && s.rows != [] && Descending(s.rows)
  {
    SectionForShape(counts, 1);
    SectionForShape(counts, 2);
    SectionForShape(counts, 3);
  }

  /** A section lists only the counter's entries whose code has the section's priority. */
  lemma SectionsRows(counts: seq<(Code, nat)>, s: Section, e: (Code, nat))
    requires s in Sections(counts) && e in s.rows
    ensures e in counts && Priority(e.0) == s.priority
  {
    var a, b, c := SectionFor(counts, 1), SectionFor(counts, 2), SectionFor(counts, 3);
    assert s in a || s in b || s in c;
    if s in a {
      SectionForShape(counts, 1);
      SectionForRows(counts, 1, e);
    } else if s in b {
      SectionForShape(counts, 2);
      SectionForRows(counts, 2, e);
    } else {
      SectionForShape(counts, 3);
      SectionForRows(counts, 3, e);
    }
  }

  /** Every entry of the counter appears in the section of its code's priority. */
  lemma SectionsCover(counts: seq<(Code, nat)>, e: (Code, nat))
    requires e in counts
    ensures exists s :: s in Sections(counts) && s.priority == Priority(e.0) && e in s.rows
  {
    var p := Priority(e.0);
    SectionForRows(counts, p, e);
    SectionForShape(counts, p);
    var s := SectionFor(counts, p)[0];
    assert s in Sections(counts);
  }

  /*
   * Recommendations and the report
   */

  /** The codes with a recommendation line, in the order the lines are written; NU1008 has none. */
  const Advised: seq<Code> := [NU1103, NU1605, NU1202, NU1010, MSB4062, NU1506]

  /** The recommended codes among the first `n` of `Advised`: those with a positive count. */
  function RecommendationsUpTo(counts: seq<(Code, nat)>, n: nat): seq<Code>
    requires n <= |Advised|
  {
    if n == 0 then []
    else
      RecommendationsUpTo(counts, n - 1) + (if CountOf(counts, Advised[n - 1]) > 0 then [Advised[n - 1]] else [])
  }

  lemma {:induction false} RecommendationsUpToFacts(counts: seq<(Code, nat)>, n: nat, c: Code)
    requires n <= |Advised|
    decreases n
    ensures c in RecommendationsUpTo(counts, n) <==> c in Advised[..n] && CountOf(counts, c) > 0
  {
    if n > 0 {
      RecommendationsUpToFacts(counts, n - 1, c);
      assert Advised[..n] == Advised[..n - 1] + [Advised[n - 1]];
    }
  }

  /** A recommendation appears for a code exactly when its count is positive, and never for NU1008. */
  lemma RecommendationsFacts(counts: seq<(Code, nat)>, c: Code)
    ensures c in RecommendationsUpTo(counts, |Advised|) <==> c != NU1008 && CountOf(counts, c) > 0
  {
    RecommendationsUpToFacts(counts, |Advised|, c);
    assert Advised[..|Advised|] == Advised;
    assert c != NU1008 <==> c in Advised by {
      match c
      case NU1103 => assert Advised[0] == c;
      case NU1605 => assert Advised[1] == c;
      case NU1202 => assert Advised[2] == c;
      case NU1010 => assert Advised[3] == c;
      case MSB4062 => assert Advised[4] == c;
      case NU1506 => assert Advised[5] == c;
      case NU1008 =>
    }
  }

  /** The content of the summary report; banners, labels and padding are left out. */
  datatype SummaryReport = SummaryReport(
    filesAnalyzed: nat,
    totalErrors: nat,
    sections: seq<Section>,
    topPackages: seq<(string, nat)>,
    recommendations: seq<Code>)

  /** The inner loop over one result's summary. */
  method AddSummaryCounts(counts: seq<(Code, nat)>, summary: map<Code, nat>) returns (r: seq<(Code, nat)>)
    ensures r == AddSummary(counts, summary, |Codes|)
  {
    r := counts;
    for k := 0 to |Codes|
      invariant r == AddSummary(counts, summary, k)
    {
      var c := Codes[k];
      if c in summary {
        r := Add(r, c, summary[c]);
      }
    }
  }

  /** The inner loop over one result's affected packages. */
  method AddPackageCounts(counts: seq<(string, nat)>, packages: seq<string>) returns (r: seq<(string, nat)>)
    ensures r == AddPackages(counts, packages)
  {
    r := counts;
    for k := 0 to |packages|
      invariant r == AddPackages(counts, packages[..k])
    {
      assert packages[..k + 1][..k] == packages[..k];
      r := Add(r, packages[k], 1);
    }
    assert packages[..|packages|] == packages;
  }

  /** The counting loop of `generate_summary_report`. */
  method Aggregate(results: seq<LogAnalysis>) returns (total: nat, errorCounts: seq<(Code, nat)>, packageIssues: seq<(string, nat)>)
    ensures total == TotalErrors(results)
    ensures errorCounts == CodeCounts(results) && packageIssues == PackageCounts(results)
  {
    total, errorCounts, packageIssues := 0, [], [];
    for i := 0 to |results|
      invariant total == TotalErrors(results[..i])
      invariant errorCounts == CodeCounts(results[..i])
      invariant packageIssues == PackageCounts(results[..i])
    {
      assert results[..i + 1][..i] == results[..i];
      total := total + results[i].totalErrors;
      errorCounts := AddSummaryCounts(errorCounts, results[i].summary);
      packageIssues := AddPackageCounts(packageIssues, results[i].packagesAffected);
    }
    assert results[..|results|] == results;
  }

  /** The `priority_groups` dictionary: each priority with entries, mapped to those entries. */
  method GroupByPriority(counts: seq<(Code, nat)>) returns (groups: map<nat, seq<(Code, nat)>>)
    ensures forall p :: p in groups <==> OfPriority(counts, p) != []
    ensures forall p :: p in groups ==> groups[p] == OfPriority(counts, p)
  {
    groups := map[];
    for j := 0 to |counts|
      invariant forall p :: p in groups <==> OfPriority(counts[..j], p) != []
      invariant forall p :: p in groups ==> groups[p] == OfPriority(counts[..j], p)
    {
      assert counts[..j + 1][..j] == counts[..j];
      var entry := counts[j];
      var p := Priority(entry.0);
      groups := groups[p := (if p in groups then groups[p] else []) + [entry]];
    }
    assert counts[..|counts|] == counts;
  }

  /** The sections, in ascending order of priority, each sorted by count. */
  method SectionsOf(counts: seq<(Code, nat)>) returns (sections: seq<Section>)
    ensures sections == Sections(counts)
  {
    var groups := GroupByPriority(counts);
    sections := [];
    for p := 1 to 4
      invariant sections == SectionsUpTo(counts, p - 1)
    {
      if p in groups {
        sections := sections + [Section(p, SortDesc(groups[p]))];
      }
    }
    SectionsInOrder(counts);
  }

  /** The recommendation lines, as their codes. */
  method Recommend(counts: seq<(Code, nat)>) returns (advice: seq<Code>)
    ensures advice == RecommendationsUpTo(counts, |Advised|)
  {
    advice := [];
    for k := 0 to |Advised|
      invariant advice == RecommendationsUpTo(counts, k)
    {
      if CountOf(counts, Advised[k]) > 0 {
        advice := advice + [Advised[k]];
      }
    }
  }

  /** `generate_summary_report` on a list of results. */
  method GenerateSummaryReport(results: seq<LogAnalysis>) returns (report: SummaryReport)
    ensures report.filesAnalyzed == |results| && report.totalErrors == TotalErrors(results)
    ensures report.sections == Sections(CodeCounts(results))
    ensures report.topPackages == MostCommon(PackageCounts(results), 10)
    ensures report.recommendations == RecommendationsUpTo(CodeCounts(results), |Advised|)
  {
    var total, errorCounts, packageIssues := Aggregate(results);
    var sections := SectionsOf(errorCounts);
    var advice := Recommend(errorCounts);
    report := SummaryReport(|results|, total, sections, MostCommon(packageIssues, 10), advice);
  }
}
