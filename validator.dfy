/**
 * The migration validator: four validation categories over an already-parsed
 * solution (the props file, the project files, their consistency, the build),
 * the weighted score and its tier, the report's recommendations and the exit code.
 *
 * XML parsing is abstracted away: a file arrives as the attributes of the
 * elements the validator looks at, or as "could not be parsed". The build
 * arrives as the outcome of `dotnet restore` / `dotnet build`.
 */
module MigrationValidation {
  import opened Wrappers
  import opened Xml

  /** The status of one category: 'PASS', 'WARN', 'FAIL', 'SKIP' or 'UNKNOWN'. */
  datatype Status = Pass | Warn | Fail | Skip | Unknown

  datatype Category = DirectoryPackagesProps | ProjectFiles | PackageConsistency | BuildValidation

  /** The overall status: 'UNKNOWN' (before scoring), then one of the four tiers. */
  datatype Rating = Unrated | Excellent | Good | NeedsWork | Poor

  /** One line of a category's details, kept structured instead of formatted. */
  datatype Detail =
    | PropsFileNotFound
    | PropsParseError
    | NotManagedCentrally
    | DuplicateEntries(names: seq<string>)
    | FoundEntries(count: nat)
    | ValidatedProjects(count: nat)
    | ProjectVersionAttributes(project: string, count: nat)
    | PackagesConfigRemains(project: string)
    | ProjectParseError(project: string)
    | AllProjectsCompliant
    | UnusedInProps(unused: set<string>)
    | PropsCount(count: nat)
    | ProjectsCount(count: nat)
    | MissingFromProps(missing: set<string>)
    | ConsistencyValidated
    | BuildSkipped
    | RestoreSucceeded
    | RestoreFailed(stderr: string)
    | BuildSucceeded
    | BuildFailed(stderr: string)
    | BuildTimedOut
    | BuildError(message: string)

  datatype CheckResult = CheckResult(status: Status, details: seq<Detail>)

  /** The overall entry of the results: its rating and the score rounded to one decimal, in tenths. */
  datatype Overall = Overall(rating: Rating, scoreTenths: nat)

  /** A child of a `PropertyGroup`: its tag and its text (None when the element is empty). */
  datatype Property = Property(tag: string, text: Option<string>)

  /**
   * Directory.Packages.props as the validator sees it: missing, not parseable, or
   * the children of every PropertyGroup and the PackageVersion children of every
   * ItemGroup, in document order.
   */
  datatype PropsFile =
    | Missing
    | Unparsable
    | Parsed(properties: seq<Property>, packageVersions: seq<Element>)

  /** A .csproj file: its name, its PackageReference elements (None if it does not parse), and whether a packages.config sits beside it. */
  datatype ProjectFile = ProjectFile(name: string, references: Option<seq<Element>>, packagesConfig: bool)

  /** What running `dotnet restore` and then `dotnet build --no-restore` gave. */
  datatype BuildOutcome =
    | RestoreError(stderr: string)
    | BuildError'(stderr: string)
    | Built
    | TimedOut
    | Crashed(message: string)

  // ---------------------------------------------------------------------------
  // Directory.Packages.props
  // ---------------------------------------------------------------------------

  /** Some PropertyGroup child is `ManagePackageVersionsCentrally` with text exactly `true`. */
  predicate ManagedCentrally(properties: seq<Property>) {
    exists p | p in properties :: p.tag == "ManagePackageVersionsCentrally" && p.text == Some("true")
  }

  /** An entry takes part only when both Include and Version are present. */
  predicate Counted(e: Element) {
    Present(e.name) && Present(e.version)
  }

  /** The first version kept for each Include, and each later repeat of an Include, in order. */
  datatype Scan = Scan(versions: map<string, string>, duplicates: seq<string>)

  /** The validator's pass over the PackageVersion entries, entry by entry. */
  function ScanEntries(es: seq<Element>): Scan {
    if es == [] then Scan(map[], [])
    else
      var prev := ScanEntries(es[..|es| - 1]);
      var e := es[|es| - 1];
      if !Counted(e) then prev
      else if e.name.value in prev.versions then Scan(prev.versions, prev.duplicates + [e.name.value])
      else Scan(prev.versions[e.name.value := e.version.value], prev.duplicates)
  }

  /** Two counted entries, the later one repeating the earlier one's Include. */
  ghost predicate HasRepeat(es: seq<Element>) {
    exists i, j :: 0 <= i < j < |es| && Counted(es[i]) && Counted(es[j]) && es[i].name == es[j].name
  }

  /** The names kept are exactly the Includes of the counted entries. */
  lemma {:induction false} ScanKeys(es: seq<Element>)
    ensures ScanEntries(es).versions.Keys == set i | 0 <= i < |es| && Counted(es[i]) :: es[i].name.value
  {
    if es != [] {
      var front := es[..|es| - 1];
      ScanKeys(front);
      var ks := set i | 0 <= i < |es| && Counted(es[i]) :: es[i].name.value;
      var kf := set i | 0 <= i < |front| && Counted(front[i]) :: front[i].name.value;
      assert forall i :: 0 <= i < |front| ==> front[i] == es[i];
      if Counted(es[|es| - 1]) {
        assert ks == kf + {es[|es| - 1].name.value};
      } else {
        assert ks == kf;
      }
    }
  }

  /** For each name, the version kept is that of the first counted entry with that Include. */
  lemma {:induction false} ScanKeepsFirst(es: seq<Element>, i: nat)
    requires i < |es| && Counted(es[i])
    requires forall j :: 0 <= j < i && Counted(es[j]) ==> es[j].name != es[i].name
    ensures es[i].name.value in ScanEntries(es).versions
    ensures ScanEntries(es).versions[es[i].name.value] == es[i].version.value
  {
    var front := es[..|es| - 1];
    if i == |es| - 1 {
      ScanKeys(front);
    } else {
      ScanKeepsFirst(front, i);
    }
  }

  /** Duplicates are reported exactly when some Include repeats among the counted entries. */
  lemma {:induction false} DuplicatesIffRepeat(es: seq<Element>)
    ensures ScanEntries(es).duplicates != [] <==> HasRepeat(es)
  {
    if es != [] {
      var front := es[..|es| - 1];
      var last := es[|es| - 1];
      DuplicatesIffRepeat(front);
      ScanKeys(front);
      assert forall i :: 0 <= i < |front| ==> front[i] == es[i];
      if HasRepeat(front) {
        var i, j :| 0 <= i < j < |front| && Counted(front[i]) && Counted(front[j]) && front[i].name == front[j].name;
        assert es[i] == front[i] && es[j] == front[j];
      }
      if HasRepeat(es) && !HasRepeat(front) {
        var i, j :| 0 <= i < j < |es| && Counted(es[i]) && Counted(es[j]) && es[i].name == es[j].name;
        assert j == |es| - 1;
        assert last.name.value in ScanEntries(front).versions;
      }
      if Counted(last) && last.name.value in ScanEntries(front).versions {
        var i :| 0 <= i < |front| && Counted(front[i]) && front[i].name.value == last.name.value;
        assert es[i] == front[i];
        assert HasRepeat(es);
      }
    }
  }

  /** Entry `j` is counted and repeats the Include of an earlier counted entry. */
  ghost predicate RepeatsEarlier(es: seq<Element>, j: nat)
    requires j < |es|
  {
    Counted(es[j]) && exists i :: 0 <= i < j && Counted(es[i]) && es[i].name == es[j].name
  }

  /** The Includes of the entries that repeat an earlier entry's Include, in entry order. */
  ghost function Repeats(es: seq<Element>): seq<string> {
    if es == [] then []
    else Repeats(es[..|es| - 1]) + (if RepeatsEarlier(es, |es| - 1) then [es[|es| - 1].name.value] else [])
  }

  /**
   * The "Duplicate PackageVersion entries" detail lists, in order, the Include of exactly
   * those counted entries that repeat an earlier counted entry's Include.
   */
  lemma {:induction false} DuplicatesAreRepeats(es: seq<Element>)
    ensures ScanEntries(es).duplicates == Repeats(es)
  {
    if es != [] {
      var front := es[..|es| - 1];
      var last := es[|es| - 1];
      DuplicatesAreRepeats(front);
      ScanKeys(front);
      if Counted(last) {
        if last.name.value in ScanEntries(front).versions {
          var i :| 0 <= i < |front| && Counted(front[i]) && front[i].name.value == last.name.value;
          assert es[i] == front[i];
          assert RepeatsEarlier(es, |es| - 1);
        }
      }
    }
  }

  /** The status rule: duplicates fail, otherwise a missing central-management flag warns. */
  function PropsStatus(managed: bool, hasDuplicates: bool): Status {
    if hasDuplicates || !managed then (if !hasDuplicates then Warn else Fail) else Pass
  }

  /** The result the validator records for the props file. */
  function PropsResult(f: PropsFile): CheckResult {
    match f
    case Missing => CheckResult(Fail, [PropsFileNotFound])
    case Unparsable => CheckResult(Fail, [PropsParseError])
    case Parsed(properties, entries) =>
      var managed := ManagedCentrally(properties);
      var scan := ScanEntries(entries);
      var details :=
        (if managed then [] else [NotManagedCentrally])
        + (if scan.duplicates != [] then [DuplicateEntries(scan.duplicates)] else [])
        + [FoundEntries(|scan.versions|)];
      CheckResult(PropsStatus(managed, scan.duplicates != []), details)
  }

  /** The names the props file contributes to `packages_in_props`. */
  function PropsPackages(f: PropsFile): set<string> {
    if f.Parsed? then ScanEntries(f.packageVersions).versions.Keys else {}
  }

  /** FAIL exactly for a missing or unparsable file or a repeated Include; WARN for an unmanaged file without repeats. */
  lemma PropsStatusRule(f: PropsFile)
    ensures PropsResult(f).status == Fail <==> f.Missing? || f.Unparsable? || HasRepeat(f.packageVersions)
    ensures PropsResult(f).status == Warn <==> f.Parsed? && !HasRepeat(f.packageVersions) && !ManagedCentrally(f.properties)
    ensures PropsResult(f).status == Pass <==> f.Parsed? && !HasRepeat(f.packageVersions) && ManagedCentrally(f.properties)
  {
    if f.Parsed? {
      DuplicatesIffRepeat(f.packageVersions);
    }
  }

  // ---------------------------------------------------------------------------
  // Project files
  // ---------------------------------------------------------------------------

  /** The references that still carry a Version, as (Include, Version) pairs, in order. */
  function VersionedPairs(refs: seq<Element>): seq<(string, string)> {
    if refs == [] then []
    else
      var r := refs[|refs| - 1];
      VersionedPairs(refs[..|refs| - 1]) + (if Counted(r) then [(r.name.value, r.version.value)] else [])
  }

  /** The Includes of the references without a Version, in order: the ones entering `packages_in_projects`. */
  function VersionlessIncludes(refs: seq<Element>): seq<string> {
    if refs == [] then []
    else
      var r := refs[|refs| - 1];
      VersionlessIncludes(refs[..|refs| - 1]) + (if Present(r.name) && !Present(r.version) then [r.name.value] else [])
  }

  /** As a set. */
  function VersionlessNames(refs: seq<Element>): set<string> {
    set x | x in VersionlessIncludes(refs)
  }

  /** How many references still carry both Include and Version. */
  function VersionedCount(refs: seq<Element>): nat {
    |VersionedPairs(refs)|
  }

  /** A name enters `packages_in_projects` exactly when some reference has that Include and no Version. */
  lemma {:induction false} VersionlessNamesIff(refs: seq<Element>, x: string)
    ensures x in VersionlessNames(refs) <==> exists i :: 0 <= i < |refs| && refs[i].name == Some(x) && x != "" && !Present(refs[i].version)
  {
    if refs != [] {
      var front := refs[..|refs| - 1];
      VersionlessNamesIff(front, x);
      assert forall i :: 0 <= i < |front| ==> front[i] == refs[i];
      assert VersionlessIncludes(refs) == VersionlessIncludes(front) + (if Present(refs[|refs| - 1].name) && !Present(refs[|refs| - 1].version) then [refs[|refs| - 1].name.value] else []);
    }
  }

  /** A project keeps a Version attribute exactly when some reference has both Include and Version. */
  lemma {:induction false} VersionedCountPositive(refs: seq<Element>)
    ensures VersionedCount(refs) > 0 <==> exists i :: 0 <= i < |refs| && Counted(refs[i])
  {
    if refs != [] {
      var front := refs[..|refs| - 1];
      VersionedCountPositive(front);
      assert forall i :: 0 <= i < |front| ==> front[i] == refs[i];
    }
  }

  /**
   * Splits one project's references the way the inner loop does: those with a
   * Version, and the Includes of those without one.
   */
  method ClassifyReferences(refs: seq<Element>) returns (versioned: seq<(string, string)>, versionless: seq<string>)
    ensures versioned == VersionedPairs(refs)
    ensures versionless == VersionlessIncludes(refs)
  {
    versioned, versionless := [], [];
    for i := 0 to |refs|
      invariant versioned == VersionedPairs(refs[..i])
      invariant versionless == VersionlessIncludes(refs[..i])
    {
      assert refs[..i + 1][..i] == refs[..i];
      var r := refs[i];
      if Present(r.name) {
        if Present(r.version) {
          versioned := versioned + [(r.name.value, r.version.value)];
        } else {
          versionless := versionless + [r.name.value];
        }
      }
    }
    assert refs[..|refs|] == refs;
  }

  /** The issues one project file raises, in the order the validator appends them. */
  function ProjectIssues(p: ProjectFile): seq<Detail> {
    match p.references
    case None => [ProjectParseError(p.name)]
    case Some(refs) =>
      var n := VersionedCount(refs);
      (if n > 0 then [ProjectVersionAttributes(p.name, n)] else [])
      + (if p.packagesConfig then [PackagesConfigRemains(p.name)] else [])
  }

  /** One iteration of the project loop: the issues a project raises and the names it adds. */
  method CheckProject(p: ProjectFile) returns (found: seq<Detail>, names: set<string>)
    ensures found == ProjectIssues(p)
    ensures names == if p.references.Some? then VersionlessNames(p.references.value) else {}
  {
    found, names := [], {};
    match p.references {
      case None =>
        found := [ProjectParseError(p.name)];
      case Some(refs) =>
        var versioned, versionless := ClassifyReferences(refs);
        names := set x | x in versionless;
        if |versioned| > 0 {
          found := found + [ProjectVersionAttributes(p.name, |versioned|)];
        }
        if p.packagesConfig {
          found := found + [PackagesConfigRemains(p.name)];
        }
    }
  }

  /** A project that fails: unparsable, a reference with a Version left, or a leftover packages.config. */
  predicate NonCompliant(p: ProjectFile) {
    p.references.None? || VersionedCount(p.references.value) > 0 || p.packagesConfig
  }

  /** The issues of all project files, in order. */
  function AllIssues(ps: seq<ProjectFile>): seq<Detail> {
    if ps == [] then [] else AllIssues(ps[..|ps| - 1]) + ProjectIssues(ps[|ps| - 1])
  }

  /** The names all project files contribute to `packages_in_projects`. */
  function ProjectPackages(ps: seq<ProjectFile>): set<string> {
    if ps == [] then {}
    else
      var last := ps[|ps| - 1];
      ProjectPackages(ps[..|ps| - 1]) + (if last.references.Some? then VersionlessNames(last.references.value) else {})
  }

  /** The names of the project files, in order. */
  function Names(ps: seq<ProjectFile>): (r: seq<string>)
    ensures |r| == |ps| && forall k :: 0 <= k < |ps| ==> r[k] == ps[k].name
  {
    if ps == [] then [] else [ps[0].name] + Names(ps[1..])
  }

  /** The result the validator records for the project files. */
  function ProjectsResult(ps: seq<ProjectFile>): CheckResult {
    var issues := AllIssues(ps);
    if issues != [] then CheckResult(Fail, [ValidatedProjects(|ps|)] + issues)
    else CheckResult(Pass, [ValidatedProjects(|ps|), AllProjectsCompliant])
  }

  /** Project files FAIL exactly when one of them is non-compliant, and PASS otherwise. */
  lemma {:induction false} ProjectsFailIff(ps: seq<ProjectFile>)
    ensures ProjectsResult(ps).status == Fail <==> exists k :: 0 <= k < |ps| && NonCompliant(ps[k])
    ensures ProjectsResult(ps).status == Pass <==> forall k :: 0 <= k < |ps| ==> !NonCompliant(ps[k])
  {
    IssuesIff(ps);
  }

  lemma {:induction false} IssuesIff(ps: seq<ProjectFile>)
    ensures AllIssues(ps) != [] <==> exists k :: 0 <= k < |ps| && NonCompliant(ps[k])
  {
    if ps != [] {
      var front := ps[..|ps| - 1];
      IssuesIff(front);
      assert forall k :: 0 <= k < |front| ==> front[k] == ps[k];
      if exists k :: 0 <= k < |ps| && NonCompliant(ps[k]) {
        var k :| 0 <= k < |ps| && NonCompliant(ps[k]);
        if k < |front| {
          assert NonCompliant(front[k]);
        }
      }
    }
  }

  // ---------------------------------------------------------------------------
  // Package consistency
  // ---------------------------------------------------------------------------

  /** The consistency result for the two name sets. */
  function ConsistencyResult(inProps: set<string>, inProjects: set<string>): (r: CheckResult)
    ensures r.status == Fail <==> inProjects - inProps != {}
    ensures r.status == Warn <==> inProjects - inProps == {} && inProps - inProjects != {}
    ensures r.status == Pass <==> inProps == inProjects
    ensures r.status != Skip && r.status != Unknown
  {
    var missing := inProjects - inProps;
    var unused := inProps - inProjects;
    var details := (if unused != {} then [UnusedInProps(unused)] else []) + [PropsCount(|inProps|), ProjectsCount(|inProjects|)];
    if missing != {} then CheckResult(Fail, details + [MissingFromProps(missing)])
    else if unused != {} then CheckResult(Warn, details)
    else
      assert inProps == inProjects by {
        assert forall x :: x in inProps ==> x in inProjects by {
          forall x | x in inProps ensures x in inProjects { assert x !in unused; }
        }
        assert forall x :: x in inProjects ==> x in inProps by {
          forall x | x in inProjects ensures x in inProps { assert x !in missing; }
        }
      }
      CheckResult(Pass, details + [ConsistencyValidated])
  }

  // ---------------------------------------------------------------------------
  // Build
  // ---------------------------------------------------------------------------

  /** The build result: SKIP when skipped, PASS only when restore and build both succeed. */
  function BuildResult(skip: bool, outcome: BuildOutcome): (r: CheckResult)
    ensures r.status == Skip <==> skip
    ensures r.status == Pass <==> !skip && outcome.Built?
    ensures r.status == Fail <==> !skip && !outcome.Built?
  {
    if skip then CheckResult(Skip, [BuildSkipped])
    else
      match outcome
      case RestoreError(err) => CheckResult(Fail, [RestoreFailed(err)])
      case BuildError'(err) => CheckResult(Fail, [RestoreSucceeded, BuildFailed(err)])
      case Built => CheckResult(Pass, [RestoreSucceeded, BuildSucceeded])
      case TimedOut => CheckResult(Fail, [BuildTimedOut])
      case Crashed(msg) => CheckResult(Fail, [BuildError(msg)])
  }

  // ---------------------------------------------------------------------------
  // Score, tier, recommendations and exit code
  // ---------------------------------------------------------------------------

  /** The category weights, in the order the score loop visits them; they add up to 100. */
  const Weights: seq<(Category, nat)> :=
    [(DirectoryPackagesProps, 25), (ProjectFiles, 30), (PackageConsistency, 25), (BuildValidation, 20)]

  /** PASS scores 100, WARN 75, anything else 0. */
  function StatusScore(s: Status): nat {
    match s
    case Pass => 100
    case Warn => 75
    case _ => 0
  }

  /** The sum of `status_score * weight` over the listed categories that have a result. */
  function WeightedSum(results: map<Category, CheckResult>, ws: seq<(Category, nat)>): nat {
    if ws == [] then 0
    else
      var (c, w) := ws[|ws| - 1];
      WeightedSum(results, ws[..|ws| - 1]) + (if c in results then StatusScore(results[c].status) * w else 0)
  }

  /** The sum of the weights of the listed categories that have a result. */
  function WeightSum(results: map<Category, CheckResult>, ws: seq<(Category, nat)>): nat {
    if ws == [] then 0
    else
      var (c, w) := ws[|ws| - 1];
      WeightSum(results, ws[..|ws| - 1]) + (if c in results then w else 0)
  }

  /**
   * The weighted total of four statuses: 100 times the overall score. It is a
   * multiple of 25 in [0, 10000] and is 10000 exactly when every category passes.
   */
  function Total(props: Status, projects: Status, consistency: Status, build: Status): (t: nat)
    ensures t <= 10000
    ensures t % 25 == 0
    ensures t == 10000 <==> props == Pass && projects == Pass && consistency == Pass && build == Pass
  {
    25 * StatusScore(props) + 30 * StatusScore(projects) + 25 * StatusScore(consistency) + 20 * StatusScore(build)
  }

  /** The tier for `total / totalWeight` (0 when no weight), compared without division. */
  function RatingOf(total: nat, totalWeight: nat): (r: Rating)
    ensures r != Unrated
    ensures totalWeight > 0 ==> (r == Excellent <==> total >= 90 * totalWeight)
    ensures totalWeight > 0 ==> (r == Excellent || r == Good <==> total >= 75 * totalWeight)
    ensures totalWeight > 0 ==> (r == Poor <==> total < 50 * totalWeight)
  {
    if totalWeight == 0 then Poor
    else if total >= 90 * totalWeight then Excellent
    else if total >= 75 * totalWeight then Good
    else if total >= 50 * totalWeight then NeedsWork
    else Poor
  }

  /** Tiers from worst to best: POOR, NEEDS_WORK, GOOD, EXCELLENT. */
  function RatingRank(r: Rating): nat {
    match r
    case Unrated => 0
    case Poor => 0
    case NeedsWork => 1
    case Good => 2
    case Excellent => 3
  }

  /** `round(n / d, 1)` in tenths, rounding a half to the even neighbour as Python does on an exact value. */
  function RoundTenths(n: nat, d: nat): (t: nat)
    requires d > 0
    ensures 2 * (t * d) <= 2 * (n * 10) + d
    ensures 2 * (n * 10) <= 2 * (t * d) + d
    ensures 2 * (n * 10 % d) == d ==> t % 2 == 0
  {
    var t := NearestEven(n * 10 / d, n * 10 % d, d);
    TenthsBounds(n * 10, d, t);
    t
  }

  /** `q` or `q + 1`, whichever is nearer to `q + r / d`; on a tie, the even one. */
  function NearestEven(q: nat, r: nat, d: nat): nat {
    if 2 * r < d then q
    else if 2 * r > d then q + 1
    else if q % 2 == 0 then q else q + 1
  }

  /** Rounding `m / d` to the nearer whole number misses by at most half of `d`; a tie goes to the even one. */
  lemma TenthsBounds(m: nat, d: nat, t: nat)
    requires d > 0 && t == NearestEven(m / d, m % d, d)
    ensures 2 * (t * d) <= 2 * m + d && 2 * m <= 2 * (t * d) + d
    ensures 2 * (m % d) == d ==> t % 2 == 0
  {
    var q := m / d;
    var r := m % d;
    assert m == q * d + r;
    if t == q + 1 {
      assert t * d == q * d + d;
    }
  }

  /** The overall result for a results map, as `calculate_overall_score` records it. */
  function OverallFor(results: map<Category, CheckResult>): Overall {
    var total := WeightedSum(results, Weights);
    var totalWeight := WeightSum(results, Weights);
    Overall(RatingOf(total, totalWeight), if totalWeight > 0 then RoundTenths(total, totalWeight) else 0)
  }

  /** All four categories are present in the results. */
  predicate Complete(results: map<Category, CheckResult>) {
    DirectoryPackagesProps in results && ProjectFiles in results && PackageConsistency in results && BuildValidation in results
  }

  /** With all four categories present, the loop's sums are the weighted total and 100. */
  lemma WeightedSumIsTotal(results: map<Category, CheckResult>)
    requires Complete(results)
    ensures WeightSum(results, Weights) == 100
    ensures WeightedSum(results, Weights) == Total(results[DirectoryPackagesProps].status, results[ProjectFiles].status, results[PackageConsistency].status, results[BuildValidation].status)
  {
    var w: seq<(Category, nat)> := Weights;
    assert w[..4] == w && w[..4][..3] == w[..3] && w[..3][..2] == w[..2] && w[..2][..1] == w[..1] && |w[..1][..0]| == 0;
    assert WeightSum(results, w[..1]) == 25;
    assert WeightSum(results, w[..2]) == 55;
    assert WeightSum(results, w[..3]) == 80;
    assert WeightedSum(results, w[..1]) == 25 * StatusScore(results[DirectoryPackagesProps].status);
    assert WeightedSum(results, w[..2]) == WeightedSum(results, w[..1]) + 30 * StatusScore(results[ProjectFiles].status);
    assert WeightedSum(results, w[..3]) == WeightedSum(results, w[..2]) + 25 * StatusScore(results[PackageConsistency].status);
  }

  /** Rounding to one decimal never moves a reachable score across 90, 75 or 50. */
  lemma {:induction false} RoundingKeepsThresholds(total: nat)
    requires total <= 10000 && total % 25 == 0
    ensures RoundTenths(total, 100) >= 900 <==> total >= 9000
    ensures RoundTenths(total, 100) >= 750 <==> total >= 7500
    ensures RoundTenths(total, 100) >= 500 <==> total >= 5000
  {
    var q := total / 100;
    var r := total % 100;
    assert total == 100 * q + r;
    assert r == 0 || r == 25 || r == 50 || r == 75;
    assert total * 10 / 100 == 10 * q + r / 10;
    assert total * 10 % 100 == (r * 10) % 100;
    if r == 25 {
      assert RoundTenths(total, 100) == 10 * q + 2;
    } else if r == 75 {
      assert RoundTenths(total, 100) == 10 * q + 8;
    } else if r == 50 {
      assert RoundTenths(total, 100) == 10 * q + 5;
    } else {
      assert RoundTenths(total, 100) == 10 * q;
    }
  }

  /** Improving any category's status (FAIL, SKIP, UNKNOWN below WARN below PASS) never lowers the total nor the tier. */
  lemma ImprovementNeverHurts(a1: Status, a2: Status, a3: Status, a4: Status, b1: Status, b2: Status, b3: Status, b4: Status)
    requires StatusScore(a1) <= StatusScore(b1) && StatusScore(a2) <= StatusScore(b2)
    requires StatusScore(a3) <= StatusScore(b3) && StatusScore(a4) <= StatusScore(b4)
    ensures Total(a1, a2, a3, a4) <= Total(b1, b2, b3, b4)
    ensures RatingRank(RatingOf(Total(a1, a2, a3, a4), 100)) <= RatingRank(RatingOf(Total(b1, b2, b3, b4), 100))
  {
  }

  /** A skipped build scores 0, so the total is at most 8000 and the tier is never EXCELLENT. */
  lemma SkippedBuildCapsScore(props: Status, projects: Status, consistency: Status)
    ensures Total(props, projects, consistency, Skip) <= 8000
    ensures RatingOf(Total(props, projects, consistency, Skip), 100) != Excellent
  {
  }

  /** The recommendations the report lists, in order. */
  datatype Recommendation =
    | FixPropsFile
    | RemoveVersionAttributes
    | DeletePackagesConfig
    | AddMissingPackageVersions
    | ResolveBuildErrors
    | MigrationComplete
    | CleanupUnusedEntries
    | AddressWarnings
    | FocusOnFailures

  /**
   * One recommendation per failing category, then one closing recommendation
   * chosen by the rounded score: at least 90, at least 75, or below.
   */
  function Recommendations(props: Status, projects: Status, consistency: Status, build: Status, scoreTenths: nat): (r: seq<Recommendation>)
    ensures FixPropsFile in r <==> props == Fail
    ensures RemoveVersionAttributes in r <==> projects == Fail
    ensures DeletePackagesConfig in r <==> projects == Fail
    ensures AddMissingPackageVersions in r <==> consistency == Fail
    ensures ResolveBuildErrors in r <==> build == Fail
    ensures MigrationComplete in r <==> scoreTenths >= 900
    ensures AddressWarnings in r <==> 750 <= scoreTenths < 900
    ensures FocusOnFailures in r <==> scoreTenths < 750
  {
    var failures := FailureRecommendations(props, projects, consistency, build);
    var closing := ClosingRecommendations(scoreTenths);
    assert forall x :: x in failures + closing <==> x in failures || x in closing;
    failures + closing
  }

  /** One recommendation per failing category (two for the project files), in category order. */
  function FailureRecommendations(props: Status, projects: Status, consistency: Status, build: Status): (r: seq<Recommendation>)
    ensures FixPropsFile in r <==> props == Fail
    ensures RemoveVersionAttributes in r <==> projects == Fail
    ensures DeletePackagesConfig in r <==> projects == Fail
    ensures AddMissingPackageVersions in r <==> consistency == Fail
    ensures ResolveBuildErrors in r <==> build == Fail
    ensures MigrationComplete !in r && AddressWarnings !in r && FocusOnFailures !in r
  {
    var a := if props == Fail then [FixPropsFile] else [];
    var b := if projects == Fail then [RemoveVersionAttributes, DeletePackagesConfig] else [];
    var c := if consistency == Fail then [AddMissingPackageVersions] else [];
    var d := if build == Fail then [ResolveBuildErrors] else [];
    assert forall x :: x in a + b + c + d <==> x in a || x in b || x in c || x in d;
    a + b + c + d
  }

  /** The closing recommendation, chosen by the rounded score. */
  function ClosingRecommendations(scoreTenths: nat): (r: seq<Recommendation>)
    ensures MigrationComplete in r <==> scoreTenths >= 900
    ensures AddressWarnings in r <==> 750 <= scoreTenths < 900
    ensures FocusOnFailures in r <==> scoreTenths < 750
    ensures forall x :: x in r ==> x == MigrationComplete || x == CleanupUnusedEntries || x == AddressWarnings || x == FocusOnFailures
  {
    if scoreTenths >= 900 then [MigrationComplete, CleanupUnusedEntries]
    else if scoreTenths >= 750 then [AddressWarnings]
    else [FocusOnFailures]
  }

  /** The process exit code for the overall rating: 0 for EXCELLENT or GOOD, 1 otherwise. */
  function ExitCode(r: Rating): (code: int)
    ensures code == 0 <==> r == Excellent || r == Good
    ensures code == 0 || code == 1
  {
    if r == Excellent || r == Good then 0 else 1
  }

  /** What the report carries: the overall entry, each category's result in report order, the recommendations. */
  datatype Report = Report(overall: Overall, categories: seq<(Category, CheckResult)>, recommendations: seq<Recommendation>)

  /** The state of the validator: the results dictionary and the two name sets. */
  class MigrationValidator {
    var results: map<Category, CheckResult>
    var overall: Overall
    var packagesInProps: set<string>
    var packagesInProjects: set<string>
    var projectFiles: seq<string>

    ghost predicate Valid()
      reads this
    {
      Complete(results)
    }

    constructor ()
      ensures Valid()
      ensures results == map[DirectoryPackagesProps := CheckResult(Unknown, []), ProjectFiles := CheckResult(Unknown, []),
                             PackageConsistency := CheckResult(Unknown, []), BuildValidation := CheckResult(Unknown, [])]
      ensures overall == Overall(Unrated, 0)
      ensures packagesInProps == {} && packagesInProjects == {} && projectFiles == []
    {
      results := map[DirectoryPackagesProps := CheckResult(Unknown, []), ProjectFiles := CheckResult(Unknown, []),
                     PackageConsistency := CheckResult(Unknown, []), BuildValidation := CheckResult(Unknown, [])];
      overall := Overall(Unrated, 0);
      packagesInProps, packagesInProjects, projectFiles := {}, {}, [];
    }

    /** Checks the props file; records its result and adds its names to `packagesInProps`. */
    method ValidateDirectoryPackagesProps(file: PropsFile) returns (ok: bool)
      requires Valid()
      modifies this`results, this`packagesInProps
      ensures Valid()
      ensures results == old(results)[DirectoryPackagesProps := PropsResult(file)]
      ensures packagesInProps == old(packagesInProps) + PropsPackages(file)
      ensures ok <==> PropsResult(file).status != Fail
    {
      match file {
        case Missing =>
          results := results[DirectoryPackagesProps := CheckResult(Fail, [PropsFileNotFound])];
          return false;
        case Unparsable =>
          results := results[DirectoryPackagesProps := CheckResult(Fail, [PropsParseError])];
          return false;
        case Parsed(properties, entries) =>
          var managed := false;
          for i := 0 to |properties|
            invariant managed <==> exists p | p in properties[..i] :: p.tag == "ManagePackageVersionsCentrally" && p.text == Some("true")
          {
            assert properties[..i + 1] == properties[..i] + [properties[i]];
            if properties[i].tag == "ManagePackageVersionsCentrally" && properties[i].text == Some("true") {
              managed := true;
            }
          }
          assert properties[..|properties|] == properties;
          var details: seq<Detail> := if managed then [] else [NotManagedCentrally];
          var versions: map<string, string> := map[];
          var duplicates: seq<string> := [];
          for i := 0 to |entries|
            invariant Scan(versions, duplicates) == ScanEntries(entries[..i])
            invariant packagesInProps == old(packagesInProps) + versions.Keys
            invariant results == old(results)
          {
            assert entries[..i + 1][..i] == entries[..i];
            var e := entries[i];
            if Present(e.name) && Present(e.version) {
              if e.name.value in versions {
                duplicates := duplicates + [e.name.value];
              } else {
                versions := versions[e.name.value := e.version.value];
                packagesInProps := packagesInProps + {e.name.value};
              }
            }
          }
          assert entries[..|entries|] == entries;
          if duplicates != [] {
            details := details + [DuplicateEntries(duplicates)];
          }
          details := details + [FoundEntries(|versions|)];
          var status := if duplicates != [] || !managed then (if duplicates == [] then Warn else Fail) else Pass;
          assert ManagedCentrally(properties) == managed;
          assert ScanEntries(entries) == Scan(versions, duplicates);
          assert status == PropsResult(file).status;
          assert details == PropsResult(file).details;
          results := results[DirectoryPackagesProps := CheckResult(status, details)];
          return status != Fail;
      }
    }

    /** Checks every project file; records the result and adds the versionless names to `packagesInProjects`. */
    method ValidateProjectFiles(projects: seq<ProjectFile>) returns (ok: bool)
      requires Valid()
      modifies this`results, this`packagesInProjects, this`projectFiles
      ensures Valid()
      ensures results == old(results)[ProjectFiles := ProjectsResult(projects)]
      ensures packagesInProjects == old(packagesInProjects) + ProjectPackages(projects)
      ensures projectFiles == Names(projects)
      ensures ok <==> ProjectsResult(projects).status == Pass
    {
      projectFiles := Names(projects);
      var issues: seq<Detail> := [];
      for i := 0 to |projects|
        invariant issues == AllIssues(projects[..i])
        invariant packagesInProjects == old(packagesInProjects) + ProjectPackages(projects[..i])
        invariant results == old(results)
        invariant projectFiles == Names(projects)
      {
        assert projects[..i + 1][..i] == projects[..i];
        var found, names := CheckProject(projects[i]);
        packagesInProjects := packagesInProjects + names;
        issues := issues + found;
      }
      assert projects[..|projects|] == projects;
      var result;
      if issues != [] {
        result := CheckResult(Fail, [ValidatedProjects(|projects|)] + issues);
      } else {
        result := CheckResult(Pass, [ValidatedProjects(|projects|), AllProjectsCompliant]);
      }
      assert result == ProjectsResult(projects);
      results := results[ProjectFiles := result];
      return result.status == Pass;
    }

    /** Compares the two name sets and records the consistency result. */
    method ValidatePackageConsistency() returns (ok: bool)
      requires Valid()
      modifies this`results
      ensures Valid()
      ensures results == old(results)[PackageConsistency := ConsistencyResult(packagesInProps, packagesInProjects)]
      ensures ok <==> packagesInProjects <= packagesInProps
    {
      var r := ConsistencyResult(packagesInProps, packagesInProjects);
      assert packagesInProjects - packagesInProps == {} <==> packagesInProjects <= packagesInProps by {
        if packagesInProjects - packagesInProps == {} {
          forall x | x in packagesInProjects ensures x in packagesInProps { assert x !in packagesInProjects - packagesInProps; }
        }
      }
      results := results[PackageConsistency := r];
      ok := r.status != Fail;
    }

    /** Records the build result, from the skip flag or the outcome of restore and build. */
    method ValidateBuild(skip: bool, outcome: BuildOutcome) returns (ok: bool)
      requires Valid()
      modifies this`results
      ensures Valid()
      ensures results == old(results)[BuildValidation := BuildResult(skip, outcome)]
      ensures ok <==> skip || outcome.Built?
    {
      var r := BuildResult(skip, outcome);
      results := results[BuildValidation := r];
      ok := skip || r.status == Pass;
    }

    /** The score loop over the weights table, then the tier and the rounded score. */
    method CalculateOverallScore()
      requires Valid()
      modifies this`overall
      ensures overall == OverallFor(results)
    {
      var total, totalWeight := 0, 0;
      for i := 0 to |Weights|
        invariant total == WeightedSum(results, Weights[..i])
        invariant totalWeight == WeightSum(results, Weights[..i])
      {
        assert Weights[..i + 1][..i] == Weights[..i];
        var (category, weight) := Weights[i];
        if category in results {
          total := total + StatusScore(results[category].status) * weight;
          totalWeight := totalWeight + weight;
        }
      }
      assert Weights[..|Weights|] == Weights;
      var tenths := if totalWeight > 0 then RoundTenths(total, totalWeight) else 0;
      overall := Overall(RatingOf(total, totalWeight), tenths);
    }

    /** Scores the results and assembles the report with its recommendations. */
    method GenerateReport() returns (report: Report)
      requires Valid()
      modifies this`overall
      ensures overall == OverallFor(results)
      ensures report.overall == overall
      ensures report.categories == [(DirectoryPackagesProps, results[DirectoryPackagesProps]), (ProjectFiles, results[ProjectFiles]),
                                    (PackageConsistency, results[PackageConsistency]), (BuildValidation, results[BuildValidation])]
      ensures report.recommendations == Recommendations(results[DirectoryPackagesProps].status, results[ProjectFiles].status,
                                                        results[PackageConsistency].status, results[BuildValidation].status, overall.scoreTenths)
    {
      CalculateOverallScore();
      var categories := [(DirectoryPackagesProps, results[DirectoryPackagesProps]), (ProjectFiles, results[ProjectFiles]),
                         (PackageConsistency, results[PackageConsistency]), (BuildValidation, results[BuildValidation])];
      var recommendations := Recommendations(results[DirectoryPackagesProps].status, results[ProjectFiles].status,
                                             results[PackageConsistency].status, results[BuildValidation].status, overall.scoreTenths);
      report := Report(overall, categories, recommendations);
    }
  }

  /** What the exit code, the tier and the closing recommendation make of four statuses. */
  lemma ScoreConsequences(s1: Status, s2: Status, s3: Status, s4: Status)
    ensures var t := Total(s1, s2, s3, s4);
      && (ExitCode(RatingOf(t, 100)) == 0 <==> t >= 7500)
      && (s4 == Skip ==> RatingOf(t, 100) != Excellent)
      && (MigrationComplete in Recommendations(s1, s2, s3, s4, RoundTenths(t, 100)) <==> RatingOf(t, 100) == Excellent)
  {
    var t := Total(s1, s2, s3, s4);
    RoundingKeepsThresholds(t);
    ClosingFollowsRating(t);
  }

  /** The closing recommendation says the migration is complete exactly when the tier is EXCELLENT. */
  lemma ClosingFollowsRating(t: nat)
    requires t <= 10000 && t % 25 == 0
    ensures MigrationComplete in ClosingRecommendations(RoundTenths(t, 100)) <==> RatingOf(t, 100) == Excellent
  {
    RoundingKeepsThresholds(t);
  }

  /** The four statuses a whole run produces from its inputs. */
  function RunTotal(props: PropsFile, projects: seq<ProjectFile>, skipBuild: bool, build: BuildOutcome): nat {
    Total(PropsResult(props).status, ProjectsResult(projects).status,
          ConsistencyResult(PropsPackages(props), ProjectPackages(projects)).status, BuildResult(skipBuild, build).status)
  }

  /** The four validations of the command, in order, on a fresh validator. */
  method RunChecks(props: PropsFile, projects: seq<ProjectFile>, skipBuild: bool, build: BuildOutcome)
    returns (validator: MigrationValidator)
    ensures fresh(validator) && validator.Valid()
    ensures validator.results[DirectoryPackagesProps] == PropsResult(props)
    ensures validator.results[ProjectFiles] == ProjectsResult(projects)
    ensures validator.results[PackageConsistency] == ConsistencyResult(PropsPackages(props), ProjectPackages(projects))
    ensures validator.results[BuildValidation] == BuildResult(skipBuild, build)
  {
    validator := new MigrationValidator();
    var _ := validator.ValidateDirectoryPackagesProps(props);
    assert validator.packagesInProps == PropsPackages(props);
    var _ := validator.ValidateProjectFiles(projects);
    assert validator.packagesInProjects == ProjectPackages(projects);
    var _ := validator.ValidatePackageConsistency();
    var _ := validator.ValidateBuild(skipBuild, build);
  }

  /**
   * The whole command: the four validations in order, the report, and the exit
   * code, which is 0 exactly when the total reaches 7500 (a score of 75).
   */
  method ValidateMigration(props: PropsFile, projects: seq<ProjectFile>, skipBuild: bool, build: BuildOutcome)
    returns (report: Report, exitCode: int)
    ensures report.overall.rating == RatingOf(RunTotal(props, projects, skipBuild, build), 100)
    ensures report.overall.scoreTenths == RoundTenths(RunTotal(props, projects, skipBuild, build), 100)
    ensures exitCode == 0 <==> RunTotal(props, projects, skipBuild, build) >= 7500
    ensures exitCode == 0 || exitCode == 1
    ensures skipBuild ==> report.overall.rating != Excellent
    ensures MigrationComplete in report.recommendations <==> report.overall.rating == Excellent
  {
    var validator := RunChecks(props, projects, skipBuild, build);
    assert RunTotal(props, projects, skipBuild, build) == Total(PropsResult(props).status, ProjectsResult(projects).status,
      ConsistencyResult(PropsPackages(props), ProjectPackages(projects)).status, BuildResult(skipBuild, build).status);
    report := validator.GenerateReport();
    WeightedSumIsTotal(validator.results);
    ScoreConsequences(PropsResult(props).status, ProjectsResult(projects).status,
      ConsistencyResult(PropsPackages(props), ProjectPackages(projects)).status, BuildResult(skipBuild, build).status);
    exitCode := ExitCode(validator.overall.rating);
  }
}
