/**
 * The package version extractor: it gathers `(package, version)` pairs from parsed
 * `packages.config` and `.csproj` files, sorts packages into categories, resolves packages
 * seen with several versions to the highest one, and lays out a `Directory.Packages.props`.
 *
 * Parsing is not modelled: a file arrives as `Some(elements)` (its `package` or
 * `PackageReference` elements) or as `None` when the XML parser failed.
 */
module PackageVersionExtraction {
  import opened Wrappers
  import opened Xml
  import Strings
  import opened VersionKeys
  import opened PackageCategories
  import opened PropsLayout

  /*
   * Accumulation
   */

  /** The two dictionaries the extractor fills: versions per package and one source entry per occurrence. */
  datatype Tally = Tally(packages: map<string, set<string>>, sources: map<string, seq<string>>)
  {
    /** Both dictionaries know the same packages; each has a version and no fewer source entries than versions. */
    predicate Valid() {
      packages.Keys == sources.Keys
      && forall p :: p in packages ==> 0 < |packages[p]| <= |sources[p]|
    }

    /** `packages[name]` of a `defaultdict(set)`. */
    function VersionsOf(name: string): set<string> {
      if name in packages then packages[name] else {}
    }

    /** `package_sources[name]` of a `defaultdict(list)`. */
    function SourcesOf(name: string): seq<string> {
      if name in sources then sources[name] else []
    }
  }

  /** An element contributes a pair only when both its name and its version are non-empty. */
  predicate Recorded(e: Element) {
    Present(e.name) && Present(e.version)
  }

  /** Adds one version of a package and one source entry for it. */
  function Record(t: Tally, name: string, version: string, source: string): Tally {
    Tally(t.packages[name := t.VersionsOf(name) + {version}], t.sources[name := t.SourcesOf(name) + [source]])
  }

  /** The tally after the elements of one file, taken in document order. */
  function Collect(t: Tally, file: string, elements: seq<Element>): Tally
    decreases |elements|
  {
    if elements == [] then t
    else
      var before := Collect(t, file, elements[..|elements| - 1]);
      var e := elements[|elements| - 1];
      if Recorded(e) then Record(before, e.name.value, e.version.value, file) else before
  }

  /** The number of recorded elements that name `name`. */
  function Occurrences(elements: seq<Element>, name: string): nat
    decreases |elements|
  {
    if elements == [] then 0
    else
      var e := elements[|elements| - 1];
      Occurrences(elements[..|elements| - 1], name) + (if Recorded(e) && e.name.value == name then 1 else 0)
  }

  /** The same file named `n` times. */
  function Repeat(file: string, n: nat): (r: seq<string>)
    ensures |r| == n && forall k :: 0 <= k < n ==> r[k] == file
  {
    seq(n, _ => file)
  }

  lemma RecordKeepsValid(t: Tally, name: string, version: string, source: string)
    requires t.Valid()
    ensures Record(t, name, version, source).Valid()
  {
    var vs := t.VersionsOf(name);
    if version !in vs {
      assert |vs + {version}| == |vs| + 1;
    } else {
      assert vs + {version} == vs;
    }
  }

  lemma {:induction false} CollectKeepsValid(t: Tally, file: string, elements: seq<Element>)
    requires t.Valid()
    decreases |elements|
    ensures Collect(t, file, elements).Valid()
  {
    if elements != [] {
      var e := elements[|elements| - 1];
      CollectKeepsValid(t, file, elements[..|elements| - 1]);
      if Recorded(e) {
        RecordKeepsValid(Collect(t, file, elements[..|elements| - 1]), e.name.value, e.version.value, file);
      }
    }
  }

  /** The element gives version `v` of package `name`. */
  predicate Supplies(e: Element, name: string, v: string) {
    Recorded(e) && e.name.value == name && e.version.value == v
  }

  /** After a file, a package's versions are the old ones plus those of the recorded elements naming it. */
  lemma {:induction false} CollectVersions(t: Tally, file: string, elements: seq<Element>, name: string)
    decreases |elements|
    ensures forall v :: v in Collect(t, file, elements).VersionsOf(name) <==>
      v in t.VersionsOf(name) || exists k :: 0 <= k < |elements| && Supplies(elements[k], name, v)
  {
    if elements != [] {
      var n := |elements| - 1;
      var prefix := elements[..n];
      CollectVersions(t, file, prefix, name);
      var before := Collect(t, file, prefix);
      var e := elements[n];
      assert Collect(t, file, elements) == if Recorded(e) then Record(before, e.name.value, e.version.value, file) else before;
      forall v
        ensures v in Collect(t, file, elements).VersionsOf(name) <==> v in before.VersionsOf(name) || Supplies(e, name, v)
      {
      }
      forall v | exists k :: 0 <= k < |elements| && Supplies(elements[k], name, v)
        ensures Supplies(elements[n], name, v) || exists k :: 0 <= k < n && Supplies(prefix[k], name, v)
      {
        var k :| 0 <= k < |elements| && Supplies(elements[k], name, v);
        if k < n {
          assert prefix[k] == elements[k];
        }
      }
      forall v, k | 0 <= k < n && Supplies(prefix[k], name, v)
        ensures Supplies(elements[k], name, v)
      {
        assert elements[k] == prefix[k];
      }
    }
  }

  /** After a file, a package's sources gain the file once per recorded element naming it. */
  lemma {:induction false} CollectSources(t: Tally, file: string, elements: seq<Element>, name: string)
    decreases |elements|
    ensures Collect(t, file, elements).SourcesOf(name) == t.SourcesOf(name) + Repeat(file, Occurrences(elements, name))
  {
    if elements != [] {
      var n := |elements| - 1;
      CollectSources(t, file, elements[..n], name);
      var e := elements[n];
      if Recorded(e) && e.name.value == name {
        var before := Occurrences(elements[..n], name);
        assert Repeat(file, before) + [file] == Repeat(file, before + 1);
      }
    }
  }

  /** A file adds exactly the packages named by its recorded elements. */
  lemma {:induction false} CollectPackages(t: Tally, file: string, elements: seq<Element>, name: string)
    requires t.Valid()
    ensures name in Collect(t, file, elements).packages <==> name in t.packages || Occurrences(elements, name) > 0
  {
    CollectKeepsValid(t, file, elements);
    CollectSources(t, file, elements, name);
  }

  /*
   * Conflicts, resolutions and the report
   */

  /** The packages seen with more than one version. */
  function ConflictNames(packages: map<string, set<string>>): set<string> {
    set p | p in packages && |packages[p]| > 1
  }

  /** `conflicts` has exactly the packages with several versions, each with the list of its versions. */
  ghost predicate IsConflicts(packages: map<string, set<string>>, conflicts: map<string, seq<string>>) {
    conflicts.Keys == ConflictNames(packages)
    && forall p :: p in conflicts ==> Strings.Lists(conflicts[p], packages[p])
  }

  /** `resolutions` gives every package one of its versions, and none with a larger key. */
  predicate IsResolution(packages: map<string, set<string>>, resolutions: map<string, string>) {
    resolutions.Keys == packages.Keys
    && forall p :: p in resolutions ==> IsHighest(resolutions[p], packages[p])
  }

  /** `conflicts` as `IsConflicts` says, for the packages in `done` only. */
  ghost predicate ConflictsAmong(packages: map<string, set<string>>, done: set<string>, conflicts: map<string, seq<string>>)
  {
    conflicts.Keys == (set p | p in packages && p in done && |packages[p]| > 1)
    && forall p :: p in conflicts ==> Strings.Lists(conflicts[p], packages[p])
  }

  /** `resolutions` as `IsResolution` says, for the packages in `done` only. */
  ghost predicate ResolvedAmong(packages: map<string, set<string>>, done: set<string>, resolutions: map<string, string>)
  {
    resolutions.Keys == packages.Keys * done
    && forall p :: p in resolutions ==> IsHighest(resolutions[p], packages[p])
  }

  /** Handling one more package keeps both partial descriptions. */
  lemma ResolvedOneMore(packages: map<string, set<string>>, done: set<string>, conflicts: map<string, seq<string>>,
                        resolutions: map<string, string>, name: string, list: seq<string>, chosen: string)
    requires ConflictsAmong(packages, done, conflicts) && ResolvedAmong(packages, done, resolutions)
    requires name in packages && Strings.Lists(list, packages[name]) && IsHighest(chosen, packages[name])
    ensures ConflictsAmong(packages, done + {name}, if |packages[name]| > 1 then conflicts[name := list] else conflicts)
    ensures ResolvedAmong(packages, done + {name}, resolutions[name := chosen])
  {
    var next := if |packages[name]| > 1 then conflicts[name := list] else conflicts;
    assert next.Keys == (set p | p in packages && p in done + {name} && |packages[p]| > 1);
  }

  /** Once every package is handled, the partial descriptions are the whole ones. */
  lemma ResolvedAll(packages: map<string, set<string>>, done: set<string>, conflicts: map<string, seq<string>>,
                    resolutions: map<string, string>)
    requires done == packages.Keys
    requires ConflictsAmong(packages, done, conflicts) && ResolvedAmong(packages, done, resolutions)
    ensures IsConflicts(packages, conflicts) && IsResolution(packages, resolutions)
  {
    assert conflicts.Keys == ConflictNames(packages);
  }

  /** Every package has a version, and its versions can be sorted by key. */
  ghost predicate Resolvable(packages: map<string, set<string>>) {
    forall p :: p in packages ==> |packages[p]| > 0 && AllComparable(packages[p])
  }

  /** The loop of `resolve_version_conflicts` over the packages. */
  method ResolveAll(packages: map<string, set<string>>) returns (conflicts: map<string, seq<string>>, resolutions: map<string, string>)
    requires Resolvable(packages)
    ensures IsConflicts(packages, conflicts)
    ensures IsResolution(packages, resolutions)
  {
    conflicts := map[];
    resolutions := map[];
    var rest := packages.Keys;
    while rest != {}
      invariant rest <= packages.Keys
      invariant ConflictsAmong(packages, packages.Keys - rest, conflicts)
      invariant ResolvedAmong(packages, packages.Keys - rest, resolutions)
      decreases |rest|
    {
      var name :| name in rest;
      var list, chosen := Resolve(packages[name]);
      ResolvedOneMore(packages, packages.Keys - rest, conflicts, resolutions, name, list, chosen);
      conflicts := if |packages[name]| > 1 then conflicts[name := list] else conflicts;
      resolutions := resolutions[name := chosen];
      assert packages.Keys - (rest - {name}) == (packages.Keys - rest) + {name};
      rest := rest - {name};
    }
    assert packages.Keys - rest == packages.Keys;
    ResolvedAll(packages, packages.Keys, conflicts, resolutions);
  }

  /** One package's entry: its versions as a list, and the last of them after sorting by key (the only one, when there is one). */
  method Resolve(versions: set<string>) returns (list: seq<string>, chosen: string)
    requires |versions| > 0 && AllComparable(versions)
    ensures Strings.Lists(list, versions) && IsHighest(chosen, versions)
  {
    list := Strings.ListOf(versions);
    if |versions| > 1 {
      HighestIsHighest(list);
      assert (set v | v in list) == versions;
      chosen := Highest(list);
    } else {
      chosen := list[0];
      forall w | w in versions
        ensures !KeyLess(Key(chosen), Key(w))
      {
        assert w in list;
        KeyLessIrreflexive(Key(w));
      }
    }
  }

  /** One package's part of the conflicts section. */
  method ReportOne(versions: set<string>, sources: seq<string>, resolution: string) returns (entry: ConflictReport)
    requires IsHighest(resolution, versions)
    ensures ConflictReported(entry, versions, sources)
    ensures entry.recommended == resolution
  {
    var sorted := Strings.SortNames(versions);
    entry := ConflictReport(sorted, |sources|, resolution);
  }

  /** The conflicts section of the report: for each conflicting package its sorted versions, its number of sources and the resolution. */
  method ReportConflicts(packages: map<string, set<string>>, sources: map<string, seq<string>>,
                         conflicts: map<string, seq<string>>, resolutions: map<string, string>)
    returns (reported: map<string, ConflictReport>)
    requires packages.Keys == sources.Keys
    requires conflicts.Keys == ConflictNames(packages) && IsResolution(packages, resolutions)
    ensures reported.Keys == ConflictNames(packages)
    ensures forall p :: p in reported ==> ConflictReported(reported[p], packages[p], sources[p])
    ensures forall p :: p in reported ==> reported[p].recommended == resolutions[p]
  {
    reported := map[];
    var rest := conflicts.Keys;
    while rest != {}
      invariant rest <= conflicts.Keys
      invariant reported.Keys == conflicts.Keys - rest
      invariant ReportsAll(reported, packages, sources, resolutions)
      decreases |rest|
    {
      var name :| name in rest;
      assert name in packages && name in sources && name in resolutions;
      var entry := ReportOne(packages[name], sources[name], resolutions[name]);
      ReportsAllAdd(reported, packages, sources, resolutions, name, entry);
      reported := reported[name := entry];
      rest := rest - {name};
    }
  }

  /** Every reported package is reported as `ReportOne` says, recommending its own resolution. */
  ghost predicate ReportsAll(reported: map<string, ConflictReport>, packages: map<string, set<string>>,
                             sources: map<string, seq<string>>, resolutions: map<string, string>)
  {
    forall p :: p in reported ==>
      p in packages && p in sources && p in resolutions
      && ConflictReported(reported[p], packages[p], sources[p]) && reported[p].recommended == resolutions[p]
  }

  lemma ReportsAllAdd(reported: map<string, ConflictReport>, packages: map<string, set<string>>,
                      sources: map<string, seq<string>>, resolutions: map<string, string>,
                      name: string, entry: ConflictReport)
    requires ReportsAll(reported, packages, sources, resolutions)
    requires name in packages && name in sources && name in resolutions
    requires ConflictReported(entry, packages[name], sources[name]) && entry.recommended == resolutions[name]
    ensures ReportsAll(reported[name := entry], packages, sources, resolutions)
  {
  }

  /** The category section of the report: each category, alphabetically, with its number of packages. */
  method CountCategories(names: set<string>) returns (counts: seq<(string, nat)>)
    ensures counts == CategoryCounts(names)
  {
    var groups := GroupByCategory(names);
    var categories := Strings.SortNames(groups.Keys);
    counts := [];
    for i := 0 to |categories|
      invariant counts == CountsFor(names, categories[..i])
    {
      GroupCounted(groups, names, categories, i);
      CountsForStep(names, categories, i);
      counts := counts + [(categories[i], |groups[categories[i]]|)];
    }
    assert categories[..|categories|] == categories;
  }

  lemma GroupCounted(groups: map<string, set<string>>, names: set<string>, categories: seq<string>, i: nat)
    requires Grouped(groups, names) && categories == Strings.Sorted(groups.Keys) && i < |categories|
    ensures categories[i] in groups && |groups[categories[i]]| == |NamesIn(names, categories[i])|
  {
    assert categories[i] in categories;
  }

  lemma CountsForStep(names: set<string>, categories: seq<string>, i: nat)
    requires i < |categories|
    ensures CountsFor(names, categories[..i + 1])
         == CountsFor(names, categories[..i]) + [(categories[i], |NamesIn(names, categories[i])|)]
  {
    assert categories[..i + 1] == categories[..i] + [categories[i]];
    CountsForAppend(names, categories[..i], categories[i]);
  }

  /** One more category adds its row at the end. */
  lemma CountsForAppend(names: set<string>, categories: seq<string>, category: string)
    ensures CountsFor(names, categories + [category])
         == CountsFor(names, categories) + [(category, |NamesIn(names, category)|)]
  {
    var a := CountsFor(names, categories + [category]);
    var b := CountsFor(names, categories) + [(category, |NamesIn(names, category)|)];
    forall k | 0 <= k < |a|
      ensures a[k] == b[k]
    {
      if k < |categories| {
        assert (categories + [category])[k] == categories[k];
      }
    }
  }

  /** One category's item group, its names sorted. */
  method AddGroup(resolutions: map<string, string>, groups: map<string, set<string>>, category: string)
    returns (lines: seq<string>)
    requires Grouped(groups, resolutions.Keys)
    requires category in groups
    ensures lines == GroupLines(category, Group(resolutions, category))
  {
    var names := Strings.SortNames(groups[category]);
    assert forall k :: 0 <= k < |names| ==> names[k] in groups[category];
    lines := GroupLinesOf(category, names, resolutions);
  }

  /** The sorted category names with `Other` moved to the end are the file's category order. */
  lemma OrderOfGroups(names: set<string>, groups: map<string, set<string>>, categories: seq<string>)
    requires Grouped(groups, names) && categories == Strings.Sorted(groups.Keys)
    ensures CategoryOrder(names) == Without(categories, Other) + (if Other in groups then [Other] else [])
  {
  }

  /** The text of `Directory.Packages.props` for the resolved versions: the categories in order, `Other` last, joined by newlines. */
  method PropsContent(resolutions: map<string, string>) returns (content: string)
    ensures content == Strings.Join(PropsLines(resolutions), "\n")
  {
    var groups := GroupByCategory(resolutions.Keys);
    var categories := Strings.SortNames(groups.Keys);
    var body: seq<string> := [];
    ghost var done: seq<string> := [];
    var i := 0;
    while i < |categories|
      invariant 0 <= i <= |categories|
      invariant forall k :: 0 <= k < |categories| ==> categories[k] in groups
      invariant done == Without(categories[..i], Other)
      invariant body == GroupsLines(resolutions, done)
    {
      var category := categories[i];
      WithoutPrefix(categories, i, Other);
      if category != Other {
        var group := AddGroup(resolutions, groups, category);
        GroupsLinesAppend(resolutions, done, category);
        body := body + group;
        done := done + [category];
      }
      i := i + 1;
    }
    assert categories[..i] == categories;
    OrderOfGroups(resolutions.Keys, groups, categories);
    if Other in groups {
      var group := AddGroup(resolutions, groups, Other);
      GroupsLinesAppend(resolutions, done, Other);
      body := body + group;
      done := done + [Other];
    }
    assert done == CategoryOrder(resolutions.Keys);
    var lines := Header + body + [ProjectClose];
    assert lines == PropsLines(resolutions);
    content := Strings.Join(lines, "\n");
  }

  /** What the report says about one package with several versions. */
  datatype ConflictReport = ConflictReport(versions: seq<string>, usedIn: nat, recommended: string)

  /** The counts and conflicts of the extraction report; banners and wording are left out. */
  datatype ExtractionReport = ExtractionReport(
    uniquePackages: nat,
    conflictCount: nat,
    conflicts: map<string, ConflictReport>,
    categoryCounts: seq<(string, nat)>)

  /**
   * A conflict is reported with its versions in string order, the number of source entries of
   * the package (the same number on every version's line), and the resolution.
   */
  ghost predicate ConflictReported(r: ConflictReport, versions: set<string>, sources: seq<string>) {
    r.versions == Strings.Sorted(versions) && r.usedIn == |sources| && IsHighest(r.recommended, versions)
  }

  /** The category rows for the given categories: each with its number of packages. */
  function CountsFor(names: set<string>, categories: seq<string>): (rows: seq<(string, nat)>)
    ensures |rows| == |categories|
    ensures forall k :: 0 <= k < |categories| ==> rows[k] == (categories[k], |NamesIn(names, categories[k])|)
  {
    seq(|categories|, k requires 0 <= k < |categories| => (categories[k], |NamesIn(names, categories[k])|))
  }

  /** The category rows of the report: categories in alphabetical order. */
  ghost function CategoryCounts(names: set<string>): seq<(string, nat)> {
    CountsFor(names, Strings.Sorted(CategoriesOf(names)))
  }

  function SumCounts(rows: seq<(string, nat)>): nat
    decreases |rows|
  {
    if rows == [] then 0 else SumCounts(rows[..|rows| - 1]) + rows[|rows| - 1].1
  }

  /** The packages whose category is one of `categories`. */
  function NamesInAny(names: set<string>, categories: seq<string>): set<string> {
    set p | p in names && Categorize(p) in categories
  }

  lemma {:induction false} CountsForAddUp(names: set<string>, categories: seq<string>)
    requires Strings.Distinct(categories)
    decreases |categories|
    ensures SumCounts(CountsFor(names, categories)) == |NamesInAny(names, categories)|
  {
    if categories != [] {
      var n := |categories| - 1;
      var front, c := categories[..n], categories[n];
      assert categories == front + [c];
      assert Strings.Distinct(front) && c !in front;
      CountsForAppend(names, front, c);
      SumCountsAppend(CountsFor(names, front), (c, |NamesIn(names, c)|));
      CountsForAddUp(names, front);
      NamesInAnyAppend(names, front, c);
    }
  }

  lemma SumCountsAppend(rows: seq<(string, nat)>, row: (string, nat))
    ensures SumCounts(rows + [row]) == SumCounts(rows) + row.1
  {
    assert (rows + [row])[..|rows|] == rows;
  }

  /** A category not yet listed adds its own packages, which no listed category has. */
  lemma NamesInAnyAppend(names: set<string>, categories: seq<string>, category: string)
    requires category !in categories
    ensures |NamesInAny(names, categories + [category])| == |NamesInAny(names, categories)| + |NamesIn(names, category)|
  {
    assert NamesInAny(names, categories + [category]) == NamesInAny(names, categories) + NamesIn(names, category);
    assert NamesInAny(names, categories) !! NamesIn(names, category);
  }

  /** The category counts of the report add up to the number of unique packages. */
  lemma CategoryCountsAddUp(names: set<string>)
    ensures SumCounts(CategoryCounts(names)) == |names|
  {
    var sorted := Strings.Sorted(CategoriesOf(names));
    forall a, b | 0 <= a < b < |sorted|
      ensures sorted[a] != sorted[b]
    {
      Strings.LessIrreflexive(sorted[a]);
    }
    CountsForAddUp(names, sorted);
    assert NamesInAny(names, sorted) == names;
  }



  /** `groups` maps each category of `names` to its packages among `names`. */
  ghost predicate Grouped(groups: map<string, set<string>>, names: set<string>) {
    groups.Keys == CategoriesOf(names) && forall c :: c in groups ==> groups[c] == NamesIn(names, c)
  }

  /** A category with no group has no packages. */
  lemma UngroupedIsEmpty(groups: map<string, set<string>>, names: set<string>, category: string)
    requires Grouped(groups, names) && category !in groups
    ensures NamesIn(names, category) == {}
  {
    forall p | p in names
      ensures Categorize(p) != category
    {
      assert Categorize(p) in CategoriesOf(names);
    }
  }

  /** The grouping after adding `name` to the group of its category. */
  function AddToGroup(groups: map<string, set<string>>, name: string): map<string, set<string>> {
    var category := Categorize(name);
    groups[category := (if category in groups then groups[category] else {}) + {name}]
  }

  /** Appending one more name to its category's group keeps the grouping exact. */
  lemma GroupedAdd(groups: map<string, set<string>>, names: set<string>, name: string)
    requires Grouped(groups, names)
    ensures Grouped(AddToGroup(groups, name), names + {name})
  {
    var next := AddToGroup(groups, name);
    CategoriesOfAdd(names, name);
    assert next.Keys == groups.Keys + {Categorize(name)};
    forall c | c in next
      ensures next[c] == NamesIn(names + {name}, c)
    {
      GroupedAddOne(groups, names, name, c);
    }
  }

  lemma GroupedAddOne(groups: map<string, set<string>>, names: set<string>, name: string, c: string)
    requires Grouped(groups, names) && c in AddToGroup(groups, name)
    ensures AddToGroup(groups, name)[c] == NamesIn(names + {name}, c)
  {
    NamesInAdd(names, name, c);
    if c !in groups {
      UngroupedIsEmpty(groups, names, c);
    }
  }

  lemma NothingGrouped(names: set<string>)
    ensures Grouped(map[], names - names)
  {
    assert names - names == {};
    assert CategoriesOf({}) == {};
  }

  lemma MoveOne(names: set<string>, rest: set<string>, name: string)
    requires name in rest && rest <= names
    ensures (names - rest) + {name} == names - (rest - {name})
  {
  }

  /** The `defaultdict(list)` of package names per category, as sets (the names are distinct). */
  method GroupByCategory(names: set<string>) returns (groups: map<string, set<string>>)
    ensures Grouped(groups, names)
  {
    groups := map[];
    var rest := names;
    NothingGrouped(names);
    while rest != {}
      invariant rest <= names
      invariant Grouped(groups, names - rest)
      decreases |rest|
    {
      var name :| name in rest;
      GroupedAdd(groups, names - rest, name);
      groups := AddToGroup(groups, name);
      MoveOne(names, rest, name);
      rest := rest - {name};
    }
  }

  /** The lines of one item group: the opening tag, one `PackageVersion` line per name, the closing tag, a blank line. */
  method GroupLinesOf(category: string, names: seq<string>, resolutions: map<string, string>) returns (lines: seq<string>)
    requires forall k :: 0 <= k < |names| ==> names[k] in resolutions
    ensures lines == GroupLines(category, EntriesFor(resolutions, names))
  {
    lines := [ItemGroupOpen(category)];
    var entries := EntriesFor(resolutions, names);
    var i := 0;
    while i < |names|
      invariant 0 <= i <= |names|
      invariant lines == [ItemGroupOpen(category)] + EntryLines(entries[..i])
    {
      lines := lines + [PackageVersionLine(names[i], resolutions[names[i]])];
      assert entries[..i + 1] == entries[..i] + [entries[i]];
      i := i + 1;
    }
    assert entries[..i] == entries;
    lines := lines + [ItemGroupClose, ""];
  }

  /** The extractor's state: `packages` (a `defaultdict(set)`) and `package_sources` (a `defaultdict(list)`). */
  class PackageVersionExtractor {
    var packages: map<string, set<string>>
    var packageSources: map<string, seq<string>>

    function State(): Tally
      reads this
    {
      Tally(packages, packageSources)
    }

    predicate Valid()
      reads this
    {
      State().Valid()
    }

    constructor()
      ensures Valid() && packages == map[] && packageSources == map[]
    {
      packages := map[];
      packageSources := map[];
    }

    /** Adds one version of a package and one source entry for it. */
    method Add(name: string, version: string, source: string)
      requires Valid()
      modifies this
      ensures Valid()
      ensures State() == Record(old(State()), name, version, source)
    {
      RecordKeepsValid(State(), name, version, source);
      var versions := if name in packages then packages[name] else {};
      var sources := if name in packageSources then packageSources[name] else [];
      packages := packages[name := versions + {version}];
      packageSources := packageSources[name := sources + [source]];
    }

    /** The loop over a parsed file's elements. */
    method ExtractElements(file: string, elements: seq<Element>)
      requires Valid()
      modifies this
      ensures Valid()
      ensures State() == Collect(old(State()), file, elements)
    {
      var i := 0;
      while i < |elements|
        invariant 0 <= i <= |elements|
        invariant Valid()
        invariant State() == Collect(old(State()), file, elements[..i])
      {
        var e := elements[i];
        assert elements[..i + 1][..i] == elements[..i];
        if Present(e.name) && Present(e.version) {
          Add(e.name.value, e.version.value, file);
        }
        i := i + 1;
      }
      assert elements[..i] == elements;
    }

    /** Records every `package` element of a `packages.config` with both `id` and `version`; a parse error changes nothing. */
    method ExtractFromPackagesConfig(configFile: string, parsed: Option<seq<Element>>)
      requires Valid()
      modifies this
      ensures Valid()
      ensures parsed.None? ==> State() == old(State())
      ensures parsed.Some? ==> State() == Collect(old(State()), configFile, parsed.value)
    {
      if parsed.Some? {
        ExtractElements(configFile, parsed.value);
      }
    }

    /** Records every `PackageReference` of a project file with both `Include` and `Version`; a parse error changes nothing. */
    method ExtractFromCsproj(csprojFile: string, parsed: Option<seq<Element>>)
      requires Valid()
      modifies this
      ensures Valid()
      ensures parsed.None? ==> State() == old(State())
      ensures parsed.Some? ==> State() == Collect(old(State()), csprojFile, parsed.value)
    {
      if parsed.Some? {
        ExtractElements(csprojFile, parsed.value);
      }
    }
  
    /** Every package's versions can be ordered by key without a `TypeError`. */
    predicate Comparable()
      reads this
    {
      forall p :: p in packages ==> AllComparable(packages[p])
    }

    /** `resolve_version_conflicts`: the packages with several versions, and the highest version of every package. */
    method ResolveVersionConflicts() returns (conflicts: map<string, seq<string>>, resolutions: map<string, string>)
      requires Valid() && Comparable()
      ensures IsConflicts(packages, conflicts)
      ensures IsResolution(packages, resolutions)
    {
      assert Resolvable(packages);
      conflicts, resolutions := ResolveAll(packages);
    }

    /** `generate_directory_packages_props` without the file write: the props text and the conflicts. */
    method GenerateDirectoryPackagesProps() returns (content: string, conflicts: map<string, seq<string>>, ghost resolutions: map<string, string>)
      requires Valid() && Comparable()
      ensures IsConflicts(packages, conflicts) && IsResolution(packages, resolutions)
      ensures content == Strings.Join(PropsLines(resolutions), "\n")
    {
      var chosen;
      conflicts, chosen := ResolveVersionConflicts();
      resolutions := chosen;
      content := PropsContent(chosen);
    }

    /** `generate_report`: the unique-package count, the conflicts and the package count of every category. */
    method GenerateReport() returns (report: ExtractionReport)
      requires Valid() && Comparable()
      ensures report.uniquePackages == |packages|
      ensures report.conflictCount == |ConflictNames(packages)|
      ensures report.conflicts.Keys == ConflictNames(packages)
      ensures forall p :: p in report.conflicts ==> ConflictReported(report.conflicts[p], packages[p], packageSources[p])
      ensures report.categoryCounts == CategoryCounts(packages.Keys)
    {
      var conflicts, resolutions := ResolveVersionConflicts();
      var reported := ReportConflicts(packages, packageSources, conflicts, resolutions);
      var counts := CountCategories(packages.Keys);
      assert |conflicts| == |conflicts.Keys|;
      report := ExtractionReport(|packages|, |conflicts|, reported, counts);
    }
  }
}
