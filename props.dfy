/**
 * The layout of the `Directory.Packages.props` the extractor generates from the resolved
 * version of every package: a fixed header, one item group per category (categories in
 * alphabetical order with `Other` last, packages by name inside a group), and the closing tag.
 */
module PropsLayout {
  import Strings
  import opened PackageCategories

  /** The property that turns central package management on. */
  const ManageCentrally: string := "    <ManagePackageVersionsCentrally>" + "true" + "</ManagePackageVersionsCentrally>"

  const Header: seq<string> := ["<Project>", "  <PropertyGroup>", ManageCentrally, "  </PropertyGroup>", ""]

  const ProjectClose: string := "</Project>"

  const ItemGroupClose: string := "  </ItemGroup>"

  function ItemGroupOpen(category: string): string {
    "  <ItemGroup Label=\"" + category + "\">"
  }

  const PackageVersionStart: string := "    <PackageVersion Include=\""

  function PackageVersionLine(name: string, version: string): string {
    PackageVersionStart + name + "\" Version=\"" + version + "\" />"
  }

  /** One `PackageVersion` entry: a package and its resolved version. */
  datatype Entry = Entry(name: string, version: string)

  /** The packages of one category. */
  function NamesIn(names: set<string>, category: string): set<string> {
    set p | p in names && Categorize(p) == category
  }

  /** The categories that have packages. */
  function CategoriesOf(names: set<string>): set<string> {
    set p | p in names :: Categorize(p)
  }

  /** Adding one name adds its category. */
  lemma CategoriesOfAdd(names: set<string>, name: string)
    ensures CategoriesOf(names + {name}) == CategoriesOf(names) + {Categorize(name)}
  {
  }

  /** Adding one name adds it to its own category's packages only. */
  lemma NamesInAdd(names: set<string>, name: string, category: string)
    ensures NamesIn(names + {name}, category) == NamesIn(names, category) + (if category == Categorize(name) then {name} else {})
  {
  }

  /** `s` without the occurrences of `x`, order kept. */
  function Without(s: seq<string>, x: string): (r: seq<string>)
    decreases |s|
    ensures forall y :: y in r <==> y in s && y != x
  {
    if s == [] then []
    else
      var n := |s| - 1;
      assert forall y :: y in s <==> y in s[..n] || y == s[n] by {
        assert s == s[..n] + [s[n]];
      }
      Without(s[..n], x) + (if s[n] == x then [] else [s[n]])
  }

  /** Extending the prefix by one element extends `Without` by that element unless it is `x`. */
  lemma WithoutPrefix(s: seq<string>, i: nat, x: string)
    requires i < |s|
    ensures Without(s[..i + 1], x) == Without(s[..i], x) + (if s[i] == x then [] else [s[i]])
  {
    assert s[..i + 1][..i] == s[..i];
  }

  lemma {:induction false} WithoutSorted(s: seq<string>, x: string)
    requires Strings.StrictlySorted(s)
    decreases |s|
    ensures Strings.StrictlySorted(Without(s, x))
  {
    if s != [] {
      var n := |s| - 1;
      WithoutSorted(s[..n], x);
      forall y | y in Without(s[..n], x)
        ensures Strings.Less(y, s[n])
      {
        var k :| 0 <= k < n && s[..n][k] == y;
        assert s[k] == y;
      }
    }
  }

  /** The order of the item groups: the categories sorted, with `Other` taken out and put last. */
  ghost function CategoryOrder(names: set<string>): seq<string> {
    var present := CategoriesOf(names);
    Without(Strings.Sorted(present), Other) + (if Other in present then [Other] else [])
  }

  /** The entries for a sequence of package names. */
  function EntriesFor(resolutions: map<string, string>, names: seq<string>): (entries: seq<Entry>)
    requires forall k :: 0 <= k < |names| ==> names[k] in resolutions
    ensures |entries| == |names|
    ensures forall k :: 0 <= k < |names| ==> entries[k] == Entry(names[k], resolutions[names[k]])
  {
    seq(|names|, k requires 0 <= k < |names| => Entry(names[k], resolutions[names[k]]))
  }

  /** The entries of one category, sorted by name. */
  ghost function Group(resolutions: map<string, string>, category: string): seq<Entry> {
    var names := Strings.Sorted(NamesIn(resolutions.Keys, category));
    assert forall k :: 0 <= k < |names| ==> names[k] in NamesIn(resolutions.Keys, category);
    EntriesFor(resolutions, names)
  }

  function EntryLines(entries: seq<Entry>): (lines: seq<string>)
    ensures |lines| == |entries|
    ensures forall k :: 0 <= k < |entries| ==> lines[k] == PackageVersionLine(entries[k].name, entries[k].version)
  {
    seq(|entries|, k requires 0 <= k < |entries| => PackageVersionLine(entries[k].name, entries[k].version))
  }

  function GroupLines(category: string, entries: seq<Entry>): seq<string> {
    [ItemGroupOpen(category)] + EntryLines(entries) + [ItemGroupClose, ""]
  }

  /** The item groups of the given categories, in that order. */
  ghost function GroupsLines(resolutions: map<string, string>, categories: seq<string>): seq<string>
    decreases |categories|
  {
    if categories == [] then []
    else
      var n := |categories| - 1;
      GroupsLines(resolutions, categories[..n]) + GroupLines(categories[n], Group(resolutions, categories[n]))
  }

  /** One more category adds its item group at the end. */
  lemma GroupsLinesAppend(resolutions: map<string, string>, categories: seq<string>, category: string)
    ensures GroupsLines(resolutions, categories + [category])
         == GroupsLines(resolutions, categories) + GroupLines(category, Group(resolutions, category))
  {
    assert (categories + [category])[..|categories|] == categories;
  }

  /** The entries of the given categories, in that order. */
  ghost function Layout(resolutions: map<string, string>, categories: seq<string>): seq<Entry>
    decreases |categories|
  {
    if categories == [] then []
    else
      var n := |categories| - 1;
      Layout(resolutions, categories[..n]) + Group(resolutions, categories[n])
  }

  /** The lines of the generated file, before they are joined with newlines. */
  ghost function PropsLines(resolutions: map<string, string>): seq<string> {
    Header + GroupsLines(resolutions, CategoryOrder(resolutions.Keys)) + [ProjectClose]
  }

  /** The entries of the generated file, in file order. */
  ghost function PropsEntries(resolutions: map<string, string>): seq<Entry> {
    Layout(resolutions, CategoryOrder(resolutions.Keys))
  }

  /*
   * The frame of the file
   */

  /** The file opens with the property group that turns central management on and ends with `</Project>`. */
  lemma PropsFrame(resolutions: map<string, string>)
    ensures |PropsLines(resolutions)| > |Header|
    ensures PropsLines(resolutions)[..|Header|] == Header
    ensures PropsLines(resolutions)[|PropsLines(resolutions)| - 1] == ProjectClose
  {
    var lines := PropsLines(resolutions);
    assert lines == Header + (GroupsLines(resolutions, CategoryOrder(resolutions.Keys)) + [ProjectClose]);
  }

  /*
   * PackageVersion lines
   */

  predicate IsPackageVersionLine(line: string) {
    PackageVersionStart <= line
  }

  /** The `PackageVersion` lines among `lines`, in order. */
  function PackageVersionLines(lines: seq<string>): seq<string>
    decreases |lines|
  {
    if lines == [] then []
    else
      var n := |lines| - 1;
      PackageVersionLines(lines[..n]) + (if IsPackageVersionLine(lines[n]) then [lines[n]] else [])
  }

  lemma {:induction false} PackageVersionLinesConcat(a: seq<string>, b: seq<string>)
    decreases |b|
    ensures PackageVersionLines(a + b) == PackageVersionLines(a) + PackageVersionLines(b)
  {
    if b != [] {
      var n := |b| - 1;
      assert (a + b)[..|a| + n] == a + b[..n];
      assert (a + b)[|a| + n] == b[n];
      PackageVersionLinesConcat(a, b[..n]);
    } else {
      assert a + b == a;
    }
  }

  lemma {:induction false} EntryLinesAreVersionLines(entries: seq<Entry>)
    decreases |entries|
    ensures PackageVersionLines(EntryLines(entries)) == EntryLines(entries)
  {
    if entries != [] {
      var n := |entries| - 1;
      EntryLinesAreVersionLines(entries[..n]);
      assert EntryLines(entries) == EntryLines(entries[..n]) + [EntryLines(entries)[n]];
      var line := EntryLines(entries)[n];
      assert line == PackageVersionStart + (entries[n].name + "\" Version=\"" + entries[n].version + "\" />");
    }
  }

  lemma EntryLinesConcat(a: seq<Entry>, b: seq<Entry>)
    ensures EntryLines(a + b) == EntryLines(a) + EntryLines(b)
  {
  }

  lemma Differs(line: string, k: nat)
    requires k < |line| && k < |PackageVersionStart| && line[k] != PackageVersionStart[k]
    ensures PackageVersionLines([line]) == []
  {
    assert [line][..0] == [];
  }

  lemma TooShort(line: string)
    requires |line| < |PackageVersionStart|
    ensures PackageVersionLines([line]) == []
  {
    assert [line][..0] == [];
  }

  lemma HeaderHasNoVersionLines()
    ensures PackageVersionLines(Header) == []
  {
    Differs(Header[0], 0);
    Differs(Header[1], 2);
    assert ManageCentrally[5] == "    <ManagePackageVersionsCentrally>"[5];
    Differs(Header[2], 5);
    Differs(Header[3], 2);
    TooShort("");
    var h0, h1, h2, h3 := Header[0], Header[1], Header[2], Header[3];
    PackageVersionLinesConcat([h0], [h1]);
    assert [h0] + [h1] == [h0, h1];
    assert PackageVersionLines([h0, h1]) == [];
    PackageVersionLinesConcat([h0, h1], [h2]);
    assert [h0, h1] + [h2] == [h0, h1, h2];
    assert PackageVersionLines([h0, h1, h2]) == [];
    PackageVersionLinesConcat([h0, h1, h2], [h3]);
    assert [h0, h1, h2] + [h3] == [h0, h1, h2, h3];
    assert PackageVersionLines([h0, h1, h2, h3]) == [];
    PackageVersionLinesConcat([h0, h1, h2, h3], [""]);
    assert Header == [h0, h1, h2, h3] + [""];
  }

  lemma FixedLinesAreNotVersionLines(category: string)
    ensures PackageVersionLines([ItemGroupOpen(category)]) == []
    ensures PackageVersionLines([ItemGroupClose, ""]) == []
    ensures PackageVersionLines([ProjectClose]) == []
  {
    Differs(ItemGroupOpen(category), 2);
    Differs(ItemGroupClose, 2);
    Differs(ProjectClose, 0);
    TooShort("");
    PackageVersionLinesConcat([ItemGroupClose], [""]);
  }

  lemma GroupVersionLines(category: string, entries: seq<Entry>)
    ensures PackageVersionLines(GroupLines(category, entries)) == EntryLines(entries)
  {
    FixedLinesAreNotVersionLines(category);
    PackageVersionLinesConcat([ItemGroupOpen(category)], EntryLines(entries));
    PackageVersionLinesConcat([ItemGroupOpen(category)] + EntryLines(entries), [ItemGroupClose, ""]);
    EntryLinesAreVersionLines(entries);
  }

  lemma {:induction false} GroupsVersionLines(resolutions: map<string, string>, categories: seq<string>)
    decreases |categories|
    ensures PackageVersionLines(GroupsLines(resolutions, categories)) == EntryLines(Layout(resolutions, categories))
  {
    if categories != [] {
      var n := |categories| - 1;
      var c := categories[n];
      GroupsVersionLines(resolutions, categories[..n]);
      PackageVersionLinesConcat(GroupsLines(resolutions, categories[..n]), GroupLines(c, Group(resolutions, c)));
      GroupVersionLines(c, Group(resolutions, c));
      EntryLinesConcat(Layout(resolutions, categories[..n]), Group(resolutions, c));
    }
  }

  /** The `PackageVersion` lines of the file are exactly the entries, one line each, in entry order. */
  lemma PackageVersionLinesAreEntries(resolutions: map<string, string>)
    ensures PackageVersionLines(PropsLines(resolutions)) == EntryLines(PropsEntries(resolutions))
  {
    var groups := GroupsLines(resolutions, CategoryOrder(resolutions.Keys));
    FixedLinesAreNotVersionLines("");
    HeaderHasNoVersionLines();
    PackageVersionLinesConcat(Header, groups);
    PackageVersionLinesConcat(Header + groups, [ProjectClose]);
    GroupsVersionLines(resolutions, CategoryOrder(resolutions.Keys));
  }

  /*
   * Order and coverage of the entries
   */

  /** Category `c`'s group comes before category `d`'s: `Other` is last, the rest alphabetical. */
  predicate CategoryBefore(c: string, d: string) {
    c != Other && (d == Other || Strings.Less(c, d))
  }

  predicate CategoriesInOrder(categories: seq<string>) {
    forall a, b :: 0 <= a < b < |categories| ==> CategoryBefore(categories[a], categories[b])
  }

  /** Some entry is for package `p`. */
  predicate HasEntry(entries: seq<Entry>, p: string) {
    exists k :: 0 <= k < |entries| && entries[k].name == p
  }

  /** Entry `x` comes before entry `y`: an earlier category, or the same category and a smaller name. */
  predicate Precedes(x: Entry, y: Entry) {
    var cx, cy := Categorize(x.name), Categorize(y.name);
    CategoryBefore(cx, cy) || (cx == cy && Strings.Less(x.name, y.name))
  }

  predicate Ordered(entries: seq<Entry>) {
    forall i, j :: 0 <= i < j < |entries| ==> Precedes(entries[i], entries[j])
  }

  lemma CategoryBeforeIrreflexive(c: string)
    ensures !CategoryBefore(c, c)
  {
    Strings.LessIrreflexive(c);
  }

  /** The item groups follow the alphabetical order of their categories, with `Other` last, and there is one per category with packages. */
  lemma CategoryOrderFacts(names: set<string>)
    ensures CategoriesInOrder(CategoryOrder(names))
    ensures forall c :: c in CategoryOrder(names) <==> c in CategoriesOf(names)
  {
    var present := CategoriesOf(names);
    var sorted := Without(Strings.Sorted(present), Other);
    WithoutSorted(Strings.Sorted(present), Other);
    var order := CategoryOrder(names);
    forall a, b | 0 <= a < b < |order|
      ensures CategoryBefore(order[a], order[b])
    {
      assert order[a] in sorted;
    }
  }

  /** A category's group holds only packages of that category, with their resolved versions, sorted by name. */
  lemma GroupSound(resolutions: map<string, string>, category: string)
    ensures Ordered(Group(resolutions, category))
    ensures forall k :: 0 <= k < |Group(resolutions, category)| ==>
      var e := Group(resolutions, category)[k];
      e.name in resolutions && e.version == resolutions[e.name] && Categorize(e.name) == category
  {
    var names := Strings.Sorted(NamesIn(resolutions.Keys, category));
    var g := Group(resolutions, category);
    forall k | 0 <= k < |g|
      ensures g[k].name in resolutions && Categorize(g[k].name) == category
    {
      assert names[k] in names;
    }
  }

  /** A category's group has every package of that category. */
  lemma GroupComplete(resolutions: map<string, string>, category: string)
    ensures forall p :: p in resolutions && Categorize(p) == category ==> HasEntry(Group(resolutions, category), p)
  {
    var names := Strings.Sorted(NamesIn(resolutions.Keys, category));
    var g := Group(resolutions, category);
    forall p | p in resolutions && Categorize(p) == category
      ensures HasEntry(g, p)
    {
      assert p in names;
      var k :| 0 <= k < |names| && names[k] == p;
      assert g[k].name == p;
    }
  }

  lemma OrderedConcat(a: seq<Entry>, b: seq<Entry>)
    requires Ordered(a) && Ordered(b)
    requires forall i, j :: 0 <= i < |a| && 0 <= j < |b| ==> Precedes(a[i], b[j])
    ensures Ordered(a + b)
  {
  }

  lemma PrefixInOrder(categories: seq<string>, n: nat)
    requires CategoriesInOrder(categories) && n <= |categories|
    ensures CategoriesInOrder(categories[..n])
  {
    forall a, b | 0 <= a < b < n
      ensures CategoryBefore(categories[..n][a], categories[..n][b])
    {
      assert categories[..n][a] == categories[a] && categories[..n][b] == categories[b];
    }
  }

  /** Every entry of the layout comes from `resolutions` and belongs to one of the categories. */
  lemma {:induction false} LayoutSound(resolutions: map<string, string>, categories: seq<string>)
    decreases |categories|
    ensures forall k :: 0 <= k < |Layout(resolutions, categories)| ==>
      var e := Layout(resolutions, categories)[k];
      e.name in resolutions && e.version == resolutions[e.name] && Categorize(e.name) in categories
  {
    if categories != [] {
      var n := |categories| - 1;
      var c := categories[n];
      var before := Layout(resolutions, categories[..n]);
      var g := Group(resolutions, c);
      var all := Layout(resolutions, categories);
      LayoutSound(resolutions, categories[..n]);
      GroupSound(resolutions, c);
      forall k | 0 <= k < |all|
        ensures all[k].name in resolutions && all[k].version == resolutions[all[k].name]
        ensures Categorize(all[k].name) in categories
      {
        if k < |before| {
          assert all[k] == before[k];
          assert Categorize(before[k].name) in categories[..n];
        } else {
          assert all[k] == g[k - |before|];
        }
      }
    }
  }

  /** The layout of categories in group order is ordered. */
  lemma {:induction false} LayoutOrdered(resolutions: map<string, string>, categories: seq<string>)
    requires CategoriesInOrder(categories)
    decreases |categories|
    ensures Ordered(Layout(resolutions, categories))
  {
    if categories != [] {
      var n := |categories| - 1;
      var c := categories[n];
      var before := Layout(resolutions, categories[..n]);
      var g := Group(resolutions, c);
      PrefixInOrder(categories, n);
      LayoutOrdered(resolutions, categories[..n]);
      LayoutSound(resolutions, categories[..n]);
      GroupSound(resolutions, c);
      forall i, j | 0 <= i < |before| && 0 <= j < |g|
        ensures Precedes(before[i], g[j])
      {
        var a :| 0 <= a < n && categories[..n][a] == Categorize(before[i].name);
        assert CategoryBefore(categories[a], categories[n]);
      }
      OrderedConcat(before, g);
    }
  }

  /** Every package of the categories has an entry in the layout. */
  lemma {:induction false} LayoutComplete(resolutions: map<string, string>, categories: seq<string>, p: string)
    requires p in resolutions && Categorize(p) in categories
    decreases |categories|
    ensures HasEntry(Layout(resolutions, categories), p)
  {
    var n := |categories| - 1;
    var c := categories[n];
    var before := Layout(resolutions, categories[..n]);
    var g := Group(resolutions, c);
    LayoutStep(resolutions, categories);
    if Categorize(p) in categories[..n] {
      LayoutComplete(resolutions, categories[..n], p);
      EntryInPrefix(before, g, p);
    } else {
      assert categories == categories[..n] + [c];
      GroupComplete(resolutions, c);
      EntryInSuffix(before, g, p);
    }
  }

  lemma LayoutStep(resolutions: map<string, string>, categories: seq<string>)
    requires categories != []
    ensures Layout(resolutions, categories)
      == Layout(resolutions, categories[..|categories| - 1]) + Group(resolutions, categories[|categories| - 1])
  {
  }

  lemma EntryInPrefix(a: seq<Entry>, b: seq<Entry>, p: string)
    requires HasEntry(a, p)
    ensures HasEntry(a + b, p)
  {
    var k :| 0 <= k < |a| && a[k].name == p;
    assert (a + b)[k] == a[k];
  }

  lemma EntryInSuffix(a: seq<Entry>, b: seq<Entry>, p: string)
    requires HasEntry(b, p)
    ensures HasEntry(a + b, p)
  {
    var k :| 0 <= k < |b| && b[k].name == p;
    assert (a + b)[|a| + k] == b[k];
  }

  /**
   * Each package appears in exactly one entry, carrying its resolved version; the entries are
   * grouped by category in group order and sorted by name inside a group.
   */
  lemma PropsEntriesFacts(resolutions: map<string, string>)
    ensures forall k :: 0 <= k < |PropsEntries(resolutions)| ==>
      var e := PropsEntries(resolutions)[k];
      e.name in resolutions && e.version == resolutions[e.name]
    ensures forall p :: p in resolutions ==> HasEntry(PropsEntries(resolutions), p)
    ensures forall i, j :: 0 <= i < j < |PropsEntries(resolutions)| ==>
      PropsEntries(resolutions)[i].name != PropsEntries(resolutions)[j].name
    ensures Ordered(PropsEntries(resolutions))
  {
    var order := CategoryOrder(resolutions.Keys);
    CategoryOrderFacts(resolutions.Keys);
    LayoutSound(resolutions, order);
    LayoutOrdered(resolutions, order);
    var entries := PropsEntries(resolutions);
    forall p | p in resolutions
      ensures HasEntry(entries, p)
    {
      assert Categorize(p) in CategoriesOf(resolutions.Keys);
      LayoutComplete(resolutions, order, p);
    }
    forall i, j | 0 <= i < j < |entries|
      ensures entries[i].name != entries[j].name
    {
      CategoryBeforeIrreflexive(Categorize(entries[i].name));
      Strings.LessIrreflexive(entries[i].name);
    }
  }
}
