/**
 * The extractor's package categories: an ordered table of name prefixes, searched in
 * declaration order, with `Other` for names no prefix matches.
 */
module PackageCategories {
  datatype Category = Category(title: string, prefixes: seq<string>)

  /** The title of packages outside every category; no row of the table uses it. */
  const Other: string := "Other"

  const AwsSdk := Category("AWS SDK", ["AWSSDK.", "Amazon."])
  const MicrosoftExtensions := Category("Microsoft Extensions", ["Microsoft.Extensions."])
  const MicrosoftCore := Category("Microsoft Core", ["Microsoft.NETFramework", "Microsoft.Bcl", "System."])
  const Testing := Category("Testing", ["FluentAssertions", "Castle.Core", "Moq", "NUnit", "xunit"])
  const Logging := Category("Logging", ["Common.Logging", "log4net", "NLog", "Serilog"])
  const Json := Category("JSON", ["Newtonsoft.Json", "System.Text.Json"])
  const Utilities := Category("Utilities", ["ZstdSharp", "Fare", "AutoMapper"])

  /** The categories in declaration order. */
  const Table: seq<Category> := [AwsSdk, MicrosoftExtensions, MicrosoftCore, Testing, Logging, Json, Utilities]

  /** `name.startswith(pattern)` for one of the category's patterns. */
  predicate Matches(name: string, c: Category) {
    exists p :: p in c.prefixes && p <= name
  }

  /** Row `i` is the first row of `table` that matches the name. */
  predicate FirstMatchAt(name: string, table: seq<Category>, i: int) {
    0 <= i < |table| && Matches(name, table[i]) && forall j :: 0 <= j < i ==> !Matches(name, table[j])
  }

  /** The title of the first row that matches, or `Other`. */
  function FirstMatch(name: string, table: seq<Category>): (title: string)
    requires forall i :: 0 <= i < |table| ==> table[i].title != Other
    ensures title == Other <==> forall i :: 0 <= i < |table| ==> !Matches(name, table[i])
    ensures title != Other ==> exists i :: FirstMatchAt(name, table, i) && table[i].title == title
  {
    if table == [] then Other
    else if Matches(name, table[0]) then table[0].title
    else
      var title := FirstMatch(name, table[1..]);
      assert title != Other ==> exists i :: FirstMatchAt(name, table, i) && table[i].title == title by {
        if title != Other {
          var i :| FirstMatchAt(name, table[1..], i) && table[1..][i].title == title;
          assert forall j :: 0 < j <= i + 1 ==> table[j] == table[1..][j - 1];
          assert FirstMatchAt(name, table, i + 1);
        }
      }
      title
  }

  /** `categorize_package`: the first category, in table order, with a prefix of the name; `Other` when there is none. */
  function Categorize(name: string): (category: string)
    ensures category == Other <==> forall i :: 0 <= i < |Table| ==> !Matches(name, Table[i])
    ensures category != Other ==> exists i :: FirstMatchAt(name, Table, i) && Table[i].title == category
  {
    FirstMatch(name, Table)
  }

  /** A row none of whose prefixes starts with the name's first character does not match. */
  lemma FirstCharacterMismatch(name: string, c: Category)
    requires |name| > 0 && forall p :: p in c.prefixes ==> |p| > 0 && p[0] != name[0]
    ensures !Matches(name, c)
  {
  }

  /** The first matching row decides. */
  lemma CategorizeByRow(name: string, i: nat)
    requires i < |Table| && Matches(name, Table[i])
    requires forall j :: 0 <= j < i ==> !Matches(name, Table[j])
    ensures Categorize(name) == Table[i].title
  {
    var category := Categorize(name);
    var k :| FirstMatchAt(name, Table, k) && Table[k].title == category;
    assert k == i;
  }

  lemma SystemTextJsonRows()
    ensures !Matches("System.Text.Json", AwsSdk) && !Matches("System.Text.Json", MicrosoftExtensions)
    ensures Matches("System.Text.Json", MicrosoftCore)
  {
    FirstCharacterMismatch("System.Text.Json", AwsSdk);
    FirstCharacterMismatch("System.Text.Json", MicrosoftExtensions);
    assert "System." in MicrosoftCore.prefixes && "System." <= "System.Text.Json";
  }

  /** Earlier rows win: `System.Text.Json` falls in Microsoft Core, not in JSON. */
  lemma SystemTextJsonIsMicrosoftCore()
    ensures Categorize("System.Text.Json") == "Microsoft Core"
  {
    SystemTextJsonRows();
    CategorizeByRow("System.Text.Json", 2);
  }

  lemma ExtensionsLoggingRows()
    ensures !Matches("Microsoft.Extensions.Logging", AwsSdk)
    ensures Matches("Microsoft.Extensions.Logging", MicrosoftExtensions)
  {
    FirstCharacterMismatch("Microsoft.Extensions.Logging", AwsSdk);
    ExtensionsPrefix();
    assert "Microsoft.Extensions." in MicrosoftExtensions.prefixes;
  }

  lemma ExtensionsPrefix()
    ensures "Microsoft.Extensions." <= "Microsoft.Extensions.Logging"
  {
    assert "Microsoft.Extensions.Logging"[..21] == "Microsoft.Extensions.";
  }

  /** `Microsoft.Extensions.Logging` falls in Microsoft Extensions, not in Logging. */
  lemma ExtensionsLoggingIsMicrosoftExtensions()
    ensures Categorize("Microsoft.Extensions.Logging") == "Microsoft Extensions"
  {
    ExtensionsLoggingRows();
    CategorizeByRow("Microsoft.Extensions.Logging", 1);
  }
}
