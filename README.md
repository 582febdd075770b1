# Central Package Management migration scripts, modelled in Dafny

This project models the decision logic of the four Python scripts that support a move
of a .NET solution from per-project `PackageReference` versions and `packages.config`
files to NuGet Central Package Management (one `Directory.Packages.props` holding every
package version):

- **migration-validator.py**: four checks over a solution, a weighted score, a tier, the
  report's recommendations and an exit code. The checks are the props file, the project
  files, the consistency of the two package-name sets, and the build.
- **batch-project-updater.py**: four text rewrites of `.csproj` files, with a dry-run
  mode, one `.backup` copy per changed file and a log of changes.
- **package-version-extractor.py**: gathers package versions from `packages.config` and
  `.csproj` files, sorts packages into categories and resolves multi-version packages
  to the highest version. It then lays out `Directory.Packages.props` and reports
  counts.
- **build-log-analyzer.py**: counts the NuGet and MSBuild errors found in build logs and
  summarises them across files by priority, by package and as recommendations.

The model works on inputs that are already parsed:
- an XML file arrives as the attributes of the elements a script reads, or as "could
  not be parsed";
- a file system is a map from path to content;
- the regular-expression search of the log analyzer is a function parameter (`Finder`)
  that yields the matches for each error code.

The `.csproj` rewrites of the updater are modelled as follows:
- each regular expression is hand-written as a matcher at one position, plus a
  left-to-right `re.sub` scan;
- the replacement templates of the two insertions are expanded as Python's template
  parser expands them (`CsprojRewrites.Expand`). A backslash in a property name or value
  is read as an escape, and a malformed escape raises an error, which skips the file.

Modules:

| file | module | models |
|---|---|---|
| wrappers.dfy | Wrappers | `Option` |
| xml.dfy | Xml | a parsed element's `Include`/`id` and `Version`/`version` attributes; Python truthiness of an attribute |
| strings.dfy | Strings | `str.find`, `in`, `str.isspace`, Python's ordering of `str`, `sorted` of a set of names, `'\n'.join` |
| validator.dfy | MigrationValidation | migration-validator.py |
| csproj.dfy | CsprojRewrites | the four content rewrites of batch-project-updater.py |
| updater.dfy | BatchProjectUpdate | the updater's driver loops, backups, dry run and change log |
| categories.dfy | PackageCategories | the extractor's category table and `categorize_package` |
| versions.dfy | VersionKeys | the extractor's version sort key and the highest version |
| props.dfy | PropsLayout | the layout of the generated `Directory.Packages.props` |
| extractor.dfy | PackageVersionExtraction | the rest of package-version-extractor.py |
| logs.dfy | BuildLogAnalysis | build-log-analyzer.py |

Objects whose fields the scripts update in place are classes:
- `MigrationValidator` owns the results dictionary and the two name sets;
- `BatchProjectUpdater` owns the change log, and `FileStore` holds the disk;
- `PackageVersionExtractor` owns the two `defaultdict`s.

Each method is proved against a specification function of the old state and its
inputs. The properties the scripts promise are lemmas about those functions.

The score of the validator is kept as the integer `Σ status_score × weight` (0 to
10000). The weights add up to 100, so the tiers compare this total with 9000, 7500 and
5000. `round(score, 1)` becomes a round-half-to-even in tenths. The total is always a
multiple of 25, so the division is exact and rounding never moves a score across a tier
boundary (`RoundingKeepsThresholds`).

The log analyzer's tables:
- They hold seven codes. NU1008 ("Package has known vulnerability") has priority 3
  (`TablesFacts`).
- NU1008 gets no recommendation (`RecommendationsFacts`).
- Inside a priority section, codes are ordered by descending count (`SectionsOrdered`).

Behaviours of the scripts that the model keeps as written:
- `System.Text.Json` is categorised as Microsoft Core, because the `System.` prefix of
  an earlier row wins. The JSON row's `System.Text.Json` prefix is never reached.
- The conflict report prints, on every version line of a package, that package's total
  number of source entries.
- The log analyzer gets no package from a code whose pattern has one capture group,
  because `re.findall` yields a plain string for such a pattern.

## Model

| member | source | states |
|---|---|---|
| MigrationValidation.MigrationValidator.constructor | central-package-migration/scripts/migration-validator.py:29-40 | all four categories start UNKNOWN with no details, the overall entry is unrated with score 0, and the name sets and project list are empty |
| MigrationValidation.ScanKeys | central-package-migration/scripts/migration-validator.py:74-84 | the names recorded in `package_versions` are exactly the Includes of the entries that have both a non-empty Include and a non-empty Version |
| MigrationValidation.ScanKeepsFirst | central-package-migration/scripts/migration-validator.py:79-84 | for a repeated Include, the version kept is the one from the first entry with that Include |
| MigrationValidation.DuplicatesIffRepeat | central-package-migration/scripts/migration-validator.py:79-86 | the duplicates list is non-empty exactly when two counted entries share an Include |
| MigrationValidation.DuplicatesAreRepeats | central-package-migration/scripts/migration-validator.py:79-87 | the "Duplicate PackageVersion entries" detail lists, in order, the Include of exactly those counted entries that repeat an earlier counted entry's Include |
| MigrationValidation.PropsStatusRule | central-package-migration/scripts/migration-validator.py:46-108 | the props result is FAIL iff the file is missing, unparsable or has a repeated Include; WARN iff there is no repeat but `ManagePackageVersionsCentrally` is not `true`; PASS otherwise |
| MigrationValidation.MigrationValidator.ValidateDirectoryPackagesProps | central-package-migration/scripts/migration-validator.py:42-108 | records the props result, adds exactly the recorded names to `packages_in_props`, leaves the other categories alone, and returns false exactly on FAIL |
| MigrationValidation.VersionlessNamesIff | central-package-migration/scripts/migration-validator.py:127-136 | a name enters `packages_in_projects` iff some reference has it as a non-empty Include and has no non-empty Version |
| MigrationValidation.VersionedCountPositive | central-package-migration/scripts/migration-validator.py:127-139 | a project reports Version attributes iff some reference carries both Include and Version |
| MigrationValidation.ClassifyReferences | central-package-migration/scripts/migration-validator.py:124-136 | splits the references, in order, into those with a Version (as pairs) and the Includes of those without one; references without an Include are dropped |
| MigrationValidation.CheckProject | central-package-migration/scripts/migration-validator.py:118-147 | one project gives a parse error, or the Version-attribute issue and the packages.config issue in that order, plus its versionless names |
| MigrationValidation.ProjectsFailIff | central-package-migration/scripts/migration-validator.py:138-156 | the project-files result is FAIL iff some project is unparsable, keeps a Version attribute or keeps a packages.config, and PASS iff none does |
| MigrationValidation.MigrationValidator.ValidateProjectFiles | central-package-migration/scripts/migration-validator.py:110-163 | records the project-files result, adds the union of all versionless names, records the project names, and returns true exactly on PASS |
| MigrationValidation.ConsistencyResult | central-package-migration/scripts/migration-validator.py:165-197 | FAIL iff projects ∖ props is non-empty, WARN iff that is empty but props ∖ projects is not, PASS iff the two sets are equal |
| MigrationValidation.MigrationValidator.ValidatePackageConsistency | central-package-migration/scripts/migration-validator.py:165-197 | records the consistency result and returns false exactly when some project name is missing from the props file |
| MigrationValidation.BuildResult | central-package-migration/scripts/migration-validator.py:199-262 | SKIP iff skipped; PASS iff not skipped and both restore and build succeeded; FAIL on every other outcome (restore failure, build failure, time-out, error) |
| MigrationValidation.MigrationValidator.ValidateBuild | central-package-migration/scripts/migration-validator.py:199-262 | records the build result and returns true iff the build was skipped or succeeded |
| MigrationValidation.Total | central-package-migration/scripts/migration-validator.py:266-283 | the weighted total lies in 0..10000, is a multiple of 25, and is 10000 iff all four categories PASS |
| MigrationValidation.RatingOf | central-package-migration/scripts/migration-validator.py:285-294 | EXCELLENT iff the mean is at least 90, EXCELLENT or GOOD iff at least 75, POOR iff below 50; never UNKNOWN after scoring |
| MigrationValidation.RoundTenths | central-package-migration/scripts/migration-validator.py:298 | the score in tenths is within half a tenth of the exact mean, and an exact half goes to the even tenth |
| MigrationValidation.WeightedSumIsTotal | central-package-migration/scripts/migration-validator.py:275-285 | with all four categories present the loop's weights add to 100 and its weighted sum is the four-status total |
| MigrationValidation.RoundingKeepsThresholds | central-package-migration/scripts/migration-validator.py:285-298 | rounding to one decimal never moves a reachable score across 90, 75 or 50 |
| MigrationValidation.ImprovementNeverHurts | central-package-migration/scripts/migration-validator.py:273-294 | raising any category's status score never lowers the total or the tier |
| MigrationValidation.SkippedBuildCapsScore | central-package-migration/scripts/migration-validator.py:201-206 | with the build skipped the total is at most 8000 and the tier is never EXCELLENT |
| MigrationValidation.MigrationValidator.CalculateOverallScore | central-package-migration/scripts/migration-validator.py:264-299 | the score loop over the weights table records the tier and the rounded score of the current results |
| MigrationValidation.FailureRecommendations | central-package-migration/scripts/migration-validator.py:346-357 | each failure recommendation appears iff its category is FAIL (two for the project files) |
| MigrationValidation.ClosingRecommendations | central-package-migration/scripts/migration-validator.py:359-365 | "complete" iff the rounded score is at least 90, "address warnings" iff it is in [75, 90), "focus on failures" iff below 75 |
| MigrationValidation.Recommendations | central-package-migration/scripts/migration-validator.py:344-365 | each recommendation appears exactly under its condition, failure ones and closing ones together |
| MigrationValidation.MigrationValidator.GenerateReport | central-package-migration/scripts/migration-validator.py:301-370 | scores first, then reports the overall entry, the four categories in report order and the recommendations for the current statuses and score |
| MigrationValidation.ExitCode | central-package-migration/scripts/migration-validator.py:410-414 | exit code 0 iff the tier is EXCELLENT or GOOD, else 1 |
| MigrationValidation.ScoreConsequences | central-package-migration/scripts/migration-validator.py:359-414 | for any four statuses: exit code 0 iff total ≥ 7500; a skipped build is never EXCELLENT; "migration complete" is recommended iff the tier is EXCELLENT |
| MigrationValidation.ClosingFollowsRating | central-package-migration/scripts/migration-validator.py:287-290 | the closing recommendation says "complete" exactly when the tier is EXCELLENT |
| MigrationValidation.RunChecks | central-package-migration/scripts/migration-validator.py:386-397 | the four validations run in order on a fresh validator and record the props, projects, consistency and build results of the inputs |
| MigrationValidation.ValidateMigration | central-package-migration/scripts/migration-validator.py:372-414 | the whole command: tier and rounded score of the run's total; exit code 0 iff total ≥ 7500; a skipped build is never EXCELLENT; "complete" is recommended iff EXCELLENT |
| CsprojRewrites.SkipSpace | central-package-migration/scripts/batch-project-updater.py:69 | `\s*` matches the longest run of whitespace (Python `str.isspace`) |
| CsprojRewrites.SkipUntil | central-package-migration/scripts/batch-project-updater.py:145 | `[^c]*` matches the longest run of characters other than `c` |
| CsprojRewrites.MatchesFrom | central-package-migration/scripts/batch-project-updater.py:72 | the matches that `re.sub` replaces are in order, do not overlap and lie inside the text |
| CsprojRewrites.MatcherOf | central-package-migration/scripts/batch-project-updater.py:69-72 | each hand-written pattern matcher is well formed: a match starts where it is tried and its replaced part lies inside it |
| CsprojRewrites.SubIsSplice | central-package-migration/scripts/batch-project-updater.py:72 | the `re.sub` scan equals the text with the replaced part of each of its matches cut out |
| CsprojRewrites.SpliceShrinks | central-package-migration/scripts/batch-project-updater.py:72 | cutting out n matches shortens the text by at least n characters |
| CsprojRewrites.SubChangesIff | central-package-migration/scripts/batch-project-updater.py:72-74 | a substitution changes the text iff the pattern matches somewhere |
| CsprojRewrites.AttributeEndSound | central-package-migration/scripts/batch-project-updater.py:69 | what the attribute matcher consumes is whitespace followed by `key="…"` with a non-empty, quote-free value |
| CsprojRewrites.AttributeEndComplete | central-package-migration/scripts/batch-project-updater.py:69 | whitespace followed by `key="…"` is always recognised by the attribute matcher, with its exact extent |
| CsprojRewrites.SlashEndSound | central-package-migration/scripts/batch-project-updater.py:69 | the `\s*/?` group consumes whitespace and at most one slash |
| CsprojRewrites.VersionMatchSound | central-package-migration/scripts/batch-project-updater.py:69 | a Version-attribute match is `<PackageReference` + spaces + `Include="…"`, then the removed spaces + `Version="…"`, then `\s*/?` |
| CsprojRewrites.ScanReaches | central-package-migration/scripts/batch-project-updater.py:72 | the `re.sub` scan reaches every position that none of its earlier matches covers, so a match there is one of the scan's |
| CsprojRewrites.VersionMatchComplete | central-package-migration/scripts/batch-project-updater.py:69-72 | every `<PackageReference Include="…" Version="…"` that no earlier match overlaps is one of the scan's matches, and its cut is exactly the Version attribute with its leading spaces |
| CsprojRewrites.VersionPresentChanges | central-package-migration/scripts/batch-project-updater.py:69-81 | a file with a Version attribute right after an Include is changed, and its reported count is positive |
| CsprojRewrites.ReferenceMatchSound | central-package-migration/scripts/batch-project-updater.py:145 | a removed tag is `<PackageReference` + spaces + `Include="name"` + anything up to `>` + trailing whitespace |
| CsprojRewrites.ReferenceMatchComplete | central-package-migration/scripts/batch-project-updater.py:145-147 | every such tag for the given name that no earlier match overlaps is one of the scan's matches, so it is removed with its trailing whitespace |
| CsprojRewrites.TagPresentChanges | central-package-migration/scripts/batch-project-updater.py:145-149 | a file with a tag for the package is changed by removing the package |
| CsprojRewrites.OtherPackagesUntouched | central-package-migration/scripts/batch-project-updater.py:145-147 | a tag whose Include names another package is never matched |
| CsprojRewrites.RemovePackageVersionsChangesIff | central-package-migration/scripts/batch-project-updater.py:69-81 | removing Version attributes changes the text iff the counted number of matches is positive |
| CsprojRewrites.RemovePackageReferenceChangesIff | central-package-migration/scripts/batch-project-updater.py:145-149 | removing a package's references changes the text iff some tag for it matches |
| CsprojRewrites.InsertsAfterFirstPropertyGroup | central-package-migration/scripts/batch-project-updater.py:112-115 | the insertion puts a newline and the new line right after the first literal `<PropertyGroup>` and changes nothing else |
| CsprojRewrites.NoPropertyGroupNoChange | central-package-migration/scripts/batch-project-updater.py:180-194 | with no literal `<PropertyGroup>` the insertion changes nothing |
| CsprojRewrites.InsertionChangesIff | central-package-migration/scripts/batch-project-updater.py:112-117 | the insertion changes the text iff it contains `<PropertyGroup>` |
| CsprojRewrites.InsertionContains | central-package-migration/scripts/batch-project-updater.py:180-183 | after an insertion the text contains the inserted line |
| CsprojRewrites.ContainsElementParts | central-package-migration/scripts/batch-project-updater.py:175-181 | a text containing `<name>value</name>` contains `<name>` and `name` |
| CsprojRewrites.AddGenerateAssemblyInfoChangesIff | central-package-migration/scripts/batch-project-updater.py:101-117 | the rewrite changes the text iff it mentions `SharedAssemblyInfo`, does not mention `GenerateAssemblyInfo` and has a `<PropertyGroup>` |
| CsprojRewrites.AddGenerateAssemblyInfoIdempotent | central-package-migration/scripts/batch-project-updater.py:101-115 | applying the rewrite twice is the same as once |
| CsprojRewrites.ExpandPlain | central-package-migration/scripts/batch-project-updater.py:181-183 | a template without a backslash expands to itself |
| CsprojRewrites.ExpandHead | central-package-migration/scripts/batch-project-updater.py:113-115 | the templates' `\1\n    ` expands to `<PropertyGroup>`, a newline and four spaces |
| CsprojRewrites.LiteralTemplate | central-package-migration/scripts/batch-project-updater.py:112-115 | with a backslash-free line, the `count=1` substitution inserts the line on a new line after the first `<PropertyGroup>` |
| CsprojRewrites.GenerateAssemblyInfoTemplate | central-package-migration/scripts/batch-project-updater.py:112-115 | the assembly-info template inserts its element literally |
| CsprojRewrites.AddPropertyLiteral | central-package-migration/scripts/batch-project-updater.py:175-183 | with no backslash in name or value, the property element is inserted literally unless `<name>` is present |
| CsprojRewrites.AddPropertyBadEscape | central-package-migration/scripts/batch-project-updater.py:181-183 | a value with a backslash before a letter that is no escape makes `re.sub` raise, unless `<name>` is already present |
| CsprojRewrites.OutputPathExample | central-package-migration/scripts/batch-project-updater.py:181-197 | setting `OutputPath` to `bin\Release` fails with a bad-escape error |
| CsprojRewrites.AddPropertyChangesIff | central-package-migration/scripts/batch-project-updater.py:174-185 | adding a property changes the text iff `<name>` is absent, the template expands and a `<PropertyGroup>` exists |
| CsprojRewrites.AddPropertyIdempotent | central-package-migration/scripts/batch-project-updater.py:175-183 | for a name without a backslash, applying the property rewrite to its own result changes nothing |
| BatchProjectUpdate.ChangeFor | central-package-migration/scripts/batch-project-updater.py:83 | the log entry names the processed file |
| BatchProjectUpdate.FileStore.constructor | central-package-migration/scripts/batch-project-updater.py:46-53 | the disk starts with the given files |
| BatchProjectUpdate.BatchProjectUpdater.constructor | central-package-migration/scripts/batch-project-updater.py:32-34 | keeps the dry-run flag and starts with an empty change log |
| BatchProjectUpdate.BatchProjectUpdater.BackupFile | central-package-migration/scripts/batch-project-updater.py:46-53 | copies the file to `<path>.backup` only when no backup exists |
| BatchProjectUpdate.BatchProjectUpdater.ProcessFile | central-package-migration/scripts/batch-project-updater.py:59-88 | one file: an unreadable file is skipped; an unchanged file is left alone; a changed file is logged, and outside a dry run it is backed up and rewritten |
| BatchProjectUpdate.BatchProjectUpdater.Process | central-package-migration/scripts/batch-project-updater.py:59-88 | the loop over the listed files leaves the disk and the log as the run specification says |
| BatchProjectUpdate.BatchProjectUpdater.RemovePackageVersions | central-package-migration/scripts/batch-project-updater.py:55-88 | the run of the Version-removal rewrite over the listed files |
| BatchProjectUpdate.BatchProjectUpdater.AddGenerateAssemblyInfo | central-package-migration/scripts/batch-project-updater.py:90-129 | the run of the GenerateAssemblyInfo rewrite over the listed files |
| BatchProjectUpdate.BatchProjectUpdater.RemovePackageReference | central-package-migration/scripts/batch-project-updater.py:131-161 | the run of the package-reference removal over the listed files |
| BatchProjectUpdate.BatchProjectUpdater.AddProperty | central-package-migration/scripts/batch-project-updater.py:163-197 | the run of the property insertion over the listed files; a file whose template fails keeps its content and is not logged |
| BatchProjectUpdate.DryRunWritesNothing | central-package-migration/scripts/batch-project-updater.py:75-78 | a dry run writes no file and no backup |
| BatchProjectUpdate.DryRunLogsChanges | central-package-migration/scripts/batch-project-updater.py:74-83 | a dry run still logs exactly the readable files the rewrite would change, in order |
| BatchProjectUpdate.OnlyListedFilesChange | central-package-migration/scripts/batch-project-updater.py:46-78 | an unlisted existing file keeps its content, so an existing backup is never overwritten; a new file can only be the backup of a listed file |
| BatchProjectUpdate.UnlistedUntouched | central-package-migration/scripts/batch-project-updater.py:46-78 | outside the listed files and their backups, the disk is unchanged |
| BatchProjectUpdate.DryRunPreviewsRun | central-package-migration/scripts/batch-project-updater.py:74-83 | when no path is listed twice and no backup is listed, a real run logs the same changes as a dry run |
| BatchProjectUpdate.RunRewritesListed | central-package-migration/scripts/batch-project-updater.py:74-78 | under the same condition, every listed readable file ends up holding its rewritten content |
| BatchProjectUpdate.RunBacksUpOriginal | central-package-migration/scripts/batch-project-updater.py:46-53 | under the same condition, a changed file without an earlier backup gets a backup holding its content from before the run |
| BatchProjectUpdate.RemovalCountsPositive | central-package-migration/scripts/batch-project-updater.py:74-83 | every Version-removal entry that a run logs, dry or real, reports a positive count |
| PackageCategories.FirstMatch | central-package-migration/scripts/package-version-extractor.py:101-105 | `Other` iff no row has a prefix of the name; otherwise the title of the first matching row |
| PackageCategories.Categorize | central-package-migration/scripts/package-version-extractor.py:99-105 | the first category in declaration order with a prefix of the name, else `Other` |
| PackageCategories.CategorizeByRow | central-package-migration/scripts/package-version-extractor.py:101-104 | when row i matches and no earlier row does, the category is row i's title |
| PackageCategories.SystemTextJsonIsMicrosoftCore | central-package-migration/scripts/package-version-extractor.py:34-42 | `System.Text.Json` is categorised as Microsoft Core, not JSON |
| PackageCategories.ExtensionsLoggingIsMicrosoftExtensions | central-package-migration/scripts/package-version-extractor.py:34-42 | `Microsoft.Extensions.Logging` is categorised as Microsoft Extensions, not Logging |
| PackageVersionExtraction.RecordKeepsValid | central-package-migration/scripts/package-version-extractor.py:54-56 | recording a pair keeps both dictionaries on the same packages, with at least one version and at least as many sources as versions |
| PackageVersionExtraction.CollectKeepsValid | central-package-migration/scripts/package-version-extractor.py:50-56 | the same holds after a whole file |
| PackageVersionExtraction.CollectVersions | central-package-migration/scripts/package-version-extractor.py:50-56 | after a file, a package's versions are its old ones plus those of the file's elements that name it with both id and version |
| PackageVersionExtraction.CollectSources | central-package-migration/scripts/package-version-extractor.py:50-56 | after a file, a package's source list gains the file once per recorded occurrence |
| PackageVersionExtraction.CollectPackages | central-package-migration/scripts/package-version-extractor.py:50-56 | a package is known after a file iff it was known before or the file records it |
| PackageVersionExtraction.PackageVersionExtractor.constructor | central-package-migration/scripts/package-version-extractor.py:29-31 | both dictionaries start empty |
| PackageVersionExtraction.PackageVersionExtractor.Add | central-package-migration/scripts/package-version-extractor.py:55-56 | adds the version to the package's set and the source to its list |
| PackageVersionExtraction.PackageVersionExtractor.ExtractElements | central-package-migration/scripts/package-version-extractor.py:50-56 | the loop over a file's elements leaves the state the file's collection specifies |
| PackageVersionExtraction.PackageVersionExtractor.ExtractFromPackagesConfig | central-package-migration/scripts/package-version-extractor.py:44-59 | a parse failure changes nothing; otherwise the `package` elements are collected |
| PackageVersionExtraction.PackageVersionExtractor.ExtractFromCsproj | central-package-migration/scripts/package-version-extractor.py:61-77 | a parse failure changes nothing; otherwise the `PackageReference` elements are collected |
| VersionKeys.Split | central-package-migration/scripts/package-version-extractor.py:117 | `re.split(r'[.-]', v)` gives at least one part and no part contains a separator |
| VersionKeys.SplitRoundTrip | central-package-migration/scripts/package-version-extractor.py:117 | joining the parts with the separators they were split at gives back the version string |
| VersionKeys.KeyLessIrreflexive | central-package-migration/scripts/package-version-extractor.py:117 | no key is below itself under Python's list comparison |
| VersionKeys.KeyLessTransitive | central-package-migration/scripts/package-version-extractor.py:117 | the key order is transitive |
| VersionKeys.KeyLessTotal | central-package-migration/scripts/package-version-extractor.py:117 | any two comparable keys are equal or ordered one way |
| VersionKeys.ComparableSymmetric | central-package-migration/scripts/package-version-extractor.py:117 | two keys are comparable without a `TypeError` in either order |
| VersionKeys.NumericSegmentsExample | central-package-migration/scripts/package-version-extractor.py:117 | `1.9.0` sorts below `1.10.0` |
| VersionKeys.LongerKeyExample | central-package-migration/scripts/package-version-extractor.py:117 | `1.0.0` sorts below `1.0.0.0` |
| VersionKeys.PrereleaseExample | central-package-migration/scripts/package-version-extractor.py:117 | `2.0.0` sorts below `2.0.0-beta` |
| VersionKeys.IncomparableExample | central-package-migration/scripts/package-version-extractor.py:117 | `1.0.0-beta` and `1.0.0-1` cannot be compared (a string segment meets an integer one) |
| VersionKeys.InsertByKeySorted | central-package-migration/scripts/package-version-extractor.py:117 | inserting by key into a key-sorted list keeps it sorted |
| VersionKeys.SortByKey | central-package-migration/scripts/package-version-extractor.py:116-117 | the sort is a permutation of its input and is sorted by key |
| VersionKeys.HighestIsHighest | central-package-migration/scripts/package-version-extractor.py:116-118 | the last element after the sort is one of the versions and no version has a larger key |
| VersionKeys.HighestKeyUnique | central-package-migration/scripts/package-version-extractor.py:117-118 | two highest versions of the same set have equal keys |
| PackageVersionExtraction.Resolve | central-package-migration/scripts/package-version-extractor.py:113-120 | one package: its versions as a list and a highest version under the key |
| PackageVersionExtraction.ResolvedOneMore | central-package-migration/scripts/package-version-extractor.py:112-120 | handling one more package keeps the conflicts and resolutions exact for the packages handled so far |
| PackageVersionExtraction.ResolveAll | central-package-migration/scripts/package-version-extractor.py:107-122 | conflicts hold exactly the packages with more than one version, each with all its versions; every package gets exactly one resolution, a highest version of its own set |
| PackageVersionExtraction.PackageVersionExtractor.ResolveVersionConflicts | central-package-migration/scripts/package-version-extractor.py:107-122 | the same for the extractor's packages |
| PropsLayout.PropsFrame | central-package-migration/scripts/package-version-extractor.py:139-163 | the generated file starts with the `ManagePackageVersionsCentrally`=`true` property group and ends with `</Project>` |
| PropsLayout.CategoryOrderFacts | central-package-migration/scripts/package-version-extractor.py:147-161 | item groups come in alphabetical category order with `Other` last, one per category that has packages |
| PropsLayout.GroupSound | central-package-migration/scripts/package-version-extractor.py:129-136 | a group lists packages of its category only, each with its resolved version, sorted by name |
| PropsLayout.GroupComplete | central-package-migration/scripts/package-version-extractor.py:129-132 | every package of the category is in its group |
| PropsLayout.LayoutSound | central-package-migration/scripts/package-version-extractor.py:146-161 | every listed entry is a package with its resolved version and one of the listed categories |
| PropsLayout.LayoutOrdered | central-package-migration/scripts/package-version-extractor.py:146-161 | entries are ordered by category order, then by name |
| PropsLayout.LayoutComplete | central-package-migration/scripts/package-version-extractor.py:146-161 | every package whose category is listed has an entry |
| PropsLayout.PackageVersionLinesAreEntries | central-package-migration/scripts/package-version-extractor.py:140-163 | the `PackageVersion` lines of the file are exactly the lines of the entries, in order; the header, group tags and closing tag are not such lines |
| PropsLayout.PropsEntriesFacts | central-package-migration/scripts/package-version-extractor.py:129-161 | each package appears in exactly one entry, carrying its resolved version, in category order then name order |
| PackageVersionExtraction.GroupByCategory | central-package-migration/scripts/package-version-extractor.py:129-132 | the groups are exactly the categories with packages, each holding exactly the packages of that category |
| PackageVersionExtraction.GroupedAdd | central-package-migration/scripts/package-version-extractor.py:131-132 | appending one package to its category's group keeps the grouping exact |
| PackageVersionExtraction.GroupLinesOf | central-package-migration/scripts/package-version-extractor.py:149-153 | one item group: its opening tag, one line per package, the closing tag and a blank line |
| PackageVersionExtraction.AddGroup | central-package-migration/scripts/package-version-extractor.py:149-153 | a category's lines are those of its name-sorted group |
| PackageVersionExtraction.PropsContent | central-package-migration/scripts/package-version-extractor.py:126-165 | the generated text is the layout's lines joined with newlines |
| PackageVersionExtraction.PackageVersionExtractor.GenerateDirectoryPackagesProps | central-package-migration/scripts/package-version-extractor.py:124-172 | returns the layout of a valid resolution as text, together with the exact conflicts |
| PackageVersionExtraction.ReportOne | central-package-migration/scripts/package-version-extractor.py:189-195 | a conflict's report: its versions in string order, its number of source entries, and as its recommendation the resolution it is given, which is a highest version |
| PackageVersionExtraction.ReportConflicts | central-package-migration/scripts/package-version-extractor.py:186-195 | exactly the conflicting packages are reported, each as above, recommending its own resolution |
| PackageVersionExtraction.CountCategories | central-package-migration/scripts/package-version-extractor.py:197-207 | one row per category with packages, in alphabetical order, with its number of packages |
| PackageVersionExtraction.CategoryCountsAddUp | central-package-migration/scripts/package-version-extractor.py:197-207 | the category counts add up to the number of packages |
| PackageVersionExtraction.PackageVersionExtractor.GenerateReport | central-package-migration/scripts/package-version-extractor.py:174-209 | the unique-package count is the number of keys; the conflict count is the number of packages with more than one version; the conflicts and the category rows are as above |
| Strings.SortNames | central-package-migration/scripts/package-version-extractor.py:147 | `sorted` of a set of names: strictly increasing in Python's string order, with the same elements |
| Strings.SortedUnique | central-package-migration/scripts/package-version-extractor.py:147 | there is only one strictly sorted list of a given set |
| Strings.LessTotal | central-package-migration/scripts/package-version-extractor.py:136 | Python's string order is total, so the name sort is well defined |
| BuildLogAnalysis.Index | central-package-migration/scripts/build-log-analyzer.py:28-36 | each code has a place in the pattern table's order |
| BuildLogAnalysis.Priority | central-package-migration/scripts/build-log-analyzer.py:48-56 | every priority is 1, 2 or 3 |
| BuildLogAnalysis.TablesFacts | central-package-migration/scripts/build-log-analyzer.py:28-56 | names and descriptions are unique per code; priority 1 is exactly NU1103, NU1605, NU1202 and NU1010; priority 3 is exactly NU1506 and NU1008 |
| BuildLogAnalysis.SummaryCounts | central-package-migration/scripts/build-log-analyzer.py:86-87 | a code is in the summary iff it matched, and its count is its number of matches |
| BuildLogAnalysis.ErrorsMatchSummary | central-package-migration/scripts/build-log-analyzer.py:78-87 | the error lists have the summary's codes, one record per match, each with its code's description and priority |
| BuildLogAnalysis.TotalIsSum | central-package-migration/scripts/build-log-analyzer.py:86-88 | `total_errors` equals the sum of the summary counts |
| BuildLogAnalysis.PackagesNamed | central-package-migration/scripts/build-log-analyzer.py:90-92 | a package is affected iff some match is a tuple whose first group is that package |
| BuildLogAnalysis.OnlyTupleCodesNamePackages | central-package-migration/scripts/build-log-analyzer.py:29-35 | only codes whose pattern has more than one group contribute packages |
| BuildLogAnalysis.SummaryIsMatchCount | central-package-migration/scripts/build-log-analyzer.py:75-87 | in one log, each code's summary count is its number of `re.findall` matches |
| BuildLogAnalysis.RecordMatches | central-package-migration/scripts/build-log-analyzer.py:78-92 | the inner loop records the code's matches exactly as recording them one by one does |
| BuildLogAnalysis.AnalyzeLog | central-package-migration/scripts/build-log-analyzer.py:58-95 | an unreadable log gives no result; a readable one gives errors, summary, packages and total for exactly the matches of the seven patterns in table order |
| BuildLogAnalysis.WithSuffix | central-package-migration/scripts/build-log-analyzer.py:100 | keeps exactly the entries whose name ends with the suffix |
| BuildLogAnalysis.Readable | central-package-migration/scripts/build-log-analyzer.py:107-111 | keeps exactly the files that could be read |
| BuildLogAnalysis.AnalysedFiles | central-package-migration/scripts/build-log-analyzer.py:100-111 | a file is analysed iff it is readable and ends in `.log` or `.txt` |
| BuildLogAnalysis.AnalyzeDirectory | central-package-migration/scripts/build-log-analyzer.py:97-113 | one result per readable `*.log`/`*.txt` file, in order, each the analysis of that file |
| BuildLogAnalysis.Add | central-package-migration/scripts/build-log-analyzer.py:122-129 | `Counter[key] += n` raises that key's count by n and leaves the others alone |
| BuildLogAnalysis.CodeCountsAreSums | central-package-migration/scripts/build-log-analyzer.py:125-127 | each aggregated code count is the sum of that code's counts over all files |
| BuildLogAnalysis.PackageCountsAreFiles | central-package-migration/scripts/build-log-analyzer.py:128-129 | a package's issue count is the number of files that name it, not its number of errors |
| BuildLogAnalysis.TotalIsSumOfCounts | central-package-migration/scripts/build-log-analyzer.py:121-127 | the aggregated total equals the sum of the aggregated code counts |
| BuildLogAnalysis.AddSummaryCounts | central-package-migration/scripts/build-log-analyzer.py:126-127 | adds one file's summary to the code counter |
| BuildLogAnalysis.AddPackageCounts | central-package-migration/scripts/build-log-analyzer.py:128-129 | adds one to the counter for each package of one file |
| BuildLogAnalysis.Aggregate | central-package-migration/scripts/build-log-analyzer.py:120-129 | the aggregation loop gives the total, the code counter and the package counter over all files |
| BuildLogAnalysis.SortDescFacts | central-package-migration/scripts/build-log-analyzer.py:153 | sorting by count, descending, is a permutation and is ordered |
| BuildLogAnalysis.MostCommonFacts | central-package-migration/scripts/build-log-analyzer.py:161 | `most_common(10)` lists at most 10 counter entries in descending count order, and no omitted entry has a larger count than any listed one |
| BuildLogAnalysis.OfPriorityMembers | central-package-migration/scripts/build-log-analyzer.py:144-147 | a priority group holds exactly the counted codes of that priority |
| BuildLogAnalysis.GroupByPriority | central-package-migration/scripts/build-log-analyzer.py:144-147 | the groups are exactly the priorities with counted codes, each holding its codes |
| BuildLogAnalysis.SectionsOrdered | central-package-migration/scripts/build-log-analyzer.py:149-155 | sections come in ascending priority (blocking, build, warnings), each non-empty and ordered by descending count |
| BuildLogAnalysis.SectionsRows | central-package-migration/scripts/build-log-analyzer.py:151-155 | every row of a section is a counted code of that section's priority |
| BuildLogAnalysis.SectionsCover | central-package-migration/scripts/build-log-analyzer.py:144-155 | every counted code appears in the section of its priority |
| BuildLogAnalysis.SectionsOf | central-package-migration/scripts/build-log-analyzer.py:151-155 | the section loop builds the priority sections of the counts |
| BuildLogAnalysis.RecommendationsFacts | central-package-migration/scripts/build-log-analyzer.py:168-179 | a code is recommended on iff its count is positive and it is not NU1008 |
| BuildLogAnalysis.Recommend | central-package-migration/scripts/build-log-analyzer.py:168-179 | the recommendation checks, in their order |
| BuildLogAnalysis.GenerateSummaryReport | central-package-migration/scripts/build-log-analyzer.py:115-181 | the summary: number of files, total errors, priority sections of the aggregated counts, the ten most common packages, and the recommendations |

## Left out

- File-system traversal (`rglob`, `glob`), reading and writing files, `argparse` and the `main` functions' printing. Files arrive as parameters: parsed elements, contents, or a path-to-content map.
- XML parsing (`ElementTree`). A file arrives as the attributes of the elements a script reads, or as "could not be parsed". For the validator's props file, the children of every `PropertyGroup` arrive flattened in document order. Parse-error messages are not kept.
- The `dotnet restore` / `dotnet build` subprocesses and their time-outs. Their outcome is a parameter of `ValidateBuild`.
- The regular-expression engine of the log analyzer. `re.findall` with each code's pattern is the `Finder` parameter, and the model keeps only the shape of its result (a string for one group, a tuple otherwise).
- Floating-point division and `round(…, 1)`. They are replaced by the integer total and round-half-to-even on the exact tenths.
- The text of the reports: banners, status glyphs, wording and number padding. Reports are datatypes that carry the counts, sections, entries and recommendations the text is made from. `generate_summary` of the updater only prints the log and is not modelled.
- `export_detailed_data`, `export_detailed_results` and `find_project_files`, which are JSON export and globbing.
- `find_and_extract` of the extractor, a loop over globbed files. The per-file steps `ExtractFromPackagesConfig` and `ExtractFromCsproj` are modelled.
- The order of the "VERSION CONFLICTS DETECTED" section. The script lists conflicting packages in the order they were first seen, the insertion order of `self.packages`. The model returns the conflicts, and reports them, as a map from package name, so that order is not modelled.
- The order in which the model's methods walk sets and maps. Methods pick the next element with `:|`, and their contracts hold for every order. Version and package collections are sets. In the log analyzer, the code counter keeps the scripts' insertion order (table order, file by file), and the descending sorts are stable as `sorted(…, reverse=True)` and `most_common` are. Only the order of each file's `packages_affected`, which the script builds from a set, is left arbitrary.
- `generate_summary_report` wrapping a single result dictionary in a list, because the model always takes a list of results.
- The detail lines of the validator are kept as structured values, not formatted strings.
- PackageVersionExtraction.Resolve: requires every two versions of a package to be comparable under the key. For a package with two or more versions, the script's sort finishes exactly when this holds and raises `TypeError` otherwise, because a sort must order every pair, directly or through a chain of comparisons, and such a chain makes the two keys comparable. The model does not carry that exception path as an error result; it excludes exactly those inputs by this precondition.
- PackageVersionExtraction.ResolveAll: inherits the comparability precondition of `Resolve`, for every package.
- PackageVersionExtraction.PackageVersionExtractor.ResolveVersionConflicts: inherits the comparability precondition of `Resolve`.
- PackageVersionExtraction.PackageVersionExtractor.GenerateReport: inherits the comparability precondition of `Resolve`.
- VersionKeys.Key: only ASCII digits make a numeric key segment. Python's `str.isdigit()` and `int()` also accept other Unicode digits, and for a character such as `²`, `isdigit()` holds but `int()` raises `ValueError`; such versions are not modelled.
- CsprojRewrites.AddPropertyIdempotent: proved only for a property name without a backslash. The `<name>` test is literal while the inserted tag is expanded, so with a backslash in the name a second run can insert the element again.
- CsprojRewrites.Expand: follows the template parser of Python 3.12. Older versions accept a few more spellings of `\g<…>`, such as `\g< 1>`.
- PackageVersionExtraction.PackageVersionExtractor.GenerateDirectoryPackagesProps: returns the resolution it lays out as a ghost value. The script returns only the text and the conflicts, so this loses nothing. It also inherits the comparability precondition of `Resolve`.
- BatchProjectUpdate.DryRunPreviewsRun: assumes no path is listed twice and no backup path is listed. The script accepts any list, and then a second visit to a file sees its rewritten content. The same assumption is made by BatchProjectUpdate.RunRewritesListed and BatchProjectUpdate.RunBacksUpOriginal.
- BuildLogAnalysis.PackageCountsAreFiles: assumes each file's `packages_affected` lists no package twice. This always holds for results of `AnalyzeLog`, which lists a set.
- BuildLogAnalysis.SectionsOf: visits priorities 1, 2 and 3 in turn instead of sorting the keys of `priority_groups`. The two give the same sections, because every priority is 1, 2 or 3 (`Priority`).
