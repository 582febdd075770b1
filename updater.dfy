/**
 * The batch project updater: one of four rewrites applied to every listed project file,
 * with a backup written before the first modification of a file, a dry-run mode that
 * writes nothing, and a log of the files that changed.
 *
 * The file system is a map from path to content; a path missing from the map is a file
 * whose read fails, which the updater reports and skips.
 */
module BatchProjectUpdate {
  import C = CsprojRewrites

  type FileMap = map<string, string>

  /** The four operations of the command line. */
  datatype Operation =
    | RemovePackageVersions
    | AddGenerateAssemblyInfo
    | RemovePackage(packageName: string)
    | AddProperty(propertyName: string, propertyValue: string)

  /** One entry of the change log (the source keeps it as a formatted line). */
  datatype Change =
    | RemovedVersions(path: string, count: nat)
    | AddedGenerateAssemblyInfo(path: string)
    | RemovedPackage(path: string, packageName: string)
    | AddedProperty(path: string, propertyName: string, propertyValue: string)

  /**
   * The new content an operation gives a file. A property whose template fails to parse
   * raises inside the per-file `try`, so that file keeps its content and is not logged.
   */
  function Rewrite(op: Operation, content: string): string {
    match op
    case RemovePackageVersions => C.RemovePackageVersions(content)
    case AddGenerateAssemblyInfo => C.AddGenerateAssemblyInfo(content)
    case RemovePackage(name) => C.RemovePackageReference(content, name)
    case AddProperty(name, value) =>
      match C.AddProperty(content, name, value)
      case Some(modified) => modified
      case None => content
  }

  /** The log entry for a file the operation changed; the count is taken on the old content. */
  function ChangeFor(op: Operation, path: string, content: string): (c: Change)
    ensures c.path == path
  {
    match op
    case RemovePackageVersions => RemovedVersions(path, C.CountVersionAttributes(content))
    case AddGenerateAssemblyInfo => AddedGenerateAssemblyInfo(path)
    case RemovePackage(name) => RemovedPackage(path, name)
    case AddProperty(name, value) => AddedProperty(path, name, value)
  }

  function BackupPath(path: string): string {
    path + ".backup"
  }

  /** The files after a backup of `path`: a backup that already exists is left alone. */
  function Backup(files: FileMap, path: string): FileMap
    requires path in files
  {
    if BackupPath(path) in files then files else files[BackupPath(path) := files[path]]
  }

  /** The files and the new log entries after some of the project files were processed. */
  datatype Outcome = Outcome(files: FileMap, changes: seq<Change>)

  /** Processing one project file. */
  function Step(op: Operation, dryRun: bool, files: FileMap, path: string): Outcome {
    if path !in files then Outcome(files, [])
    else
      var content := files[path];
      var modified := Rewrite(op, content);
      if modified == content then Outcome(files, [])
      else if dryRun then Outcome(files, [ChangeFor(op, path, content)])
      else Outcome(Backup(files, path)[path := modified], [ChangeFor(op, path, content)])
  }

  /** Processing the project files in order. */
  function Run(op: Operation, dryRun: bool, files: FileMap, paths: seq<string>): Outcome
    decreases |paths|
  {
    if paths == [] then Outcome(files, [])
    else
      var before := Run(op, dryRun, files, paths[..|paths| - 1]);
      var step := Step(op, dryRun, before.files, paths[|paths| - 1]);
      Outcome(step.files, before.changes + step.changes)
  }

  /** The disk the updater reads and writes. */
  class FileStore {
    var files: FileMap

    constructor(files: FileMap)
      ensures this.files == files
    {
      this.files := files;
    }
  }

  class BatchProjectUpdater {
    const dryRun: bool
    var changesMade: seq<Change>

    constructor(dryRun: bool)
      ensures this.dryRun == dryRun && changesMade == []
    {
      this.dryRun := dryRun;
      changesMade := [];
    }

    /** Copies a project file to its backup, unless a backup already exists. */
    method BackupFile(fs: FileStore, path: string)
      requires path in fs.files
      modifies fs
      ensures fs.files == Backup(old(fs.files), path)
    {
      var backupPath := BackupPath(path);
      if backupPath !in fs.files {
        fs.files := fs.files[backupPath := fs.files[path]];
      }
    }

    /** One project file: rewrite it and, when that changes it, back it up, write it and log it. */
    method ProcessFile(op: Operation, path: string, fs: FileStore)
      modifies this, fs
      ensures fs.files == Step(op, dryRun, old(fs.files), path).files
      ensures changesMade == old(changesMade) + Step(op, dryRun, old(fs.files), path).changes
    {
      if path in fs.files {
        var content := fs.files[path];
        var modified := Rewrite(op, content);
        if modified != content {
          if !dryRun {
            BackupFile(fs, path);
            fs.files := fs.files[path := modified];
          }
          changesMade := changesMade + [ChangeFor(op, path, content)];
        }
      }
    }

    /** The loop the four operations share. */
    method Process(op: Operation, projectFiles: seq<string>, fs: FileStore)
      modifies this, fs
      ensures fs.files == Run(op, dryRun, old(fs.files), projectFiles).files
      ensures changesMade == old(changesMade) + Run(op, dryRun, old(fs.files), projectFiles).changes
    {
      var i := 0;
      while i < |projectFiles|
        invariant 0 <= i <= |projectFiles|
        invariant fs.files == Run(op, dryRun, old(fs.files), projectFiles[..i]).files
        invariant changesMade == old(changesMade) + Run(op, dryRun, old(fs.files), projectFiles[..i]).changes
      {
        assert projectFiles[..i + 1][..i] == projectFiles[..i];
        ProcessFile(op, projectFiles[i], fs);
        i := i + 1;
      }
      assert projectFiles[..i] == projectFiles;
    }

    method RemovePackageVersions(projectFiles: seq<string>, fs: FileStore)
      modifies this, fs
      ensures fs.files == Run(Operation.RemovePackageVersions, dryRun, old(fs.files), projectFiles).files
      ensures changesMade
        == old(changesMade) + Run(Operation.RemovePackageVersions, dryRun, old(fs.files), projectFiles).changes
    {
      Process(Operation.RemovePackageVersions, projectFiles, fs);
    }

    method AddGenerateAssemblyInfo(projectFiles: seq<string>, fs: FileStore)
      modifies this, fs
      ensures fs.files == Run(Operation.AddGenerateAssemblyInfo, dryRun, old(fs.files), projectFiles).files
      ensures changesMade
        == old(changesMade) + Run(Operation.AddGenerateAssemblyInfo, dryRun, old(fs.files), projectFiles).changes
    {
      Process(Operation.AddGenerateAssemblyInfo, projectFiles, fs);
    }

    method RemovePackageReference(projectFiles: seq<string>, packageName: string, fs: FileStore)
      modifies this, fs
      ensures fs.files == Run(RemovePackage(packageName), dryRun, old(fs.files), projectFiles).files
      ensures changesMade
        == old(changesMade) + Run(RemovePackage(packageName), dryRun, old(fs.files), projectFiles).changes
    {
      Process(RemovePackage(packageName), projectFiles, fs);
    }

    method AddProperty(projectFiles: seq<string>, propertyName: string, propertyValue: string, fs: FileStore)
      modifies this, fs
      ensures fs.files == Run(Operation.AddProperty(propertyName, propertyValue), dryRun, old(fs.files), projectFiles).files
      ensures changesMade
        == old(changesMade) + Run(Operation.AddProperty(propertyName, propertyValue), dryRun, old(fs.files), projectFiles).changes
    {
      Process(Operation.AddProperty(propertyName, propertyValue), projectFiles, fs);
    }
  }

  // ---------------------------------------------------------------------------
  // Properties of a run
  // ---------------------------------------------------------------------------

  /** The log a run should produce: one entry per readable file whose content the operation changes. */
  function ExpectedChanges(op: Operation, files: FileMap, paths: seq<string>): seq<Change>
    decreases |paths|
  {
    if paths == [] then []
    else
      var p := paths[|paths| - 1];
      ExpectedChanges(op, files, paths[..|paths| - 1])
      + (if p in files && Rewrite(op, files[p]) != files[p] then [ChangeFor(op, p, files[p])] else [])
  }

  /** No path is listed twice, and no listed path is the backup of a listed path. */
  predicate Separate(paths: seq<string>) {
    (forall j, k :: 0 <= j < k < |paths| ==> paths[j] != paths[k])
    && (forall j, k :: 0 <= j < |paths| && 0 <= k < |paths| ==> paths[j] != BackupPath(paths[k]))
  }

  /** A dry run writes no file and no backup. */
  lemma {:induction false} DryRunWritesNothing(op: Operation, files: FileMap, paths: seq<string>)
    decreases |paths|
    ensures Run(op, true, files, paths).files == files
  {
    if paths != [] {
      DryRunWritesNothing(op, files, paths[..|paths| - 1]);
    }
  }

  /** A dry run logs exactly the files the operation would change. */
  lemma {:induction false} DryRunLogsChanges(op: Operation, files: FileMap, paths: seq<string>)
    decreases |paths|
    ensures Run(op, true, files, paths).changes == ExpectedChanges(op, files, paths)
  {
    if paths != [] {
      DryRunLogsChanges(op, files, paths[..|paths| - 1]);
      DryRunWritesNothing(op, files, paths[..|paths| - 1]);
    }
  }

  /**
   * A run writes only the listed files and backups of listed files, and never overwrites
   * a file it did not list: in particular a backup that already exists keeps its content.
   */
  lemma {:induction false} OnlyListedFilesChange(op: Operation, dryRun: bool, files: FileMap, paths: seq<string>, q: string)
    requires q !in paths
    decreases |paths|
    ensures q in files ==> q in Run(op, dryRun, files, paths).files
                           && Run(op, dryRun, files, paths).files[q] == files[q]
    ensures q !in files && q in Run(op, dryRun, files, paths).files ==> exists p :: p in paths && q == BackupPath(p)
  {
    if paths != [] {
      var front := paths[..|paths| - 1];
      assert forall p :: p in front ==> p in paths;
      OnlyListedFilesChange(op, dryRun, files, front, q);
    }
  }

  /** The files of a run agree with the original ones outside the listed files and their backups. */
  lemma {:induction false} UnlistedUntouched(op: Operation, dryRun: bool, files: FileMap, paths: seq<string>, q: string)
    requires q !in paths && forall p :: p in paths ==> q != BackupPath(p)
    decreases |paths|
    ensures q in Run(op, dryRun, files, paths).files <==> q in files
    ensures q in files ==> Run(op, dryRun, files, paths).files[q] == files[q]
  {
    if paths != [] {
      var front := paths[..|paths| - 1];
      assert forall p :: p in front ==> p in paths;
      UnlistedUntouched(op, dryRun, files, front, q);
    }
  }

  /**
   * With no path listed twice and no backup listed, a real run logs the same changes as a
   * dry run: the dry-run report is a faithful preview.
   */
  lemma {:induction false} DryRunPreviewsRun(op: Operation, files: FileMap, paths: seq<string>)
    requires Separate(paths)
    decreases |paths|
    ensures Run(op, false, files, paths).changes == Run(op, true, files, paths).changes
  {
    if paths != [] {
      var front := paths[..|paths| - 1];
      var p := paths[|paths| - 1];
      assert Separate(front);
      DryRunPreviewsRun(op, files, front);
      DryRunWritesNothing(op, files, front);
      assert p !in front;
      UnlistedUntouched(op, false, files, front, p);
    }
  }

  lemma BackupPathInjective(a: string, b: string)
    requires BackupPath(a) == BackupPath(b)
    ensures a == b
  {
    assert a == BackupPath(a)[..|a|];
  }

  /** The last step of a run. */
  lemma RunLast(op: Operation, dryRun: bool, files: FileMap, paths: seq<string>)
    requires paths != []
    ensures Run(op, dryRun, files, paths).files
      == Step(op, dryRun, Run(op, dryRun, files, paths[..|paths| - 1]).files, paths[|paths| - 1]).files
  {
  }

  /** A step leaves alone every file but its own and its backup. */
  lemma StepKeeps(op: Operation, dryRun: bool, files: FileMap, path: string, q: string)
    requires q != path && q != BackupPath(path)
    ensures q in Step(op, dryRun, files, path).files <==> q in files
    ensures q in files ==> Step(op, dryRun, files, path).files[q] == files[q]
  {
  }

  /** A real step that changes a file writes the rewritten content and, when none exists, a backup. */
  lemma StepWrites(op: Operation, files: FileMap, path: string)
    requires path in files && Rewrite(op, files[path]) != files[path]
    ensures path in Step(op, false, files, path).files
    ensures Step(op, false, files, path).files[path] == Rewrite(op, files[path])
    ensures BackupPath(path) !in files ==>
      BackupPath(path) in Step(op, false, files, path).files
      && Step(op, false, files, path).files[BackupPath(path)] == files[path]
  {
    assert |BackupPath(path)| != |path|;
  }

  /** A real step on a file the operation does not change writes nothing. */
  lemma StepUnchanged(op: Operation, files: FileMap, path: string)
    requires path in files && Rewrite(op, files[path]) == files[path]
    ensures Step(op, false, files, path).files == files
  {
  }

  /** With no path listed twice and no backup listed, a real run leaves every listed file rewritten. */
  lemma {:induction false} RunRewritesListed(op: Operation, files: FileMap, paths: seq<string>, p: string)
    requires Separate(paths) && p in paths && p in files
    decreases |paths|
    ensures p in Run(op, false, files, paths).files
    ensures Run(op, false, files, paths).files[p] == Rewrite(op, files[p])
  {
    var front := paths[..|paths| - 1];
    var last := paths[|paths| - 1];
    assert Separate(front);
    RunLast(op, false, files, paths);
    var before := Run(op, false, files, front).files;
    if p == last {
      assert p !in front;
      UnlistedUntouched(op, false, files, front, p);
      if Rewrite(op, files[p]) == files[p] {
        StepUnchanged(op, before, p);
      } else {
        StepWrites(op, before, p);
      }
    } else {
      assert p in front;
      RunRewritesListed(op, files, front, p);
      assert p != BackupPath(last);
      StepKeeps(op, false, before, last, p);
    }
  }

  /**
   * With no path listed twice and no backup listed, every file a real run changes whose
   * backup did not exist yet ends up with a backup holding its content from before the run.
   */
  lemma {:induction false} RunBacksUpOriginal(op: Operation, files: FileMap, paths: seq<string>, p: string)
    requires Separate(paths) && p in paths && p in files
    requires Rewrite(op, files[p]) != files[p] && BackupPath(p) !in files
    decreases |paths|
    ensures BackupPath(p) in Run(op, false, files, paths).files
    ensures Run(op, false, files, paths).files[BackupPath(p)] == files[p]
  {
    var front := paths[..|paths| - 1];
    var last := paths[|paths| - 1];
    assert Separate(front);
    RunLast(op, false, files, paths);
    var before := Run(op, false, files, front).files;
    if p == last {
      assert p !in front;
      UnlistedUntouched(op, false, files, front, p);
      assert BackupPath(p) !in front;
      forall q | q in front ensures BackupPath(p) != BackupPath(q) {
        if BackupPath(p) == BackupPath(q) { BackupPathInjective(p, q); }
      }
      UnlistedUntouched(op, false, files, front, BackupPath(p));
      StepWrites(op, before, p);
    } else {
      assert p in front;
      RunBacksUpOriginal(op, files, front, p);
      assert last != BackupPath(p);
      if BackupPath(p) == BackupPath(last) { BackupPathInjective(p, last); }
      StepKeeps(op, false, before, last, BackupPath(p));
    }
  }

  /** Every version-removal entry a run logs, dry or real, reports a positive number of removed attributes. */
  lemma {:induction false} RemovalCountsPositive(dryRun: bool, files: FileMap, paths: seq<string>, c: Change)
    requires c in Run(Operation.RemovePackageVersions, dryRun, files, paths).changes
    decreases |paths|
    ensures c.RemovedVersions? && c.count > 0
  {
    var op := Operation.RemovePackageVersions;
    var front := paths[..|paths| - 1];
    var before := Run(op, dryRun, files, front);
    if c in before.changes {
      RemovalCountsPositive(dryRun, files, front, c);
    } else {
      C.RemovePackageVersionsChangesIff(before.files[paths[|paths| - 1]]);
    }
  }
}
