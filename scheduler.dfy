/** The scheduler's side of the backups (scheduled_dumps.py): the folder
    table, `cleanup_old_dumps` over a mutable filesystem, and the fixed
    prune-then-produce sequence of `run_all_dumps`.

    The filesystem is a map from folder path to folder contents; the
    producers are external processes whose only effect visible here is
    the dump file they may leave in their folder.
 */
module Scheduler {
  import opened Wrappers
  import opened Retention

  /** `DUMP_FOLDERS`: source key to local dump folder. */
  const DumpFolders: map<string, string> :=
    map["bopo" := "BOPO_test", "ext_test" := "EXT_test", "ext_prod" := "EXT_production"]

  /** Each source has a folder of its own, so one source's cleanup never
      deletes another source's dumps. */
  lemma FolderTableInjective()
    ensures DumpFolders.Keys == {"bopo", "ext_test", "ext_prod"}
    ensures forall k, k' :: k in DumpFolders && k' in DumpFolders && k != k' ==>
      DumpFolders[k] != DumpFolders[k']
  {
    forall k, k' | k in DumpFolders && k' in DumpFolders && k != k'
      ensures DumpFolders[k] != DumpFolders[k']
    {
      assert k in {"bopo", "ext_test", "ext_prod"} && k' in {"bopo", "ext_test", "ext_prod"};
    }
  }

  /** `KEEP_LAST`, the module-level constant. `run_all_dumps` never passes
      it: every cleanup runs with the parameter default below. */
  const KeepLast: nat := 10

  /** The default of `cleanup_old_dumps`'s own `KEEP_LAST` parameter. */
  const DefaultKeep: nat := 10

  const BopoScript: string := "download_bopo_dump.py"
  const ExtTestScript: string := "download_EXT_dump.py"
  const ExtProdScript: string := "download_ext_production_dump.py"

  /** One observable step of a run: the files a cleanup deleted (its
      "[INFO] Deleting old dump" lines) and each producer launch. */
  datatype Step =
    | CleanedUp(folder: string, deleted: seq<string>)
    | Launched(script: string)

  /** The dump file a producer run leaves behind. */
  datatype NewDump = NewDump(name: string, mtime: nat)

  /** A folder (absent, or present with its contents) after a producer
      run: a dump that was written lands in the folder, creating it if
      needed; a run that wrote nothing leaves the folder as it was. */
  function AfterProducer(before: Option<Folder>, out: Option<NewDump>): (after: Option<Folder>)
    ensures out.None? ==> after == before
    ensures out.Some? ==> after.Some? && out.value.name in after.value
    ensures out.Some? ==> after.value[out.value.name] == out.value.mtime
    ensures out.Some? && before.Some? ==> forall f :: f in before.value && f != out.value.name ==>
      f in after.value && after.value[f] == before.value[f]
    ensures out.Some? ==> forall f :: f in after.value ==>
      f == out.value.name || (before.Some? && f in before.value)
  {
    match out
    case None => before
    case Some(nd) => Some((if before.Some? then before.value else map[])[nd.name := nd.mtime])
  }

  /** What one source's turn in a run does to its folder: a missing folder
      has nothing deleted; an existing one has exactly the victims of some
      listing order deleted and is pruned under that order; then the
      producer's output, if any, is added. */
  ghost predicate CleanedThenProduced(before: Option<Folder>, deleted: seq<string>,
                                      after: Option<Folder>, out: Option<NewDump>, keep: nat)
  {
    match before
    case None => deleted == [] && after == AfterProducer(None, out)
    case Some(d) =>
      exists listing ::
        && IsListing(listing, d)
        && deleted == Victims(d, listing, keep)
        && after == AfterProducer(Some(d - Elems(deleted)), out)
  }

  /** After a source's turn its folder holds at most keep + 1 `.sql`
      files: pruning happens before the new dump arrives. */
  lemma RunLeavesAtMostKeepPlusOne(before: Option<Folder>, deleted: seq<string>,
                                   after: Option<Folder>, out: Option<NewDump>, keep: nat)
    requires CleanedThenProduced(before, deleted, after, out, keep)
    ensures after.Some? ==> |SqlNames(after.value)| <= keep + 1
  {
    if after.Some? {
      var pruned: Option<Folder>;
      match before {
        case None =>
          pruned := None;
        case Some(d) =>
          var listing :| IsListing(listing, d) && deleted == Victims(d, listing, keep)
            && after == AfterProducer(Some(d - Elems(deleted)), out);
          CleanupCounts(d, listing, keep);
          pruned := Some(Prune(d, listing, keep));
      }
      assert after == AfterProducer(pruned, out);
      var base := if pruned.Some? then SqlNames(pruned.value) else {};
      assert |base| <= keep;
      match out {
        case None =>
          assert SqlNames(after.value) == base;
        case Some(nd) =>
          assert SqlNames(after.value) <= base + {nd.name};
          SubsetCard(SqlNames(after.value), base + {nd.name});
      }

    }
  }

  /** The bound keep + 1 is reached: a folder that already holds at least
      keep `.sql` files ends the run with exactly keep + 1 of them when the
      producer writes a new `.sql` file. */
  lemma RunCanLeaveKeepPlusOne(d: Folder, listing: seq<string>, keep: nat, nd: NewDump)
    requires IsListing(listing, d)
    requires |SqlNames(d)| >= keep
    requires IsSql(nd.name) && nd.name !in d
    ensures var after := AfterProducer(Some(Prune(d, listing, keep)), Some(nd));
      after.Some? && |SqlNames(after.value)| == keep + 1
  {
    CleanupCounts(d, listing, keep);
    var pruned := Prune(d, listing, keep);
    assert nd.name !in pruned;
    AddSqlFile(pruned, nd);
    assert AfterProducer(Some(pruned), Some(nd)) == Some(pruned[nd.name := nd.mtime]);
  }

  /** Writing a new `.sql` file adds exactly one `.sql` name. */
  lemma AddSqlFile(f: Folder, nd: NewDump)
    requires IsSql(nd.name) && nd.name !in f
    ensures |SqlNames(f[nd.name := nd.mtime])| == |SqlNames(f)| + 1
  {
    assert SqlNames(f[nd.name := nd.mtime]) == SqlNames(f) + {nd.name};
  }

  /** The local disk, as far as the scripts use it. */
  class FileSystem {
    var dirs: map<string, Folder>

    constructor (initial: map<string, Folder>)
      ensures dirs == initial
    {
      dirs := initial;
    }

    /** `os.listdir(folder)`: every name once, in an order the model does
        not fix. */
    method ListDir(folder: string) returns (names: seq<string>)
      requires folder in dirs
      ensures IsListing(names, dirs[folder])
    {
      names := [];
      var left := dirs[folder].Keys;
      while left != {}
        invariant left <= dirs[folder].Keys
        invariant Distinct(names)
        invariant forall f :: f in names ==> f in dirs[folder] && f !in left
        invariant forall f :: f in dirs[folder] ==> f in names || f in left
        decreases left
      {
        var f :| f in left;
        DistinctSnoc(names, f);
        names := names + [f];
        left := left - {f};
      }
    }

    /** `os.remove(os.path.join(folder, name))` */
    method Remove(folder: string, name: string)
      requires folder in dirs && name in dirs[folder]
      modifies this
      ensures dirs == old(dirs)[folder := old(dirs)[folder] - {name}]
    {
      dirs := dirs[folder := dirs[folder] - {name}];
    }
  }

  lemma DistinctSnoc(s: seq<string>, x: string)
    requires Distinct(s) && x !in s
    ensures Distinct(s + [x])
  {
    forall i, j | 0 <= i < j < |s + [x]|
      ensures (s + [x])[i] != (s + [x])[j]
    {
      assert (s + [x])[i] == s[i];
      if j < |s| {
        assert (s + [x])[j] == s[j];
      }
    }
  }

  /** `cleanup_old_dumps(folder, KEEP_LAST)`. If the folder does not exist
      nothing happens; otherwise the files at position >= keep of the
      newest-first `.sql` list are removed one by one. `deleted` is that
      list, in the order of removal; `listing` is the order `os.listdir`
      returned. */
  method CleanupOldDumps(fs: FileSystem, folder: string, keep: nat := DefaultKeep)
    returns (deleted: seq<string>, ghost listing: seq<string>)
    modifies fs
    ensures folder !in old(fs.dirs) ==> deleted == [] && fs.dirs == old(fs.dirs)
    ensures folder in old(fs.dirs) ==>
      && IsListing(listing, old(fs.dirs)[folder])
      && deleted == Victims(old(fs.dirs)[folder], listing, keep)
      && fs.dirs == old(fs.dirs)[folder := Prune(old(fs.dirs)[folder], listing, keep)]
  {
    if folder !in fs.dirs {
      deleted, listing := [], [];
      return;
    }
    var names := fs.ListDir(folder);
    listing := names;
    ghost var d := fs.dirs[folder];
    var files := Candidates(names);
    files := NewestFirst(files, fs.dirs[folder]);
    deleted := if keep < |files| then files[keep..] else [];
    SortedCandidates(d, listing);
    assert Distinct(deleted);
    assert Elems(deleted[..0]) == {};
    assert fs.dirs == old(fs.dirs);
    assert d - {} == d;
    assert old(fs.dirs)[folder := d - {}] == old(fs.dirs);
    var i := 0;
    while i < |deleted|
      invariant 0 <= i <= |deleted|
      invariant fs.dirs == old(fs.dirs)[folder := d - Elems(deleted[..i])]
    {
      assert deleted[i] in d;
      assert deleted[i] !in Elems(deleted[..i]);
      assert Elems(deleted[..i + 1]) == Elems(deleted[..i]) + {deleted[i]};
      assert (d - Elems(deleted[..i])) - {deleted[i]} == d - Elems(deleted[..i + 1]);
      fs.Remove(folder, deleted[i]);
      i := i + 1;
    }
    assert deleted[..i] == deleted;
  }

  /** `subprocess.run([VENV_PYTHON, script])` for a producer that writes
      into `folder`. The exit code is discarded: the caller cannot tell a
      failed run from a successful one. */
  method Launch(fs: FileSystem, folder: string, out: Option<NewDump>)
    modifies fs
    ensures Lookup(fs.dirs, folder) == AfterProducer(Lookup(old(fs.dirs), folder), out)
    ensures forall f :: f != folder ==> Lookup(fs.dirs, f) == Lookup(old(fs.dirs), f)
  {
    if out.Some? {
      var existing := if folder in fs.dirs then fs.dirs[folder] else map[];
      fs.dirs := fs.dirs[folder := existing[out.value.name := out.value.mtime]];
    }
  }

  /** One source's turn inside `run_all_dumps`: clean its folder, then
      launch its producer. */
  method SourceTurn(fs: FileSystem, folder: string, script: string, out: Option<NewDump>)
    returns (steps: seq<Step>)
    modifies fs
    ensures |steps| == 2 && steps[0].CleanedUp? && steps[0].folder == folder
    ensures steps[1] == Launched(script)
    ensures CleanedThenProduced(Lookup(old(fs.dirs), folder), steps[0].deleted, Lookup(fs.dirs, folder),
                                out, DefaultKeep)
    ensures forall f :: f != folder ==> Lookup(fs.dirs, f) == Lookup(old(fs.dirs), f)
  {
    ghost var before := Lookup(fs.dirs, folder);
    var deleted;
    ghost var listing;
    deleted, listing := CleanupOldDumps(fs, folder);
    Launch(fs, folder, out);
    steps := [CleanedUp(folder, deleted), Launched(script)];
    TurnOutcome(before, deleted, Lookup(fs.dirs, folder), out, listing);
  }

  /** `run_all_dumps`: bopo, then ext_test, then ext_prod; for each source
      its folder is cleaned with the default keep count and then its
      producer is launched, whatever the previous producer did. */
  method RunAllDumps(fs: FileSystem, bopoOut: Option<NewDump>, extTestOut: Option<NewDump>,
                     extProdOut: Option<NewDump>)
    returns (log: seq<Step>)
    modifies fs
    ensures |log| == 6
    ensures log[0].CleanedUp? && log[0].folder == DumpFolders["bopo"]
    ensures log[1] == Launched(BopoScript)
    ensures log[2].CleanedUp? && log[2].folder == DumpFolders["ext_test"]
    ensures log[3] == Launched(ExtTestScript)
    ensures log[4].CleanedUp? && log[4].folder == DumpFolders["ext_prod"]
    ensures log[5] == Launched(ExtProdScript)
    ensures CleanedThenProduced(Lookup(old(fs.dirs), DumpFolders["bopo"]), log[0].deleted,
                                Lookup(fs.dirs, DumpFolders["bopo"]), bopoOut, DefaultKeep)
    ensures CleanedThenProduced(Lookup(old(fs.dirs), DumpFolders["ext_test"]), log[2].deleted,
                                Lookup(fs.dirs, DumpFolders["ext_test"]), extTestOut, DefaultKeep)
    ensures CleanedThenProduced(Lookup(old(fs.dirs), DumpFolders["ext_prod"]), log[4].deleted,
                                Lookup(fs.dirs, DumpFolders["ext_prod"]), extProdOut, DefaultKeep)
    ensures forall key :: key in DumpFolders && DumpFolders[key] in fs.dirs ==>
      |SqlNames(fs.dirs[DumpFolders[key]])| <= DefaultKeep + 1
    ensures forall f :: f !in DumpFolders.Values ==> Lookup(fs.dirs, f) == Lookup(old(fs.dirs), f)
  {
    var bopo, extTest, extProd := DumpFolders["bopo"], DumpFolders["ext_test"], DumpFolders["ext_prod"];
    ghost var s0 := fs.dirs;
    var bopoSteps := SourceTurn(fs, bopo, BopoScript, bopoOut);
    ghost var s1 := fs.dirs;
    var extTestSteps := SourceTurn(fs, extTest, ExtTestScript, extTestOut);
    ghost var s2 := fs.dirs;
    var extProdSteps := SourceTurn(fs, extProd, ExtProdScript, extProdOut);
    log := [bopoSteps[0], bopoSteps[1], extTestSteps[0], extTestSteps[1], extProdSteps[0], extProdSteps[1]];
    TurnsCompose(s0, s1, s2, fs.dirs, bopoSteps[0].deleted, extTestSteps[0].deleted, extProdSteps[0].deleted,
                 bopoOut, extTestOut, extProdOut);
  }

  /** Three turns in a row, each touching only its own folder, leave each
      table folder as its own turn left it, with at most keep + 1 `.sql`
      files, and every other folder as it was. */
  lemma TurnsCompose(s0: map<string, Folder>, s1: map<string, Folder>, s2: map<string, Folder>,
                     s3: map<string, Folder>, bopoDeleted: seq<string>, extTestDeleted: seq<string>,
                     extProdDeleted: seq<string>, bopoOut: Option<NewDump>, extTestOut: Option<NewDump>,
                     extProdOut: Option<NewDump>)
    requires CleanedThenProduced(Lookup(s0, DumpFolders["bopo"]), bopoDeleted,
                                 Lookup(s1, DumpFolders["bopo"]), bopoOut, DefaultKeep)
    requires forall f :: f != DumpFolders["bopo"] ==> Lookup(s1, f) == Lookup(s0, f)
    requires CleanedThenProduced(Lookup(s1, DumpFolders["ext_test"]), extTestDeleted,
                                 Lookup(s2, DumpFolders["ext_test"]), extTestOut, DefaultKeep)
    requires forall f :: f != DumpFolders["ext_test"] ==> Lookup(s2, f) == Lookup(s1, f)
    requires CleanedThenProduced(Lookup(s2, DumpFolders["ext_prod"]), extProdDeleted,
                                 Lookup(s3, DumpFolders["ext_prod"]), extProdOut, DefaultKeep)
    requires forall f :: f != DumpFolders["ext_prod"] ==> Lookup(s3, f) == Lookup(s2, f)
    ensures CleanedThenProduced(Lookup(s0, DumpFolders["bopo"]), bopoDeleted,
                                Lookup(s3, DumpFolders["bopo"]), bopoOut, DefaultKeep)
    ensures CleanedThenProduced(Lookup(s0, DumpFolders["ext_test"]), extTestDeleted,
                                Lookup(s3, DumpFolders["ext_test"]), extTestOut, DefaultKeep)
    ensures CleanedThenProduced(Lookup(s0, DumpFolders["ext_prod"]), extProdDeleted,
                                Lookup(s3, DumpFolders["ext_prod"]), extProdOut, DefaultKeep)
    ensures forall key :: key in DumpFolders && DumpFolders[key] in s3 ==>
      |SqlNames(s3[DumpFolders[key]])| <= DefaultKeep + 1
    ensures forall f :: f !in DumpFolders.Values ==> Lookup(s3, f) == Lookup(s0, f)
  {
    var bopo, extTest, extProd := DumpFolders["bopo"], DumpFolders["ext_test"], DumpFolders["ext_prod"];
    var b, e, p := Lookup(s3, bopo), Lookup(s3, extTest), Lookup(s3, extProd);
    assert Lookup(s1, bopo) == b;
    assert Lookup(s0, extTest) == Lookup(s1, extTest);
    assert Lookup(s2, extTest) == e;
    assert Lookup(s0, extProd) == Lookup(s2, extProd);
    RunLeavesAtMostKeepPlusOne(Lookup(s0, bopo), bopoDeleted, b, bopoOut, DefaultKeep);
    RunLeavesAtMostKeepPlusOne(Lookup(s0, extTest), extTestDeleted, e, extTestOut, DefaultKeep);
    RunLeavesAtMostKeepPlusOne(Lookup(s2, extProd), extProdDeleted, p, extProdOut, DefaultKeep);
    assert DumpFolders.Values == {bopo, extTest, extProd};
    forall key | key in DumpFolders && DumpFolders[key] in s3
      ensures |SqlNames(s3[DumpFolders[key]])| <= DefaultKeep + 1
    {
      assert key in {"bopo", "ext_test", "ext_prod"};
    }
  }

  /** Packages one source's cleanup-then-launch as CleanedThenProduced. */
  lemma TurnOutcome(before: Option<Folder>, deleted: seq<string>, after: Option<Folder>,
                    out: Option<NewDump>, listing: seq<string>)
    requires before.None? ==> deleted == [] && after == AfterProducer(None, out)
    requires before.Some? ==> IsListing(listing, before.value)
    requires before.Some? ==> deleted == Victims(before.value, listing, DefaultKeep)
    requires before.Some? ==> after == AfterProducer(Some(Prune(before.value, listing, DefaultKeep)), out)
    ensures CleanedThenProduced(before, deleted, after, out, DefaultKeep)
  {
  }
}
