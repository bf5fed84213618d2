/** Local retention: in the daily and the weekly directory keep the N lexically largest `.dump`
    files and remove the older dump/sidecar pairs one at a time, best effort. */
module Retention {
  import opened Wrappers
  import opened Text
  import opened Exceptions
  import opened Files

  /** The directories and the number of backups to keep in each swept directory. */
  datatype RetentionConfig = RetentionConfig(
    dailyDir: string, weeklyDir: string, manualDir: string,
    retentionDaily: int, retentionWeekly: int)
  {
    /** The configuration accepts retention counts of at least 1 and distinct directories. */
    predicate Valid() {
      retentionDaily >= 1 && retentionWeekly >= 1
      && dailyDir != weeklyDir && dailyDir != manualDir && weeklyDir != manualDir
    }
  }

  /** `RetentionReport`: the removed paths (dumps and sidecars) and the kept counts. */
  datatype RetentionReport = RetentionReport(
    removedDaily: seq<Path>, removedWeekly: seq<Path>, keptDaily: int, keptWeekly: int)
  {
    /** `total_removed`: files, not backups. */
    function TotalRemoved(): nat {
      |removedDaily| + |removedWeekly|
    }
  }

  predicate AllDumpNames(names: seq<string>) {
    forall i :: 0 <= i < |names| ==> EndsWith(names[i], ".dump")
  }

  // ---------------------------------------------------------------------------
  // The cleanup loop, as a specification
  // ---------------------------------------------------------------------------

  /** One iteration of the cleanup loop: unlink the dump; when that worked, unlink its sidecar
      if it exists. An OSError ends the iteration and is swallowed. */
  function RemovePair(fs: Fs, dump: Path): (Fs, seq<Path>)
    requires dump.Path? && dump.name != ""
  {
    match Unlink(fs, dump)
    case Err(_) => (fs, [])
    case Ok(fs1) =>
      var json := Sidecar(dump);
      if json in fs1.files then
        match Unlink(fs1, json)
        case Err(_) => (fs1, [dump])
        case Ok(fs2) => (fs2, [dump, json])
      else (fs1, [dump])
  }

  /** The loop run over `names` in order: the file system after it and the `removed` list. */
  function RemovePairs(fs: Fs, dir: string, names: seq<string>): (Fs, seq<Path>)
    requires AllDumpNames(names)
  {
    if names == [] then (fs, [])
    else
      var first := RemovePairs(fs, dir, names[..|names| - 1]);
      var step := RemovePair(first.0, Path(dir, names[|names| - 1]));
      (step.0, first.1 + step.1)
  }

  /** Files may only disappear, and the directory sets and permissions do not change. */
  predicate Shrinks(before: Fs, after: Fs) {
    && after.dirs == before.dirs
    && after.locked == before.locked
    && after.unsearchable == before.unsearchable
    && forall p :: p in after.files ==> p in before.files && after.files[p] == before.files[p]
  }

  /** A path the loop over `names` in `dir` may remove: one of the dumps or one of their sidecars. */
  predicate Target(dir: string, names: seq<string>, p: Path)
    requires AllDumpNames(names)
  {
    p.Path? && p.dir == dir
    && exists i :: 0 <= i < |names| && (p.name == names[i] || p == Sidecar(Path(dir, names[i])))
  }

  /** One iteration in detail: nothing happens when the dump is missing or locked; otherwise the
      dump goes, followed by its sidecar exactly when that exists and is not locked. */
  lemma RemovePairStep(fs: Fs, dump: Path)
    requires dump.Path? && EndsWith(dump.name, ".dump")
    ensures Sidecar(dump) != dump
    ensures var after, removed := RemovePair(fs, dump).0, RemovePair(fs, dump).1;
            && Shrinks(fs, after)
            && (forall p :: p in removed <==> p in fs.files && p !in after.files)
            && (removed == [] || removed == [dump] || removed == [dump, Sidecar(dump)])
            && (removed != [] <==> dump in fs.files && dump !in fs.locked)
            && (removed == [dump, Sidecar(dump)] <==>
                  dump in fs.files && dump !in fs.locked && Sidecar(dump) in fs.files && Sidecar(dump) !in fs.locked)
  {
    SidecarIsNotDump(dump.name);
  }

  /** The loop only removes files, only its own targets, never a locked file, and reports
      exactly the files it removed. */
  lemma {:induction false} RemovePairsEffect(fs: Fs, dir: string, names: seq<string>)
    requires AllDumpNames(names)
    ensures var after, removed := RemovePairs(fs, dir, names).0, RemovePairs(fs, dir, names).1;
            && Shrinks(fs, after)
            && (forall p :: p in removed <==> p in fs.files && p !in after.files)
            && (forall p :: p in fs.files && p !in after.files ==> Target(dir, names, p) && p !in fs.locked)
    decreases |names|
  {
    if names != [] {
      var init := names[..|names| - 1];
      var last := Path(dir, names[|names| - 1]);
      var fs1, removed1 := RemovePairs(fs, dir, init).0, RemovePairs(fs, dir, init).1;
      RemovePairsEffect(fs, dir, init);
      var fs2, removed2 := RemovePair(fs1, last).0, RemovePair(fs1, last).1;
      RemovePairStep(fs1, last);
      assert RemovePairs(fs, dir, names) == (fs2, removed1 + removed2);
      assert Shrinks(fs, fs2);
      assert forall p :: p in removed1 + removed2 <==> p in removed1 || p in removed2;
      forall p | p in fs.files && p !in fs2.files
        ensures Target(dir, names, p) && p !in fs.locked
      {
        if p !in fs1.files {
          assert Target(dir, init, p);
          var i :| 0 <= i < |init| && (p.name == init[i] || p == Sidecar(Path(dir, init[i])));
          assert init[i] == names[i];
        } else {
          assert p in removed2;
          assert p == last || p == Sidecar(last);
          assert names[|names| - 1] == last.name;
        }
      }
    }
  }

  /** After the loop, the dump `name` is gone when it existed unlocked, and so is its sidecar
      when that existed unlocked too. */
  predicate Swept(before: Fs, after: Fs, dir: string, name: string)
    requires name != ""
  {
    Path(dir, name) in before.files && Path(dir, name) !in before.locked ==>
      && Path(dir, name) !in after.files
      && (Sidecar(Path(dir, name)) in before.files && Sidecar(Path(dir, name)) !in before.locked ==>
            Sidecar(Path(dir, name)) !in after.files)
  }

  lemma SweptStays(before: Fs, mid: Fs, after: Fs, dir: string, name: string)
    requires name != ""
    requires Swept(before, mid, dir, name) && Shrinks(mid, after)
    ensures Swept(before, after, dir, name)
  {
  }

  /** With distinct names, every target that is not locked is removed: each dump, and the
      sidecar of each such dump. */
  lemma {:induction false} RemovePairsComplete(fs: Fs, dir: string, names: seq<string>)
    requires AllDumpNames(names) && Distinct(names)
    ensures var after := RemovePairs(fs, dir, names).0;
            forall i :: 0 <= i < |names| ==> Swept(fs, after, dir, names[i])
    decreases |names|
  {
    if names != [] {
      var n := |names| - 1;
      var init := names[..n];
      var fs1 := RemovePairs(fs, dir, init).0;
      RemovePairsEffect(fs, dir, init);
      RemovePairsComplete(fs, dir, init);
      var last := Path(dir, names[n]);
      RemovePairStep(fs1, last);
      SweptStep(fs, fs1, RemovePair(fs1, last).0, dir, names);
    }
  }

  /** The induction step of `RemovePairsComplete`, on the file systems alone. */
  lemma SweptStep(fs: Fs, fs1: Fs, fs2: Fs, dir: string, names: seq<string>)
    requires AllDumpNames(names) && Distinct(names) && names != []
    requires var init := names[..|names| - 1];
             && Shrinks(fs, fs1)
             && (forall p :: p in fs.files && p !in fs1.files ==> Target(dir, init, p))
             && (forall i :: 0 <= i < |init| ==> Swept(fs, fs1, dir, init[i]))
    requires var last := Path(dir, names[|names| - 1]);
             && Shrinks(fs1, fs2)
             && (last in fs1.files && last !in fs1.locked ==>
                   last !in fs2.files
                   && (Sidecar(last) in fs1.files && Sidecar(last) !in fs1.locked ==> Sidecar(last) !in fs2.files))
    ensures forall i :: 0 <= i < |names| ==> Swept(fs, fs2, dir, names[i])
  {
    var n := |names| - 1;
    var init := names[..n];
    var last := Path(dir, names[n]);
    forall i | 0 <= i < n
      ensures Swept(fs, fs2, dir, names[i])
    {
      assert init[i] == names[i];
      SweptStays(fs, fs1, fs2, dir, names[i]);
    }
    // No earlier iteration removed `last`: its name is not among the earlier names, and an
    // earlier sidecar ends in ".json".
    forall i | 0 <= i < |init|
      ensures last.name != init[i] && last != Sidecar(Path(dir, init[i]))
    {
      assert init[i] == names[i];
      SidecarIsNotDump(init[i]);
    }
    assert !Target(dir, init, last);
    assert Swept(fs, fs2, dir, names[n]);
  }

  /** Every entry of `removed` is one of the dumps, or the sidecar of the entry just before it. */
  predicate Shaped(dir: string, names: seq<string>, removed: seq<Path>)
    requires AllDumpNames(names)
  {
    forall k :: 0 <= k < |removed| ==> ShapedAt(dir, names, removed, k)
  }

  predicate ShapedAt(dir: string, names: seq<string>, removed: seq<Path>, k: int)
    requires AllDumpNames(names) && 0 <= k < |removed|
  {
    DumpOf(dir, names, removed[k])
    || (k > 0 && DumpOf(dir, names, removed[k - 1]) && removed[k] == Sidecar(removed[k - 1]))
  }

  /** The shape of the removed list: every entry is one of the dumps, or the sidecar of the
      entry just before it. */
  lemma {:induction false} RemovedShape(fs: Fs, dir: string, names: seq<string>)
    requires AllDumpNames(names)
    ensures Shaped(dir, names, RemovePairs(fs, dir, names).1)
    decreases |names|
  {
    if names != [] {
      var n := |names| - 1;
      var init := names[..n];
      var fs1 := RemovePairs(fs, dir, init).0;
      RemovedShape(fs, dir, init);
      var last := Path(dir, names[n]);
      RemovePairStep(fs1, last);
      ShapedStep(dir, names, RemovePairs(fs, dir, init).1, RemovePair(fs1, last).1);
    }
  }

  /** The induction step of `RemovedShape`, on the lists alone. */
  lemma ShapedStep(dir: string, names: seq<string>, removed1: seq<Path>, removed2: seq<Path>)
    requires AllDumpNames(names) && names != []
    requires Shaped(dir, names[..|names| - 1], removed1)
    requires var last := Path(dir, names[|names| - 1]);
             removed2 == [] || removed2 == [last] || removed2 == [last, Sidecar(last)]
    ensures Shaped(dir, names, removed1 + removed2)
  {
    var n := |names| - 1;
    var init := names[..n];
    var last := Path(dir, names[n]);
    var removed := removed1 + removed2;
    assert DumpOf(dir, names, last);
    forall k | 0 <= k < |removed|
      ensures ShapedAt(dir, names, removed, k)
    {
      if k < |removed1| {
        assert removed[k] == removed1[k];
        assert ShapedAt(dir, init, removed1, k);
        if k > 0 {
          assert removed[k - 1] == removed1[k - 1];
        }
      } else if k == |removed1| {
        assert removed[k] == last;
      } else {
        assert removed[k - 1] == last && removed[k] == Sidecar(last);
      }
    }
  }

  /** A removed dump whose sidecar existed, was not locked and was not removed earlier is
      immediately followed by that sidecar. */
  predicate Paired(fs: Fs, dir: string, names: seq<string>, removed: seq<Path>)
    requires AllDumpNames(names)
  {
    forall k :: 0 <= k < |removed| && DumpOf(dir, names, removed[k])
      && Sidecar(removed[k]) in fs.files && Sidecar(removed[k]) !in fs.locked
      && Sidecar(removed[k]) !in removed[..k]
      ==> k + 1 < |removed| && removed[k + 1] == Sidecar(removed[k])
  }

  /** A dump removed from the list is followed by its sidecar when that existed unlocked and
      had not been removed already. */
  lemma {:induction false} SidecarFollowsDump(fs: Fs, dir: string, names: seq<string>)
    requires AllDumpNames(names)
    ensures Paired(fs, dir, names, RemovePairs(fs, dir, names).1)
    decreases |names|
  {
    if names != [] {
      var n := |names| - 1;
      var init := names[..n];
      var fs1 := RemovePairs(fs, dir, init).0;
      SidecarFollowsDump(fs, dir, init);
      RemovedShape(fs, dir, init);
      RemovePairsEffect(fs, dir, init);
      var last := Path(dir, names[n]);
      RemovePairStep(fs1, last);
      PairedStep(fs, fs1, dir, names, RemovePairs(fs, dir, init).1, RemovePair(fs1, last).1);
    }
  }

  /** The induction step of `SidecarFollowsDump`, on the lists alone. */
  lemma PairedStep(fs: Fs, fs1: Fs, dir: string, names: seq<string>, removed1: seq<Path>, removed2: seq<Path>)
    requires AllDumpNames(names) && names != []
    requires var init := names[..|names| - 1];
             && Shaped(dir, init, removed1) && Paired(fs, dir, init, removed1)
             && fs1.locked == fs.locked
             && (forall p :: p in removed1 <==> p in fs.files && p !in fs1.files)
    requires var last := Path(dir, names[|names| - 1]);
             && (removed2 == [] || removed2 == [last] || removed2 == [last, Sidecar(last)])
             && (removed2 == [last, Sidecar(last)] <==>
                   removed2 != [] && Sidecar(last) in fs1.files && Sidecar(last) !in fs1.locked)
    ensures Paired(fs, dir, names, removed1 + removed2)
  {
    var n := |names| - 1;
    var init := names[..n];
    var last := Path(dir, names[n]);
    var removed := removed1 + removed2;
    forall k | 0 <= k < |removed| && DumpOf(dir, names, removed[k])
               && Sidecar(removed[k]) in fs.files && Sidecar(removed[k]) !in fs.locked
               && Sidecar(removed[k]) !in removed[..k]
      ensures k + 1 < |removed| && removed[k + 1] == Sidecar(removed[k])
    {
      if k < |removed1| {
        assert removed[k] == removed1[k] && removed[..k] == removed1[..k];
        PairedEarlier(fs, dir, init, names, removed1, removed2, k);
      } else {
        assert removed[..k] == removed1 by {
          assert k == |removed1| by {
            if k > |removed1| {
              SidecarNotDumpPath(dir, names, last);
            }
          }
        }
      }
    }
  }

  /** `PairedStep` for an entry removed by an earlier iteration. */
  lemma PairedEarlier(fs: Fs, dir: string, init: seq<string>, names: seq<string>,
                      removed1: seq<Path>, removed2: seq<Path>, k: int)
    requires AllDumpNames(names) && names != [] && init == names[..|names| - 1]
    requires Shaped(dir, init, removed1) && Paired(fs, dir, init, removed1)
    requires 0 <= k < |removed1|
    requires DumpOf(dir, names, removed1[k])
    requires Sidecar(removed1[k]) in fs.files && Sidecar(removed1[k]) !in fs.locked
    requires Sidecar(removed1[k]) !in removed1[..k]
    ensures k + 1 < |removed1| && (removed1 + removed2)[k + 1] == Sidecar(removed1[k])
  {
    assert ShapedAt(dir, init, removed1, k);
    if k > 0 && DumpOf(dir, init, removed1[k - 1]) {
      DumpOfName(dir, init, removed1[k - 1]);
      SidecarNotDumpPath(dir, names, removed1[k - 1]);
    }
    assert DumpOf(dir, init, removed1[k]);
  }

  lemma DumpOfName(dir: string, names: seq<string>, p: Path)
    requires AllDumpNames(names) && DumpOf(dir, names, p)
    ensures p.name != "" && EndsWith(p.name, ".dump")
  {
    var i :| 0 <= i < |names| && names[i] == p.name;
  }

  /** `p` is the path of one of the dumps `names` in `dir`. */
  predicate DumpOf(dir: string, names: seq<string>, p: Path) {
    p.Path? && p.dir == dir && p.name in names
  }

  lemma SidecarNotDumpPath(dir: string, names: seq<string>, p: Path)
    requires AllDumpNames(names) && p.Path? && p.name != ""
    ensures !DumpOf(dir, names, Sidecar(p))
  {
    SidecarIsNotDump(p.name);
    forall i | 0 <= i < |names|
      ensures names[i] != Sidecar(p).name
    {
      assert EndsWith(names[i], ".dump");
    }
  }

  // ---------------------------------------------------------------------------
  // `_cleanup_directory`
  // ---------------------------------------------------------------------------

  /** The dumps `_cleanup_directory` selects: none when the directory is missing or holds at
      most `retention` dumps, otherwise all but the newest `retention` in name order. */
  function Selected(fs: Fs, dir: string, retention: int): (r: seq<string>)
    requires retention >= 1
    ensures AllDumpNames(r) && Distinct(r)
    ensures dir !in fs.unsearchable && dir in fs.dirs && |DumpNames(fs, dir)| > retention ==>
              |r| == |DumpNames(fs, dir)| - retention
    ensures dir in fs.unsearchable || dir !in fs.dirs || |DumpNames(fs, dir)| <= retention ==> r == []
  {
    var dumps := SortedDumps(fs, dir);
    LexStrictTotalOrder();
    if dir in fs.unsearchable || dir !in fs.dirs || |dumps| <= retention then [] else dumps[..|dumps| - retention]
  }

  /** `_cleanup_directory(directory, retention)`: checking that the directory exists may raise;
      otherwise the selected dumps are removed, each with its sidecar. */
  function Cleanup(fs: Fs, dir: string, retention: int): (r: (Fs, Result<seq<Path>, Error>))
    requires retention >= 1
    ensures r.1.Err? <==> dir in fs.unsearchable
    ensures r.1.Err? ==> r.0 == fs
    ensures Selected(fs, dir, retention) == [] ==> r.0 == fs && (r.1.Ok? ==> r.1.value == [])
  {
    match DirExists(fs, dir)
    case Err(e) => (fs, Err(e))
    case Ok(_) =>
      var swept := RemovePairs(fs, dir, Selected(fs, dir, retention));
      (swept.0, Ok(swept.1))
  }

  /** The body of the loop of `_cleanup_directory`: the `try` block for one dump. */
  method RemoveBackupFiles(fs: Fs, dumpFile: Path) returns (after: Fs, removed: seq<Path>)
    requires dumpFile.Path? && dumpFile.name != ""
    ensures (after, removed) == RemovePair(fs, dumpFile)
  {
    after, removed := fs, [];
    var unlinked := Unlink(after, dumpFile);
    if unlinked.Err? {
      return;
    }
    after := unlinked.value;
    removed := removed + [dumpFile];
    assert removed == [dumpFile];
    var jsonFile := Sidecar(dumpFile);
    if jsonFile in after.files {
      var unlinkedJson := Unlink(after, jsonFile);
      if unlinkedJson.Ok? {
        after := unlinkedJson.value;
        removed := removed + [jsonFile];
        assert removed == [dumpFile, jsonFile];
      }
    }
  }

  /** The loop over one more name runs one more iteration after the loop over the others. */
  lemma RemovePairsPrefix(fs: Fs, dir: string, names: seq<string>, i: nat)
    requires AllDumpNames(names) && i < |names|
    ensures var first := RemovePairs(fs, dir, names[..i]);
            var step := RemovePair(first.0, Path(dir, names[i]));
            RemovePairs(fs, dir, names[..i + 1]) == (step.0, first.1 + step.1)
  {
    assert names[..i + 1][..i] == names[..i];
  }

  /** `_cleanup_directory`, whose loop unlinks one pair at a time and appends what it removed. */
  method CleanupDirectory(fs: Fs, dir: string, retention: int) returns (after: Fs, removed: Result<seq<Path>, Error>)
    requires retention >= 1
    ensures (after, removed) == Cleanup(fs, dir, retention)
  {
    var present := DirExists(fs, dir);
    if present.Err? {
      return fs, Err(present.error);
    }
    if !present.value {
      return fs, Ok([]);
    }
    var dumpFiles := SortedDumps(fs, dir);
    if |dumpFiles| <= retention {
      return fs, Ok([]);
    }
    var toRemove := dumpFiles[..|dumpFiles| - retention];
    assert toRemove == Selected(fs, dir, retention);
    var current := fs;
    var list: seq<Path> := [];
    for i := 0 to |toRemove|
      invariant current == RemovePairs(fs, dir, toRemove[..i]).0
      invariant list == RemovePairs(fs, dir, toRemove[..i]).1
    {
      RemovePairsPrefix(fs, dir, toRemove, i);
      var pairRemoved;
      current, pairRemoved := RemoveBackupFiles(current, Path(dir, toRemove[i]));
      list := list + pairRemoved;
    }
    assert toRemove[..|toRemove|] == toRemove;
    return current, Ok(list);
  }

  /** What a sweep of `dir` does in every case: it only removes files, only in `dir`, only the
      selected dumps and their sidecars, never a locked file, and the list it returns names
      exactly the files it removed. */
  lemma CleanupEffect(fs: Fs, dir: string, retention: int)
    requires retention >= 1
    ensures var (after, removed) := Cleanup(fs, dir, retention);
            && Shrinks(fs, after)
            && (forall p :: p in fs.files && p !in after.files ==>
                  Target(dir, Selected(fs, dir, retention), p) && p !in fs.locked)
            && (removed.Ok? ==> forall p :: p in removed.value <==> p in fs.files && p !in after.files)
  {
    RemovePairsEffect(fs, dir, Selected(fs, dir, retention));
  }

  lemma CleanupShrinks(fs: Fs, dir: string, retention: int)
    requires retention >= 1
    ensures Shrinks(fs, Cleanup(fs, dir, retention).0)
  {
    CleanupEffect(fs, dir, retention);
  }

  /** The newest `retention` dumps are never touched: they remain, with the same content, and
      each of them is later in name order than every selected dump. */
  lemma CleanupKeepsNewest(fs: Fs, dir: string, retention: int)
    requires retention >= 1
    ensures var after := Cleanup(fs, dir, retention).0;
            var dumps := SortedDumps(fs, dir);
            var selected := Selected(fs, dir, retention);
            && (forall j :: |selected| <= j < |dumps| ==>
                  Path(dir, dumps[j]) in after.files && after.files[Path(dir, dumps[j])] == fs.files[Path(dir, dumps[j])])
            && (forall i, j :: 0 <= i < |selected| <= j < |dumps| ==> LexLess(selected[i], dumps[j]))
  {
    var dumps := SortedDumps(fs, dir);
    var selected := Selected(fs, dir, retention);
    CleanupEffect(fs, dir, retention);
    assert selected == dumps[..|selected|];
    forall j | |selected| <= j < |dumps|
      ensures !Target(dir, selected, Path(dir, dumps[j]))
    {
      NewerNotTarget(dir, dumps, |selected|, j);
    }
  }

  /** A dump at or after `cut` in a sorted listing is neither a dump before `cut` nor a sidecar. */
  lemma NewerNotTarget(dir: string, dumps: seq<string>, cut: int, j: int)
    requires StrictlySorted(dumps) && AllDumpNames(dumps)
    requires 0 <= cut <= j < |dumps|
    ensures !Target(dir, dumps[..cut], Path(dir, dumps[j]))
  {
    var p := Path(dir, dumps[j]);
    forall i | 0 <= i < cut
      ensures p.name != dumps[..cut][i] && p != Sidecar(Path(dir, dumps[..cut][i]))
    {
      LexIrreflexive(dumps[i]);
      SidecarIsNotDump(dumps[i]);
    }
  }

  /** With every selected dump unlocked, each of them is removed, and so is each sidecar that
      existed and was not locked. */
  lemma CleanupRemovesOldest(fs: Fs, dir: string, retention: int)
    requires retention >= 1
    ensures var after := Cleanup(fs, dir, retention).0;
            var selected := Selected(fs, dir, retention);
            forall i :: 0 <= i < |selected| ==> Swept(fs, after, dir, selected[i])
  {
    RemovePairsComplete(fs, dir, Selected(fs, dir, retention));
  }

  /** The list `_cleanup_directory` returns holds dumps, each sidecar right after its dump, and
      every removed dump whose sidecar existed, unlocked, is followed by it. */
  lemma CleanupPairs(fs: Fs, dir: string, retention: int)
    requires retention >= 1
    ensures var removed := Cleanup(fs, dir, retention).1;
            var selected := Selected(fs, dir, retention);
            removed.Ok? ==> Shaped(dir, selected, removed.value) && Paired(fs, dir, selected, removed.value)
  {
    RemovedShape(fs, dir, Selected(fs, dir, retention));
    SidecarFollowsDump(fs, dir, Selected(fs, dir, retention));
  }

  // ---------------------------------------------------------------------------
  // `_count_backups`, `enforce_retention`, `get_backup_count`, `list_backups`
  // ---------------------------------------------------------------------------

  /** `_count_backups`: the number of `.dump` files in the directory, 0 when it is missing. */
  function CountBackups(fs: Fs, dir: string): (r: Result<int, Error>)
    ensures r.Ok? <==> dir !in fs.unsearchable
    ensures r.Ok? ==> r.value == if dir in fs.dirs then |DumpNames(fs, dir)| else 0
  {
    match DirExists(fs, dir)
    case Err(e) => Err(e)
    case Ok(present) => if present then Ok(|SortedDumps(fs, dir)|) else Ok(0)
  }

  /** One `try` block of `enforce_retention`: sweep the directory, then report what was removed
      and the count left after the sweep minus the number of removed pairs. */
  function Sweep(fs: Fs, dir: string, retention: int): (r: (Fs, Result<(seq<Path>, int), Error>))
    requires retention >= 1
  {
    var cleaned := Cleanup(fs, dir, retention);
    match cleaned.1
    case Err(e) => (cleaned.0, Err(e))
    case Ok(removed) =>
      match CountBackups(cleaned.0, dir)
      case Err(e) => (cleaned.0, Err(e))
      case Ok(count) => (cleaned.0, Ok((removed, count - |removed| / 2)))
  }

  /** `enforce_retention`: the daily sweep, then the weekly sweep; a failure in either becomes a
      RetentionError naming the sweep, and a daily failure stops before the weekly sweep. */
  function Enforce(cfg: RetentionConfig, fs: Fs): (r: (Fs, Result<RetentionReport, Error>))
    requires cfg.Valid()
    ensures r.1.Err? ==> r.1.error.RetentionError?
  {
    var daily := Sweep(fs, cfg.dailyDir, cfg.retentionDaily);
    if daily.1.Err? then
      (daily.0, Err(RetentionError("Daily cleanup failed: " + daily.1.error.Message())))
    else
      var weekly := Sweep(daily.0, cfg.weeklyDir, cfg.retentionWeekly);
      if weekly.1.Err? then
        (weekly.0, Err(RetentionError("Weekly cleanup failed: " + weekly.1.error.Message())))
      else
        (weekly.0, Ok(RetentionReport(daily.1.value.0, weekly.1.value.0, daily.1.value.1, weekly.1.value.1)))
  }

  /** One sweep of `enforce_retention`'s `try` block: clean the directory, then count what is
      left and subtract the removed pairs. */
  method SweepDirectory(fs: Fs, dir: string, retention: int) returns (after: Fs, swept: Result<(seq<Path>, int), Error>)
    requires retention >= 1
    ensures (after, swept) == Sweep(fs, dir, retention)
  {
    var removed;
    after, removed := CleanupDirectory(fs, dir, retention);
    if removed.Err? {
      return after, Err(removed.error);
    }
    var count := CountBackups(after, dir);
    if count.Err? {
      return after, Err(count.error);
    }
    return after, Ok((removed.value, count.value - |removed.value| / 2));
  }

  /** `enforce_retention`: the daily sweep, then the weekly sweep, each failure wrapped. */
  method EnforceRetention(cfg: RetentionConfig, fs: Fs) returns (after: Fs, result: Result<RetentionReport, Error>)
    requires cfg.Valid()
    ensures (after, result) == Enforce(cfg, fs)
  {
    var daily, weekly;
    after, daily := SweepDirectory(fs, cfg.dailyDir, cfg.retentionDaily);
    if daily.Err? {
      return after, Err(RetentionError("Daily cleanup failed: " + daily.error.Message()));
    }
    after, weekly := SweepDirectory(after, cfg.weeklyDir, cfg.retentionWeekly);
    if weekly.Err? {
      return after, Err(RetentionError("Weekly cleanup failed: " + weekly.error.Message()));
    }
    return after, Ok(RetentionReport(daily.value.0, weekly.value.0, daily.value.1, weekly.value.1));
  }

  /** The directory of a backup type; any other type is a ValueError. */
  function TypeDirectory(cfg: RetentionConfig, backupType: string): (r: Result<string, Error>)
    ensures r.Ok? <==> backupType in {"daily", "weekly", "manual"}
    ensures r.Err? ==> r.error == ValueError("Invalid backup type: " + backupType)
  {
    if backupType == "daily" then Ok(cfg.dailyDir)
    else if backupType == "weekly" then Ok(cfg.weeklyDir)
    else if backupType == "manual" then Ok(cfg.manualDir)
    else Err(ValueError("Invalid backup type: " + backupType))
  }

  /** `get_backup_count`. */
  function GetBackupCount(cfg: RetentionConfig, fs: Fs, backupType: string): (r: Result<int, Error>)
    ensures backupType !in {"daily", "weekly", "manual"} ==> r == Err(ValueError("Invalid backup type: " + backupType))
    ensures TypeDirectory(cfg, backupType).Ok? ==>
              var dir := TypeDirectory(cfg, backupType).value;
              && (r.Ok? <==> dir !in fs.unsearchable)
              && (r.Ok? ==> r.value == if dir in fs.dirs then |DumpNames(fs, dir)| else 0)
  {
    var dir :- TypeDirectory(cfg, backupType);
    CountBackups(fs, dir)
  }

  /** `list_backups`: the `.dump` paths of the type's directory in name order. */
  function ListBackups(cfg: RetentionConfig, fs: Fs, backupType: string): (r: Result<seq<Path>, Error>)
    ensures backupType !in {"daily", "weekly", "manual"} ==> r == Err(ValueError("Invalid backup type: " + backupType))
    ensures r.Ok? ==> GetBackupCount(cfg, fs, backupType) == Ok(|r.value|)
    ensures r.Ok? ==> forall i, j :: 0 <= i < j < |r.value| ==> LexLess(r.value[i].Name(), r.value[j].Name())
    ensures r.Ok? ==> var dir := TypeDirectory(cfg, backupType).value;
              forall p :: p in r.value <==> dir in fs.dirs && p.Path? && p.dir == dir && p in fs.files && EndsWith(p.name, ".dump")
  {
    var dir :- TypeDirectory(cfg, backupType);
    var present :- DirExists(fs, dir);
    if !present then Ok([])
    else
      var names := SortedDumps(fs, dir);
      Ok(PathsIn(dir, names))
  }

  /** The paths of `names` in `dir`, in order. */
  function PathsIn(dir: string, names: seq<string>): (r: seq<Path>)
    ensures |r| == |names|
    ensures forall i :: 0 <= i < |r| ==> r[i] == Path(dir, names[i])
    ensures forall p :: p in r <==> p.Path? && p.dir == dir && p.name in names
  {
    if names == [] then []
    else [Path(dir, names[0])] + PathsIn(dir, names[1..])
  }

  // ---------------------------------------------------------------------------
  // Properties of `enforce_retention`
  // ---------------------------------------------------------------------------

  /** Retention only ever deletes files in the daily and the weekly directory: the manual
      directory, and every other directory, keep all their files. */
  lemma EnforceTouchesOnlySweptDirs(cfg: RetentionConfig, fs: Fs)
    requires cfg.Valid()
    ensures var after := Enforce(cfg, fs).0;
            && Shrinks(fs, after)
            && forall p :: p in fs.files && p !in after.files ==>
                 p.Path? && (p.dir == cfg.dailyDir || p.dir == cfg.weeklyDir) && p !in fs.locked
  {
    var daily := Cleanup(fs, cfg.dailyDir, cfg.retentionDaily);
    CleanupEffect(fs, cfg.dailyDir, cfg.retentionDaily);
    CleanupEffect(daily.0, cfg.weeklyDir, cfg.retentionWeekly);
  }

  /** A failed daily sweep raises before the weekly sweep runs: no weekly file is removed. */
  lemma DailyFailureSkipsWeekly(cfg: RetentionConfig, fs: Fs)
    requires cfg.Valid()
    requires Sweep(fs, cfg.dailyDir, cfg.retentionDaily).1.Err?
    ensures var (after, result) := Enforce(cfg, fs);
            && result == Err(RetentionError("Daily cleanup failed: " + Sweep(fs, cfg.dailyDir, cfg.retentionDaily).1.error.Message()))
            && forall p :: p in fs.files && p.Path? && p.dir == cfg.weeklyDir ==> p in after.files
  {
    CleanupEffect(fs, cfg.dailyDir, cfg.retentionDaily);
  }

  /** Two dump names with non-empty stems have the same sidecar only if they are the same name. */
  lemma SidecarInjective(n1: string, n2: string)
    requires |n1| > 5 && |n2| > 5 && EndsWith(n1, ".dump") && EndsWith(n2, ".dump")
    requires WithSuffix(n1, ".json") == WithSuffix(n2, ".json")
    ensures n1 == n2
  {
    var s1, s2 := n1[..|n1| - 5], n2[..|n2| - 5];
    assert n1 == s1 + ".dump" && n2 == s2 + ".dump";
    SidecarName(s1);
    SidecarName(s2);
    assert s1 + ".json" == s2 + ".json";
    assert s1 == (s1 + ".json")[..|s1|];
    assert s2 == (s2 + ".json")[..|s2|];
  }

  /** When nothing is locked and every selected dump has its sidecar, the loop removes two files
      per dump. */
  lemma {:induction false} RemovePairsCount(fs: Fs, dir: string, names: seq<string>)
    requires AllDumpNames(names) && Distinct(names) && fs.locked == {}
    requires forall i :: 0 <= i < |names| ==>
               |names[i]| > 5 && Path(dir, names[i]) in fs.files && Sidecar(Path(dir, names[i])) in fs.files
    ensures |RemovePairs(fs, dir, names).1| == 2 * |names|
    decreases |names|
  {
    if names != [] {
      var n := |names| - 1;
      var init := names[..n];
      var fs1 := RemovePairs(fs, dir, init).0;
      RemovePairsCount(fs, dir, init);
      RemovePairsEffect(fs, dir, init);
      var last := Path(dir, names[n]);
      forall i | 0 <= i < |init|
        ensures last.name != init[i] && last != Sidecar(Path(dir, init[i]))
        ensures Sidecar(last).name != init[i] && Sidecar(last) != Sidecar(Path(dir, init[i]))
      {
        assert init[i] == names[i];
        SidecarIsNotDump(init[i]);
        SidecarIsNotDump(last.name);
        if Sidecar(last) == Sidecar(Path(dir, init[i])) {
          SidecarInjective(last.name, init[i]);
        }
      }
      assert !Target(dir, init, last) && !Target(dir, init, Sidecar(last));
      RemovePairStep(fs1, last);
    }
  }

  /** With nothing locked, the dumps left after a sweep are exactly the newest `retention`. */
  lemma DumpsLeft(fs: Fs, dir: string, retention: int)
    requires retention >= 1 && fs.locked == {}
    ensures var dumps := SortedDumps(fs, dir);
            SortedDumps(Cleanup(fs, dir, retention).0, dir) == dumps[|Selected(fs, dir, retention)|..]
  {
    var dumps := SortedDumps(fs, dir);
    var selected := Selected(fs, dir, retention);
    var cut := |selected|;
    var after := Cleanup(fs, dir, retention).0;
    assert selected == dumps[..cut];
    CleanupShrinks(fs, dir, retention);
    CleanupRemovesOldest(fs, dir, retention);
    CleanupKeepsNewest(fs, dir, retention);
    assert forall i :: 0 <= i < cut ==> dumps[i] == selected[i];
    LeftAfterCut(fs, after, dir, dumps, SortedDumps(after, dir), cut);
  }

  /** The dumps left in `after` are those of the sorted listing `dumps` from `cut` on, when the
      ones before `cut` were swept and the ones after it kept. */
  lemma LeftAfterCut(fs: Fs, after: Fs, dir: string, dumps: seq<string>, left: seq<string>, cut: int)
    requires fs.locked == {} && Shrinks(fs, after) && 0 <= cut <= |dumps|
    requires StrictlySorted(dumps) && forall n :: n in dumps <==> Path(dir, n) in fs.files && EndsWith(n, ".dump")
    requires StrictlySorted(left) && forall n :: n in left <==> Path(dir, n) in after.files && EndsWith(n, ".dump")
    requires forall i :: 0 <= i < cut ==> |dumps[i]| > 0 && Swept(fs, after, dir, dumps[i])
    requires forall j :: cut <= j < |dumps| ==> Path(dir, dumps[j]) in after.files
    ensures left == dumps[cut..]
  {
    forall x
      ensures x in left <==> x in dumps[cut..]
    {
      if x in left {
        LeftIsNewer(fs, after, dir, dumps, cut, x);
      }
      if x in dumps[cut..] {
        NewerIsLeft(after, dir, dumps, cut, x);
      }
    }
    SortedUnique(left, dumps[cut..]);
  }

  /** A dump after the cut is still present after the sweep. */
  lemma NewerIsLeft(after: Fs, dir: string, dumps: seq<string>, cut: int, x: string)
    requires 0 <= cut <= |dumps| && AllDumpNames(dumps)
    requires forall j :: cut <= j < |dumps| ==> Path(dir, dumps[j]) in after.files
    requires x in dumps[cut..]
    ensures Path(dir, x) in after.files && EndsWith(x, ".dump")
  {
    var k :| 0 <= k < |dumps[cut..]| && dumps[cut..][k] == x;
    assert dumps[cut + k] == x;
  }

  /** A dump still present after the sweep is not one of the swept dumps. */
  lemma LeftIsNewer(fs: Fs, after: Fs, dir: string, dumps: seq<string>, cut: int, x: string)
    requires fs.locked == {} && Shrinks(fs, after) && 0 <= cut <= |dumps|
    requires forall n :: n in dumps <==> Path(dir, n) in fs.files && EndsWith(n, ".dump")
    requires forall i :: 0 <= i < cut ==> |dumps[i]| > 0 && Swept(fs, after, dir, dumps[i])
    requires Path(dir, x) in after.files && EndsWith(x, ".dump")
    ensures x in dumps[cut..]
  {
    var k :| 0 <= k < |dumps| && dumps[k] == x;
    if k < cut {
      assert false;
    } else {
      assert dumps[cut..][k - cut] == x;
    }
  }

  /** With nothing locked and every dump beside its sidecar, a sweep of a directory of M > N
      dumps succeeds and reports 2(M - N) removed files. */
  lemma CleanupRemovesPairs(fs: Fs, dir: string, retention: int)
    requires retention >= 1
    requires dir in fs.dirs && dir !in fs.unsearchable && fs.locked == {}
    requires |DumpNames(fs, dir)| > retention
    requires forall n :: n in DumpNames(fs, dir) ==> |n| > 5 && Sidecar(Path(dir, n)) in fs.files
    ensures var removed := Cleanup(fs, dir, retention).1;
            removed.Ok? && |removed.value| == 2 * (|DumpNames(fs, dir)| - retention)
  {
    var selected := Selected(fs, dir, retention);
    SelectedPaired(fs, dir, retention);
    RemovePairsCount(fs, dir, selected);
  }

  /** Every selected dump is a file of the directory, and beside its sidecar when every dump is. */
  lemma SelectedPaired(fs: Fs, dir: string, retention: int)
    requires retention >= 1
    requires forall n :: n in DumpNames(fs, dir) ==> |n| > 5 && Sidecar(Path(dir, n)) in fs.files
    ensures var selected := Selected(fs, dir, retention);
            forall i :: 0 <= i < |selected| ==>
              |selected[i]| > 5 && Path(dir, selected[i]) in fs.files && Sidecar(Path(dir, selected[i])) in fs.files
  {
    var selected := Selected(fs, dir, retention);
    SelectedPrefix(fs, dir, retention);
    PrefixPaired(fs, dir, SortedDumps(fs, dir), selected);
  }

  /** The selected dumps are the oldest ones: a prefix of the sorted listing. */
  lemma SelectedPrefix(fs: Fs, dir: string, retention: int)
    requires retention >= 1
    ensures var selected := Selected(fs, dir, retention);
            |selected| <= |SortedDumps(fs, dir)| && selected == SortedDumps(fs, dir)[..|selected|]
  {
  }

  /** Every name of a prefix of the sorted listing is a dump beside its sidecar when every dump is. */
  lemma PrefixPaired(fs: Fs, dir: string, dumps: seq<string>, prefix: seq<string>)
    requires dumps == SortedDumps(fs, dir) && |prefix| <= |dumps| && prefix == dumps[..|prefix|]
    requires forall n :: n in DumpNames(fs, dir) ==> |n| > 5 && Sidecar(Path(dir, n)) in fs.files
    ensures forall i :: 0 <= i < |prefix| ==>
              |prefix[i]| > 5 && Path(dir, prefix[i]) in fs.files && Sidecar(Path(dir, prefix[i])) in fs.files
  {
    forall i | 0 <= i < |prefix|
      ensures |prefix[i]| > 5 && Path(dir, prefix[i]) in fs.files && Sidecar(Path(dir, prefix[i])) in fs.files
    {
      assert prefix[i] == dumps[i];
      DumpListed(fs, dir, dumps[i]);
    }
  }

  /** A name in the sorted listing is one of the directory's dump names. */
  lemma DumpListed(fs: Fs, dir: string, n: string)
    requires n in SortedDumps(fs, dir)
    ensures Path(dir, n) in fs.files && n in DumpNames(fs, dir)
  {
    assert Path(dir, n) in fs.files.Keys;
  }

  /** With nothing locked, a sweep of a directory of more than N dumps leaves exactly N, in a
      directory that is still present and searchable. */
  lemma CleanupLeavesRetention(fs: Fs, dir: string, retention: int)
    requires retention >= 1
    requires dir in fs.dirs && dir !in fs.unsearchable && fs.locked == {}
    requires |DumpNames(fs, dir)| > retention
    ensures var after := Cleanup(fs, dir, retention).0;
            dir in after.dirs && dir !in after.unsearchable && |DumpNames(after, dir)| == retention
  {
    DumpsLeft(fs, dir, retention);
    CleanupShrinks(fs, dir, retention);
  }

  /** The kept count subtracts the removed pairs from a count taken after they were removed.
      With nothing locked and every dump beside its sidecar, a directory of M dumps swept down to
      N reports 2N - M kept backups, while N remain. */
  lemma KeptUndercount(fs: Fs, dir: string, retention: int)
    requires retention >= 1
    requires dir in fs.dirs && dir !in fs.unsearchable && fs.locked == {}
    requires |DumpNames(fs, dir)| > retention
    requires forall n :: n in DumpNames(fs, dir) ==> |n| > 5 && Sidecar(Path(dir, n)) in fs.files
    ensures var swept := Sweep(fs, dir, retention);
            && |DumpNames(swept.0, dir)| == retention
            && swept.1.Ok?
            && |swept.1.value.0| == 2 * (|DumpNames(fs, dir)| - retention)
            && swept.1.value.1 == 2 * retention - |DumpNames(fs, dir)|
  {
    CleanupRemovesPairs(fs, dir, retention);
    CleanupLeavesRetention(fs, dir, retention);
    var (after, removed) := Cleanup(fs, dir, retention);
    assert CountBackups(after, dir) == Ok(retention);
  }
}
