/** The asynchronous generator: every index is written to temporary files, copied by
    hash, and only renamed into place once all of them exist. */
module AsyncRepository {
  import opened Common
  import opened Filesystem
  import opened ByHash
  import opened ByHashDirectory
  import opened Indices
  import opened ByHashUpdate
  import opened TargetLoop
  import opened Layout
  import opened Paths
  import opened R = Release

  // ----- Temporary files

  /** `files` are the records of `expected`, with names relative to their directory. */
  ghost predicate Describes(cfg: Config, io: Inputs, files: seq<HashedFile>, expected: seq<IndexFile>) {
    |files| == |expected| && forall k :: 0 <= k < |files| ==>
      files[k] == HashedFile(expected[k].name, |expected[k].bytes|, HashData(cfg, io, expected[k].bytes))
  }

  /** `temps[k]` is a new temporary file that holds `files[k]`. */
  ghost predicate Staged(before: Tree, now: Tree, files: seq<IndexFile>, temps: seq<Path>) {
    && Holding(now, files, temps)
    && NoDup(temps)
    && forall k :: 0 <= k < |temps| ==> temps[k] !in before && IsTempName(temps[k], files[k].dir, files[k].name)
  }

  lemma DropRestores(before: Tree, now: Tree, dropped: Tree, temps: seq<Path>)
    requires dropped == now - set p | p in temps
    requires forall p :: p in temps ==> p !in before
    requires forall p :: p !in temps ==> SameAt(now, before, p)
    ensures forall p :: SameAt(dropped, before, p)
  {
    forall p ensures SameAt(dropped, before, p) {
      if p !in temps { assert SameAt(now, before, p); }
    }
  }

  /** A new temporary file has been made (in `mid`) and written (in `now`). */
  lemma StagedMore(before: Tree, old': Tree, mid: Tree, now: Tree, files: seq<IndexFile>, temps: seq<Path>, f: IndexFile, temp: Path)
    requires Staged(before, old', files, temps)
    requires forall p :: p !in temps ==> SameAt(old', before, p)
    requires temp !in old' && forall p :: p != temp ==> SameAt(mid, old', p)
    requires IsTempName(temp, f.dir, f.name)
    requires forall p :: p != temp ==> SameAt(now, mid, p)
    ensures forall p :: p in temps + [temp] ==> p !in before
    ensures forall p :: p !in temps + [temp] ==> SameAt(now, before, p)
    ensures temp in now && now[temp].content == Blob(f.bytes) ==> Staged(before, now, files + [f], temps + [temp])
  {
    forall p | p != temp ensures SameAt(now, old', p) {
      assert SameAt(mid, old', p);
      assert SameAt(now, mid, p);
    }
    assert temp !in temps;
    assert SameAt(old', before, temp);
    forall p | p !in temps + [temp] ensures SameAt(now, before, p) {
      assert SameAt(old', before, p) && SameAt(now, old', p);
    }
    forall k | 0 <= k < |temps| ensures SameAt(now, old', temps[k]) {
      assert temps[k] != temp;
    }
  }

  /** Write the index in every compression format to temporary files in its directory;
      on failure those already written are dropped. */
  method WriteCompressedFile(disk: Disk, cfg: Config, io: Inputs, t: Target)
    returns (ok: bool, files: seq<HashedFile>, temps: seq<Path>)
    requires disk.Valid() && t.content.Some?
    modifies disk
    ensures disk.Valid()
    ensures !ok ==> disk.failed || !Available(cfg, io, t)
    ensures ok ==> Available(cfg, io, t) && Staged(old(disk.files), disk.files, FilesOf(cfg, io, t), temps)
    ensures ok ==> Describes(cfg, io, files, FilesOf(cfg, io, t))
    ensures forall p :: !ok || p !in temps ==> SameAt(disk.files, old(disk.files), p)
  {
    hide Stamped, SameAt, IsTempName, HashData;
    files, temps := [], [];
    ghost var before := disk.files;
    ghost var expected := FilesOf(cfg, io, t);
    assert forall p :: SameAt(before, before, p) by { SameWithItself(before); }
    for k := 0 to |cfg.compressions|
      invariant disk.Valid()
      invariant Staged(before, disk.files, expected[..k], temps)
      invariant Describes(cfg, io, files, expected[..k])
      invariant forall j :: 0 <= j < k ==> io.compress(cfg.compressions[j], t.content.value).Some?
      invariant forall p :: p !in temps ==> SameAt(disk.files, before, p)
    {
      var c := cfg.compressions[k];
      var name := t.basename + c.Extension();
      var compressed := io.compress(c, t.content.value);
      ghost var earlier := disk.files;
      var temp: Option<Path> := None;
      if compressed.Some? {
        temp := disk.TempFile(t.dir, name);
      }
      if temp.None? {
        ok := false;
        disk.Drop(temps);
        DropRestores(before, earlier, disk.files, temps);
        return;
      }
      ghost var mid := disk.files;
      ok := disk.Write(temp.value, Blob(compressed.value));
      StagedMore(before, earlier, mid, disk.files, expected[..k], temps, expected[k], temp.value);
      if !ok {
        ghost var broken := disk.files;
        disk.Drop(temps + [temp.value]);
        DropRestores(before, broken, disk.files, temps + [temp.value]);
        return;
      }
      files := files + [HashedFile(name, |compressed.value|, HashData(cfg, io, compressed.value))];
      temps := temps + [temp.value];
      assert expected[..k + 1] == expected[..k] + [expected[k]];
    }
    assert expected[..|cfg.compressions|] == expected;
    ok := true;
  }

  // ----- One index

  /** The records of an index, with paths from the base directory. */
  method RelativeRecords(cfg: Config, io: Inputs, t: Target, files: seq<HashedFile>) returns (records: seq<HashedFile>)
    requires Describes(cfg, io, files, FilesOf(cfg, io, t))
    ensures records == Records(cfg, io, FilesOf(cfg, io, t))
  {
    records := [];
    for k := 0 to |files|
      invariant records == Records(cfg, io, FilesOf(cfg, io, t))[..k]
    {
      records := records + [HashedFile(Render(Child(t.dir, files[k].path)), files[k].size, files[k].hashes)];
    }
  }

  /** Generate one index up to, but not including, its renaming into place. */
  method StageIndex(disk: Disk, cfg: Config, io: Inputs, t: Target)
    returns (ok: bool, files: seq<HashedFile>, records: seq<HashedFile>, temps: seq<Path>)
    requires disk.Valid() && NoDup(cfg.algorithms)
    modifies disk
    ensures disk.Valid()
    ensures !ok ==> disk.failed || !Available(cfg, io, t)
    ensures ok ==> Describes(cfg, io, files, FilesOf(cfg, io, t))
    ensures ok ==> Available(cfg, io, t) && records == Records(cfg, io, FilesOf(cfg, io, t))
    ensures ok ==> Staged(old(disk.files), disk.files, FilesOf(cfg, io, t), temps)
    ensures ok && cfg.acquireByHash ==> DirsAfter(cfg, io, t.dir, FilesOf(cfg, io, t), old(disk.files), disk.files)
    ensures !ok ==> TargetStopped(cfg, io, t, old(disk.files), disk.files)
    ensures TargetAttempted(cfg, io, t, old(disk.files), disk.files)
    ensures OnlyByHashAnd(cfg, t.dir, if ok then temps else [], old(disk.files), disk.files)
  {
    hide Stamped, DirsAfter, AllAttempted, TargetAttempted, UpdateStopped, SameDirs, InByHash, IsTempName, AllThere, OnlyByHash;
    ghost var before, clock := disk.files, disk.clock;
    SameAsItself(t.dir, before);
    TargetNotAttempted(cfg, io, t, before, before);
    ok, files, records, temps := false, [], [], [];
    var created := disk.CreateDirAll(t.dir);
    if !created || t.content.None? {
      return;
    }
    ok, files, temps := WriteCompressedFile(disk, cfg, io, t);
    ghost var written := disk.files;
    if ok { TempPaths(before, written, FilesOf(cfg, io, t), t.dir, temps); }
    SameFilesSameDirs(t.dir, before, written, clock);
    TargetNotAttempted(cfg, io, t, before, written);
    if !ok {
      return;
    }
    records := RelativeRecords(cfg, io, t, files);
    if cfg.acquireByHash {
      ok := UpdateByHash(disk, cfg, io, t.dir, files, temps, FilesOf(cfg, io, t));
      ghost var updated := disk.files;
      assert TargetAttempted(cfg, io, t, written, updated) by { IsAttempted(cfg, io, t, written, updated); }
      SameAsItself(t.dir, updated);
      TargetAttemptedBetween(cfg, io, t, before, written, updated, updated);
      StagedStays(cfg, t.dir, before, written, updated, FilesOf(cfg, io, t), temps);
      if ok {
        DirsAfterFrom(cfg, io, t.dir, FilesOf(cfg, io, t), before, written, updated, updated);
      } else {
        ghost var updatedClock := disk.clock;
        disk.Drop(temps);
        SameFilesSameDirs(t.dir, updated, disk.files, updatedClock);
        TargetAttemptedBetween(cfg, io, t, before, written, updated, disk.files);
        TargetStoppedBetween(cfg, io, t, before, written, updated, disk.files);
        DroppedOrSame(cfg, t.dir, before, written, updated, disk.files, temps);
      }
    }
  }

  lemma IsAttempted(cfg: Config, io: Inputs, t: Target, before: Tree, after: Tree)
    requires cfg.acquireByHash && Available(cfg, io, t) && AllAttempted(cfg, io, t.dir, FilesOf(cfg, io, t), before, after)
    ensures TargetAttempted(cfg, io, t, before, after)
  {
  }

  lemma TempPaths(before: Tree, now: Tree, files: seq<IndexFile>, dir: Path, temps: seq<Path>)
    requires Staged(before, now, files, temps) && forall k :: 0 <= k < |files| ==> files[k].dir == dir
    ensures forall p :: p in temps ==> |p| == |dir| + 1 && p !in before
  {
  }

  lemma StagedStays(cfg: Config, dir: Path, before: Tree, written: Tree, updated: Tree, files: seq<IndexFile>, temps: seq<Path>)
    requires Staged(before, written, files, temps) && OnlyByHash(cfg, dir, written, updated)
    requires forall p :: p in temps ==> |p| == |dir| + 1
    requires forall p :: p !in temps ==> SameAt(written, before, p)
    ensures Staged(before, updated, files, temps)
    ensures forall p :: p !in temps && !InByHash(cfg, dir, p) ==> SameAt(updated, before, p)
  {
    forall k | 0 <= k < |temps| ensures SameAt(updated, written, temps[k]) {
      NotAmongByHash(cfg, dir, temps[k]);
    }
    forall p | p !in temps && !InByHash(cfg, dir, p) ensures SameAt(updated, before, p) {
      assert SameAt(written, before, p);
    }
  }

  lemma DroppedOrSame(cfg: Config, dir: Path, before: Tree, written: Tree, updated: Tree, dropped: Tree, temps: seq<Path>)
    requires dropped == updated - set p | p in temps
    requires forall p :: p !in temps && !InByHash(cfg, dir, p) ==> SameAt(updated, before, p)
    requires forall p :: p in temps ==> p !in before
    ensures OnlyByHash(cfg, dir, before, dropped)
  {
    forall p | !InByHash(cfg, dir, p) ensures SameAt(dropped, before, p) {
      if p !in temps { assert SameAt(updated, before, p); }
    }
  }

  // ----- All indices

  /** The temporary files among the pending renames. */
  function Temps(pending: seq<(Path, Path)>): seq<Path> {
    seq(|pending|, k requires 0 <= k < |pending| => pending[k].0)
  }

  ghost predicate Pending(pending: seq<(Path, Path)>, files: seq<IndexFile>) {
    |pending| == |files| && forall k :: 0 <= k < |files| ==> pending[k].1 == files[k].Path()
  }

  /** The state of a generation when the targets `ts` have been staged. */
  ghost predicate Progress(cfg: Config, io: Inputs, before: Tree, now: Tree, ts: seq<Target>,
                           records: seq<HashedFile>, pending: seq<(Path, Path)>) {
    var files := AllFiles(cfg, io, ts);
    && AllAvailable(cfg, io, ts)
    && records == Records(cfg, io, files)
    && Pending(pending, files)
    && Staged(before, now, files, Temps(pending))
    && (cfg.acquireByHash ==> ByHashUpdated(cfg, io, ts, before, now))
    && Untouched(cfg, ts, Temps(pending), before, now)
  }

  /** Each target's by-hash directories have got the first files of its index, and then
      possibly have been pruned. */
  ghost predicate TargetsAttempted(cfg: Config, io: Inputs, ts: seq<Target>, before: Tree, now: Tree) {
    forall i :: 0 <= i < |ts| ==> TargetAttempted(cfg, io, ts[i], before, now)
  }

  /** Staging has stopped at target `n`: the by-hash directories of the targets before it are
      complete, its own are as a failed update leaves them, and the others are untouched. */
  ghost predicate StoppedAt(cfg: Config, io: Inputs, ts: seq<Target>, n: nat, before: Tree, now: Tree) {
    && n < |ts|
    && AllAvailable(cfg, io, ts[..n])
    && (cfg.acquireByHash ==> ByHashUpdated(cfg, io, ts[..n], before, now))
    && TargetStopped(cfg, io, ts[n], before, now)
    && forall i :: n < i < |ts| ==> SameDirs(ts[i].dir, before, now)
  }

  lemma TempsAreShort(before: Tree, now: Tree, files: seq<IndexFile>, temps: seq<Path>)
    requires Staged(before, now, files, temps) && forall k :: 0 <= k < |files| ==> |files[k].dir| == 2
    ensures forall p :: p in temps ==> |p| == 3 && p !in before && p in now
  {
  }

  lemma StagedTogether(cfg: Config, ts: seq<Target>, t: Target, before: Tree, now: Tree, after: Tree,
                       files: seq<IndexFile>, temps: seq<Path>, more: seq<IndexFile>, moreTemps: seq<Path>)
    requires NewDir(ts, t) && Untouched(cfg, ts, temps, before, now)
    requires Staged(before, now, files, temps) && Staged(now, after, more, moreTemps)
    requires OnlyByHashAnd(cfg, t.dir, moreTemps, now, after)
    requires forall p :: p in temps || p in moreTemps ==> |p| == 3
    ensures Staged(before, after, files + more, temps + moreTemps)
  {
    EarlierTempsStay(cfg, t, now, after, temps, moreTemps);
    LaterTempsAreNew(cfg, ts, before, now, temps, moreTemps);
    StagedAppend(before, now, after, files, temps, more, moreTemps);
  }

  lemma StagedAppend(before: Tree, now: Tree, after: Tree,
                     files: seq<IndexFile>, temps: seq<Path>, more: seq<IndexFile>, moreTemps: seq<Path>)
    requires Staged(before, now, files, temps) && Staged(now, after, more, moreTemps)
    requires forall p :: p in temps ==> p !in moreTemps && p in after && after[p] == now[p]
    requires forall p :: p in moreTemps ==> p !in before
    ensures Staged(before, after, files + more, temps + moreTemps)
  {
    hide IsTempName;
  }

  lemma LaterTempsAreNew(cfg: Config, ts: seq<Target>, before: Tree, now: Tree, temps: seq<Path>, moreTemps: seq<Path>)
    requires forall i :: 0 <= i < |ts| ==> |ts[i].dir| == 2
    requires Untouched(cfg, ts, temps, before, now)
    requires forall p :: p in temps ==> p in now
    requires forall p :: p in moreTemps ==> |p| == 3 && p !in now
    ensures forall p :: p in moreTemps ==> p !in before
  {
    hide InAnyByHash;
    forall p | p in moreTemps ensures SameAt(now, before, p) {
      NotInAnyByHash(cfg, ts, p);
    }
  }

  lemma EarlierTempsStay(cfg: Config, t: Target, now: Tree, after: Tree, temps: seq<Path>, moreTemps: seq<Path>)
    requires |t.dir| == 2 && OnlyByHashAnd(cfg, t.dir, moreTemps, now, after)
    requires forall p :: p in temps ==> |p| == 3 && p in now
    requires forall p :: p in moreTemps ==> p !in now
    ensures forall p :: p in temps ==> p !in moreTemps && p in after && after[p] == now[p]
  {
    hide InByHash;
    forall p | p in temps ensures p !in moreTemps && SameAt(after, now, p) {
      NotAmongByHash(cfg, t.dir, p);
    }
  }

  lemma AttemptedTogether(cfg: Config, io: Inputs, ts: seq<Target>, t: Target, before: Tree, now: Tree, after: Tree)
    requires TargetsAttempted(cfg, io, ts, before, now) && TargetAttempted(cfg, io, t, now, after)
    requires forall i :: 0 <= i < |ts| ==> SameDirs(ts[i].dir, now, after)
    requires SameDirs(t.dir, before, now)
    ensures TargetsAttempted(cfg, io, ts + [t], before, after)
  {
    hide DirOf, TargetAttempted, SameDirs;
    forall i | 0 <= i < |ts + [t]| ensures TargetAttempted(cfg, io, (ts + [t])[i], before, after) {
      if i < |ts| {
        SameAsItself(ts[i].dir, before);
        TargetAttemptedBetween(cfg, io, ts[i], before, before, now, after);
      } else {
        SameAsItself(t.dir, after);
        TargetAttemptedBetween(cfg, io, t, before, now, after, after);
      }
    }
  }

  lemma ProgressTogether(cfg: Config, io: Inputs, ts: seq<Target>, t: Target, before: Tree, now: Tree, after: Tree,
                         clock: nat, nowClock: nat, records: seq<HashedFile>, pending: seq<(Path, Path)>,
                         moreTemps: seq<Path>, morePending: seq<(Path, Path)>)
    requires NewDir(ts, t) && Stamped(before, clock) && Stamped(now, nowClock)
    requires Progress(cfg, io, before, now, ts, records, pending)
    requires Available(cfg, io, t) && Staged(now, after, FilesOf(cfg, io, t), moreTemps)
    requires cfg.acquireByHash ==> DirsAfter(cfg, io, t.dir, FilesOf(cfg, io, t), now, after)
    requires OnlyByHashAnd(cfg, t.dir, moreTemps, now, after)
    requires Pending(morePending, FilesOf(cfg, io, t)) && Temps(morePending) == moreTemps
    ensures Progress(cfg, io, before, after, ts + [t], records + Records(cfg, io, FilesOf(cfg, io, t)), pending + morePending)
  {
    hide Stamped, NewDir, Available, DirsAfter, ByHashUpdated, Untouched, OnlyByHashAnd, Staged, FilesOf, RecordOf, Pending, Temps, Records;
    var files, more := AllFiles(cfg, io, ts), FilesOf(cfg, io, t);
    TreesTogether(cfg, io, ts, t, before, now, after, files, Temps(pending), moreTemps);
    if cfg.acquireByHash {
      TempsTogether(cfg, io, ts, t, before, now, after, files, Temps(pending), moreTemps);
      EarlierDirsKept(cfg, ts, t, now, after, nowClock, moreTemps);
      LaterDirsKept(cfg, ts, t, before, now, clock, Temps(pending));
      ByHashTogether(cfg, io, ts, t, before, now, after);
    }
    ListsTogether(cfg, io, ts, t, records, pending, morePending);
  }

  lemma TempsTogether(cfg: Config, io: Inputs, ts: seq<Target>, t: Target, before: Tree, now: Tree, after: Tree,
                      files: seq<IndexFile>, temps: seq<Path>, moreTemps: seq<Path>)
    requires NewDir(ts, t) && files == AllFiles(cfg, io, ts)
    requires Staged(before, now, files, temps) && Staged(now, after, FilesOf(cfg, io, t), moreTemps)
    ensures forall p :: p in temps || p in moreTemps ==> |p| == 3
  {
    hide Staged, AllFiles, FilesOf;
    FileDirs(cfg, io, ts);
    FilesAreIn(cfg, io, t);
    TempsAreShort(before, now, files, temps);
    TempsAreShort(now, after, FilesOf(cfg, io, t), moreTemps);
  }

  lemma TreesTogether(cfg: Config, io: Inputs, ts: seq<Target>, t: Target, before: Tree, now: Tree, after: Tree,
                      files: seq<IndexFile>, temps: seq<Path>, moreTemps: seq<Path>)
    requires NewDir(ts, t) && files == AllFiles(cfg, io, ts)
    requires Staged(before, now, files, temps) && Staged(now, after, FilesOf(cfg, io, t), moreTemps)
    requires Untouched(cfg, ts, temps, before, now) && OnlyByHashAnd(cfg, t.dir, moreTemps, now, after)
    ensures Staged(before, after, files + FilesOf(cfg, io, t), temps + moreTemps)
    ensures Untouched(cfg, ts + [t], temps + moreTemps, before, after)
  {
    hide Staged, AllFiles, FilesOf, NewDir, Untouched, OnlyByHashAnd;
    TempsTogether(cfg, io, ts, t, before, now, after, files, temps, moreTemps);
    StagedTogether(cfg, ts, t, before, now, after, files, temps, FilesOf(cfg, io, t), moreTemps);
    UntouchedTogether(cfg, ts, t, before, now, after, temps, moreTemps);
  }

  lemma ListsTogether(cfg: Config, io: Inputs, ts: seq<Target>, t: Target, records: seq<HashedFile>,
                      pending: seq<(Path, Path)>, morePending: seq<(Path, Path)>)
    requires records == Records(cfg, io, AllFiles(cfg, io, ts)) && Pending(pending, AllFiles(cfg, io, ts))
    requires AllAvailable(cfg, io, ts) && Available(cfg, io, t) && Pending(morePending, FilesOf(cfg, io, t))
    ensures AllFiles(cfg, io, ts + [t]) == AllFiles(cfg, io, ts) + FilesOf(cfg, io, t)
    ensures AllAvailable(cfg, io, ts + [t])
    ensures Temps(pending + morePending) == Temps(pending) + Temps(morePending)
    ensures Pending(pending + morePending, AllFiles(cfg, io, ts + [t]))
    ensures records + Records(cfg, io, FilesOf(cfg, io, t)) == Records(cfg, io, AllFiles(cfg, io, ts + [t]))
  {
    hide FilesOf, RecordOf, Available;
    assert (ts + [t])[..|ts|] == ts;
  }

  lemma FilesAreIn(cfg: Config, io: Inputs, t: Target)
    ensures forall k :: 0 <= k < |FilesOf(cfg, io, t)| ==> FilesOf(cfg, io, t)[k].dir == t.dir
  {
  }

  /** After a failure at target `t` the temporary files are dropped, and only by-hash files
      differ. */
  ghost predicate RolledBack(cfg: Config, io: Inputs, ts: seq<Target>, t: Target, before: Tree, now: Tree) {
    && Untouched(cfg, ts + [t], [], before, now)
    && TargetsAttempted(cfg, io, ts + [t], before, now)
    && AllAvailable(cfg, io, ts)
    && (cfg.acquireByHash ==> ByHashUpdated(cfg, io, ts, before, now))
    && TargetStopped(cfg, io, t, before, now)
  }

  lemma RollBack(cfg: Config, io: Inputs, ts: seq<Target>, t: Target, temps: seq<Path>, before: Tree, now: Tree, clock: nat, dropped: Tree)
    requires Stamped(now, clock) && dropped == now - set p | p in temps
    requires Untouched(cfg, ts + [t], temps, before, now) && TargetsAttempted(cfg, io, ts + [t], before, now)
    requires AllAvailable(cfg, io, ts) && TargetStopped(cfg, io, t, before, now)
    requires cfg.acquireByHash ==> ByHashUpdated(cfg, io, ts, before, now)
    requires |t.dir| == 2 && forall i :: 0 <= i < |ts| ==> |ts[i].dir| == 2
    requires forall p :: p in temps ==> |p| == 3 && p !in before
    ensures RolledBack(cfg, io, ts, t, before, dropped)
  {
    hide Stamped, TargetsAttempted, TargetStopped, SameDirs, InAnyByHash, ByHashUpdated, AllAvailable;
    var all := ts + [t];
    forall p | !(cfg.acquireByHash && InAnyByHash(cfg, all, p)) ensures SameAt(dropped, before, p) {
      if p !in temps { assert SameAt(now, before, p); }
    }
    forall i | 0 <= i < |all| ensures SameDirs(all[i].dir, now, dropped) {
      SameFilesSameDirs(all[i].dir, now, dropped, clock);
    }
    AttemptedToEnd(cfg, io, all, before, now, dropped);
    if cfg.acquireByHash {
      forall i | 0 <= i < |ts| ensures SameDirs(ts[i].dir, now, dropped) { assert all[i] == ts[i]; }
      UpdatedToEnd(cfg, io, ts, before, now, dropped);
    }
    assert all[|ts|] == t;
    SameAsItself(t.dir, before);
    TargetStoppedBetween(cfg, io, t, before, before, now, dropped);
  }

  /** Stage the next target; on failure roll back everything that is pending. */
  method StageNext(disk: Disk, cfg: Config, io: Inputs, t: Target, records: seq<HashedFile>, pending: seq<(Path, Path)>,
                   ghost before: Tree, ghost clock: nat, ghost ts: seq<Target>)
    returns (ok: bool, records': seq<HashedFile>, pending': seq<(Path, Path)>)
    requires disk.Valid() && NoDup(cfg.algorithms) && NewDir(ts, t) && Stamped(before, clock)
    requires Progress(cfg, io, before, disk.files, ts, records, pending)
    requires TargetsAttempted(cfg, io, ts, before, disk.files)
    modifies disk
    ensures disk.Valid()
    ensures ok ==> Progress(cfg, io, before, disk.files, ts + [t], records', pending')
    ensures ok ==> TargetsAttempted(cfg, io, ts + [t], before, disk.files)
    ensures !ok ==> RolledBack(cfg, io, ts, t, before, disk.files)
    ensures !ok ==> disk.failed || !Available(cfg, io, t)
  {
    hide Stamped, DirsAfter, ByHashUpdated, Untouched, OnlyByHashAnd, Staged, TargetsAttempted, TargetAttempted, TargetStopped, FilesOf,
         RolledBack, AllAvailable, SameDirs;
    ghost var now, nowClock := disk.files, disk.clock;
    records', pending' := records, pending;
    ghost var files := AllFiles(cfg, io, ts);
    FileDirs(cfg, io, ts);
    TempsAreShort(before, now, files, Temps(pending));
    var more, staged, temps;
    ok, staged, more, temps := StageIndex(disk, cfg, io, t);
    ghost var mine := if ok then temps else [];
    FilesAreIn(cfg, io, t);
    if ok { TempsAreShort(now, disk.files, FilesOf(cfg, io, t), temps); }
    DirsKept(cfg, ts, t, before, now, disk.files, clock, nowClock, Temps(pending), mine);
    AttemptedTogether(cfg, io, ts, t, before, now, disk.files);
    if ok {
      assert |temps| == |staged| by { StagedLength(now, disk.files, FilesOf(cfg, io, t), temps); }
      var morePending := Zip(cfg, io, temps, staged, t);
      ProgressTogether(cfg, io, ts, t, before, now, disk.files, clock, nowClock, records, pending, temps, morePending);
      records', pending' := records + more, pending + morePending;
    } else {
      UntouchedTogether(cfg, ts, t, before, now, disk.files, Temps(pending), []);
      assert Temps(pending) + [] == Temps(pending);
      ghost var broken, brokenClock := disk.files, disk.clock;
      StoppedSinceStart(cfg, io, ts, t, before, now, broken);
      disk.Drop(Temps(pending));
      RollBack(cfg, io, ts, t, Temps(pending), before, broken, brokenClock, disk.files);
    }
  }

  lemma DirsKept(cfg: Config, ts: seq<Target>, t: Target, before: Tree, now: Tree, after: Tree, clock: nat, nowClock: nat,
                 temps: seq<Path>, mine: seq<Path>)
    requires NewDir(ts, t) && Stamped(before, clock) && Stamped(now, nowClock)
    requires Untouched(cfg, ts, temps, before, now) && OnlyByHashAnd(cfg, t.dir, mine, now, after)
    requires forall p :: p in temps || p in mine ==> |p| == 3
    ensures SameDirs(t.dir, before, now) && forall i :: 0 <= i < |ts| ==> SameDirs(ts[i].dir, now, after)
  {
    hide DirOf, Stamped, Untouched, OnlyByHashAnd, NewDir;
    EarlierDirsKept(cfg, ts, t, now, after, nowClock, mine);
    LaterDirsKept(cfg, ts, t, before, now, clock, temps);
  }

  lemma StoppedSinceStart(cfg: Config, io: Inputs, ts: seq<Target>, t: Target, before: Tree, now: Tree, broken: Tree)
    requires TargetStopped(cfg, io, t, now, broken) && SameDirs(t.dir, before, now)
    requires cfg.acquireByHash ==> ByHashUpdated(cfg, io, ts, before, now)
    requires forall i :: 0 <= i < |ts| ==> SameDirs(ts[i].dir, now, broken)
    ensures TargetStopped(cfg, io, t, before, broken)
    ensures cfg.acquireByHash ==> ByHashUpdated(cfg, io, ts, before, broken)
  {
    hide TargetStopped, SameDirs, ByHashUpdated;
    SameAsItself(t.dir, broken);
    TargetStoppedBetween(cfg, io, t, before, now, broken, broken);
    if cfg.acquireByHash { UpdatedToEnd(cfg, io, ts, before, now, broken); }
  }

  lemma StagedLength(before: Tree, now: Tree, files: seq<IndexFile>, temps: seq<Path>)
    requires Staged(before, now, files, temps)
    ensures |temps| == |files|
  {
  }

  /** Pair the temporary files with the paths they will be renamed to. */
  method Zip(cfg: Config, ghost io: Inputs, temps: seq<Path>, files: seq<HashedFile>, t: Target)
    returns (pending: seq<(Path, Path)>)
    requires |temps| == |files| && Describes(cfg, io, files, FilesOf(cfg, io, t))
    ensures Pending(pending, FilesOf(cfg, io, t)) && Temps(pending) == temps
  {
    pending := seq(|temps|, k requires 0 <= k < |temps| => (temps[k], Child(t.dir, files[k].path)));
  }

  /** A rollback seen from all targets. */
  ghost predicate Stopped(cfg: Config, io: Inputs, n: nat, before: Tree, now: Tree) {
    var all := AllTargets(cfg, io);
    && Untouched(cfg, all, [], before, now)
    && TargetsAttempted(cfg, io, all, before, now)
    && StoppedAt(cfg, io, all, n, before, now)
  }

  lemma RolledBackMore(cfg: Config, io: Inputs, ts: seq<Target>, t: Target, before: Tree, now: Tree, clock: nat)
    requires WellNamed(cfg) && Stamped(before, clock)
    requires ts + [t] <= AllTargets(cfg, io) && RolledBack(cfg, io, ts, t, before, now)
    ensures Stopped(cfg, io, |ts|, before, now)
  {
    hide Stamped, SameDirs, TargetAttempted, TargetStopped, AllAvailable, ByHashUpdated, WellNamed, InAnyByHash, Untouched, Targets, AllTargets;
    var all, some := AllTargets(cfg, io), ts + [t];
    assert all[..|ts|] == ts && all[|ts|] == t by { assert some[..|ts|] == ts && some[|ts|] == t; }
    UntouchedMore(cfg, some, all, [], before, now);
    forall i | |ts| < i < |all| ensures SameDirs(all[i].dir, before, now) {
      LaterTargetSame(cfg, io, some, i, before, now, clock);
    }
    forall i | 0 <= i < |all| ensures TargetAttempted(cfg, io, all[i], before, now) {
      if i <= |ts| {
        assert all[i] == some[i];
      } else {
        TargetNotAttempted(cfg, io, all[i], before, now);
      }
    }
  }

  lemma LaterTargetSame(cfg: Config, io: Inputs, ts: seq<Target>, i: nat, before: Tree, now: Tree, clock: nat)
    requires WellNamed(cfg) && Stamped(before, clock) && ts <= AllTargets(cfg, io) && |ts| <= i < |AllTargets(cfg, io)|
    requires Untouched(cfg, ts, [], before, now)
    ensures SameDirs(AllTargets(cfg, io)[i].dir, before, now)
  {
    hide Stamped, WellNamed, InAnyByHash, Untouched, AllTargets, DirOf;
    var all := AllTargets(cfg, io);
    assert all[..i] + [all[i]] <= all;
    NextIsNew(cfg, io, all[..i], all[i]);
    assert ts <= all[..i];
    UntouchedMore(cfg, ts, all[..i], [], before, now);
    LaterDirsKept(cfg, all[..i], all[i], before, now, clock, []);
  }

  lemma ProgressStart(cfg: Config, io: Inputs, t: Tree)
    ensures Progress(cfg, io, t, t, [], [], []) && TargetsAttempted(cfg, io, [], t, t)
  {
    hide DirOf;
  }

  /** Roll back when nothing is being staged. */
  method RollBackPending(disk: Disk, cfg: Config, ghost io: Inputs, ghost ts: seq<Target>, ghost t: Target, ghost records: seq<HashedFile>,
                         pending: seq<(Path, Path)>, ghost before: Tree, ghost clock: nat)
    requires disk.Valid() && WellNamed(cfg) && Stamped(before, clock)
    requires ts + [t] <= AllTargets(cfg, io)
    requires Progress(cfg, io, before, disk.files, ts, records, pending) && TargetsAttempted(cfg, io, ts, before, disk.files)
    modifies disk
    ensures disk.Valid() && Stopped(cfg, io, |ts|, before, disk.files)
    ensures disk.failed == old(disk.failed)
  {
    hide Stamped, WellNamed, Staged, Untouched, TargetsAttempted, TargetStopped, ByHashUpdated, RolledBack, Stopped, Targets, AllTargets,
         AllAvailable, NewDir, SameDirs;
    ghost var broken, brokenClock := disk.files, disk.clock;
    assert (ts + [t])[..|ts|] == ts && (ts + [t])[|ts|] == t;
    PrefixDirs(cfg, io, ts + [t]);
    FileDirs(cfg, io, ts);
    TempsAreShort(before, broken, AllFiles(cfg, io, ts), Temps(pending));
    NotBegun(cfg, io, ts, t, Temps(pending), before, broken, clock);
    disk.Drop(Temps(pending));
    RollBack(cfg, io, ts, t, Temps(pending), before, broken, brokenClock, disk.files);
    RolledBackMore(cfg, io, ts, t, before, disk.files, clock);
  }

  lemma NotBegun(cfg: Config, io: Inputs, ts: seq<Target>, t: Target, temps: seq<Path>, before: Tree, now: Tree, clock: nat)
    requires WellNamed(cfg) && Stamped(before, clock) && ts + [t] <= AllTargets(cfg, io)
    requires Untouched(cfg, ts, temps, before, now) && TargetsAttempted(cfg, io, ts, before, now)
    requires forall p :: p in temps ==> |p| == 3
    ensures Untouched(cfg, ts + [t], temps, before, now) && TargetsAttempted(cfg, io, ts + [t], before, now)
    ensures TargetStopped(cfg, io, t, before, now)
  {
    hide Stamped, WellNamed, Untouched, TargetAttempted, AllTargets, NewDir, UpdateStopped, SameDirs;
    NextIsNew(cfg, io, ts, t);
    LaterDirsKept(cfg, ts, t, before, now, clock, temps);
    UntouchedMore(cfg, ts, ts + [t], temps, before, now);
    TargetNotAttempted(cfg, io, t, before, now);
  }

  /** The same for a target of the configuration. */
  method StageTarget(disk: Disk, cfg: Config, io: Inputs, t: Target, records: seq<HashedFile>, pending: seq<(Path, Path)>,
                     ghost before: Tree, ghost clock: nat, ghost ts: seq<Target>)
    returns (ok: bool, records': seq<HashedFile>, pending': seq<(Path, Path)>)
    requires disk.Valid() && WellNamed(cfg) && ts + [t] <= AllTargets(cfg, io) && Stamped(before, clock)
    requires Progress(cfg, io, before, disk.files, ts, records, pending)
    requires TargetsAttempted(cfg, io, ts, before, disk.files)
    modifies disk
    ensures disk.Valid()
    ensures ok ==> Progress(cfg, io, before, disk.files, ts + [t], records', pending')
    ensures ok ==> TargetsAttempted(cfg, io, ts + [t], before, disk.files)
    ensures !ok ==> Stopped(cfg, io, |ts|, before, disk.files)
    ensures !ok ==> disk.failed || !AllAvailable(cfg, io, AllTargets(cfg, io))
  {
    hide Available, AllAvailable, Stamped, WellNamed, Progress, TargetsAttempted, RolledBack, Stopped, NewDir, AllTargets;
    NextIsNew(cfg, io, ts, t);
    NamesAreDistinct(cfg);
    ok, records', pending' := StageNext(disk, cfg, io, t, records, pending, before, clock, ts);
    if !ok {
      RolledBackMore(cfg, io, ts, t, before, disk.files, clock);
      OneUnavailable(cfg, io, ts, t);
    }
  }

  /** Generate every index of every component, without renaming anything into place. */
  method StageAll(disk: Disk, cfg: Config, io: Inputs)
    returns (ok: bool, records: seq<HashedFile>, pending: seq<(Path, Path)>, ghost stopped: nat)
    requires disk.Valid() && WellNamed(cfg)
    modifies disk
    ensures disk.Valid()
    ensures ok ==> Progress(cfg, io, old(disk.files), disk.files, AllTargets(cfg, io), records, pending)
    ensures ok ==> TargetsAttempted(cfg, io, AllTargets(cfg, io), old(disk.files), disk.files)
    ensures !ok ==> Stopped(cfg, io, stopped, old(disk.files), disk.files)
    ensures !ok ==> disk.failed || !AllAvailable(cfg, io, AllTargets(cfg, io))
  {
    hide Available, AllAvailable, Stamped, WellNamed, Progress, TargetsAttempted, Stopped, NewDir, AllTargets, Targets, ArchTargets;
    ghost var before, clock := disk.files, disk.clock;
    records, pending, stopped := [], [], 0;
    ProgressStart(cfg, io, before);
    assert Targets(cfg, io, 0) == [] by { hide *; NoTargets(cfg, io); }
    for i := 0 to |cfg.components|
      invariant disk.Valid()
      invariant Progress(cfg, io, before, disk.files, Targets(cfg, io, i), records, pending)
      invariant TargetsAttempted(cfg, io, Targets(cfg, io, i), before, disk.files)
    {
      var component := cfg.components[i];
      ghost var done := Targets(cfg, io, i);
      NoArchTargets(cfg, io, component);
      assert done + ArchTargets(cfg, io, component, 0) == done;
      ok := disk.CreateDirAll([component]);
      if !ok {
        ghost var next := NextTarget(cfg, io, i);
        RollBackPending(disk, cfg, io, done, next, records, pending, before, clock);
        stopped := |done|;
        return;
      }
      for j := 0 to |cfg.architectures|
        invariant disk.Valid()
        invariant Progress(cfg, io, before, disk.files, done + ArchTargets(cfg, io, component, j), records, pending)
        invariant TargetsAttempted(cfg, io, done + ArchTargets(cfg, io, component, j), before, disk.files)
      {
        LoopPosition(cfg, io, i, j);
        ok, records, pending := StageTarget(disk, cfg, io, PackagesTarget(io, component, cfg.architectures[j]), records, pending,
                                            before, clock, done + ArchTargets(cfg, io, component, j));
        if !ok {
          stopped := |done + ArchTargets(cfg, io, component, j)|;
          return;
        }
      }
      LoopPosition(cfg, io, i, |cfg.architectures|);
      ok, records, pending := StageTarget(disk, cfg, io, SourcesTarget(io, component), records, pending,
                                          before, clock, done + ArchTargets(cfg, io, component, |cfg.architectures|));
      if !ok {
        stopped := |done + ArchTargets(cfg, io, component, |cfg.architectures|)|;
        return;
      }
    }
    ok := true;
    AllTargetsAre(cfg, io);
  }

  /** The first target of a component. */
  lemma NextTarget(cfg: Config, io: Inputs, i: nat) returns (next: Target)
    requires i < |cfg.components|
    ensures Targets(cfg, io, i) + [next] <= AllTargets(cfg, io)
  {
    hide Targets, ArchTargets, AllTargets;
    NoArchTargets(cfg, io, cfg.components[i]);
    LoopPosition(cfg, io, i, 0);
    next := if |cfg.architectures| > 0 then PackagesTarget(io, cfg.components[i], cfg.architectures[0]) else SourcesTarget(io, cfg.components[i]);
    assert Targets(cfg, io, i) + ArchTargets(cfg, io, cfg.components[i], 0) == Targets(cfg, io, i);
  }

  // ----- Renaming into place

  /** The first `n` pending files have been renamed. */
  ghost predicate Renamed(staged: Tree, now: Tree, files: seq<IndexFile>, temps: seq<Path>, n: nat) {
    && n <= |files| == |temps|
    && IndicesInPlace(now, files, n)
    && (forall k :: n <= k < |temps| ==> temps[k] in now && now[temps[k]].content == Blob(files[k].bytes))
    && (forall k :: 0 <= k < n ==> temps[k] !in now)
    && forall p :: p !in temps && !IsIndex(files, n, p) ==> SameAt(now, staged, p)
  }

  /** No temporary file has the name of an index. */
  ghost predicate Apart(files: seq<IndexFile>, temps: seq<Path>) {
    forall k :: 0 <= k < |files| ==> files[k].Path() !in temps
  }

  lemma TempsAreApart(cfg: Config, io: Inputs, before: Tree, now: Tree, temps: seq<Path>)
    requires Staged(before, now, AllFiles(cfg, io, AllTargets(cfg, io)), temps)
    ensures Apart(AllFiles(cfg, io, AllTargets(cfg, io)), temps)
  {
    hide AllFiles, AllTargets, Holding;
    var files := AllFiles(cfg, io, AllTargets(cfg, io));
    assert |temps| == |files| by { StagedLength(before, now, files, temps); }
    forall k, l | 0 <= k < |files| && 0 <= l < |temps| ensures files[k].Path() != temps[l] {
      IndexNameLength(cfg, io, AllTargets(cfg, io), k);
      IndexNameLength(cfg, io, AllTargets(cfg, io), l);
      assert |files[k].Path()[2]| < |temps[l][2]|;
    }
  }

  lemma RenamedNext(staged: Tree, now: Tree, after: Tree, files: seq<IndexFile>, temps: seq<Path>, n: nat)
    requires Renamed(staged, now, files, temps, n) && n < |files|
    requires NoDup(temps) && DistinctFiles(files) && Apart(files, temps)
    requires after == (now - {temps[n]})[files[n].Path() := now[temps[n]]]
    ensures Renamed(staged, after, files, temps, n + 1)
  {
    forall k | 0 <= k < n ensures files[k].Path() != files[n].Path() && files[k].Path() != temps[n] {
      assert files[k].Path() !in temps;
    }
    assert files[n].Path() !in temps;
    forall p | p !in temps && !IsIndex(files, n + 1, p) ensures SameAt(after, staged, p) {
      assert files[n].Path() != p;
      assert !IsIndex(files, n, p) by {
        assert forall k :: 0 <= k < n ==> files[k].Path() != p;
      }
      assert SameAt(now, staged, p);
    }
  }

  lemma RenamedStart(before: Tree, staged: Tree, files: seq<IndexFile>, temps: seq<Path>)
    requires Staged(before, staged, files, temps)
    ensures Renamed(staged, staged, files, temps, 0)
  {
  }

  /** The pending renames, in order; a failure drops the temporary files that are left. */
  method RenameAll(disk: Disk, pending: seq<(Path, Path)>, ghost files: seq<IndexFile>) returns (ok: bool, ghost done: nat)
    requires disk.Valid() && Pending(pending, files)
    requires Renamed(disk.files, disk.files, files, Temps(pending), 0)
    requires NoDup(Temps(pending)) && DistinctFiles(files) && Apart(files, Temps(pending))
    modifies disk
    ensures disk.Valid()
    ensures if ok then done == |files| else disk.failed && done < |files|
    ensures IndicesInPlace(disk.files, files, done)
    ensures forall p :: p in Temps(pending) ==> p !in disk.files
    ensures forall p :: p !in Temps(pending) && !IsIndex(files, done, p) ==> SameAt(disk.files, old(disk.files), p)
  {
    hide IsIndex, SameAt;
    ghost var staged, temps := disk.files, Temps(pending);
    for n := 0 to |pending|
      invariant disk.Valid()
      invariant Renamed(staged, disk.files, files, temps, n)
    {
      ghost var now := disk.files;
      ok := disk.Rename(pending[n].0, pending[n].1);
      if !ok {
        done := n;
        disk.Drop(seq(|pending| - n, k requires 0 <= k < |pending| - n => pending[n + k].0));
        DroppedRest(staged, now, disk.files, files, temps, n, seq(|pending| - n, k requires 0 <= k < |pending| - n => pending[n + k].0));
        return;
      }
      RenamedNext(staged, now, disk.files, files, temps, n);
    }
    ok, done := true, |files|;
  }

  lemma DroppedRest(staged: Tree, now: Tree, dropped: Tree, files: seq<IndexFile>, temps: seq<Path>, n: nat, rest: seq<Path>)
    requires Renamed(staged, now, files, temps, n) && n < |temps| && Apart(files, temps)
    requires rest == temps[n..] && dropped == now - set p | p in rest
    ensures IndicesInPlace(dropped, files, n)
    ensures forall p :: p in temps ==> p !in dropped
    ensures forall p :: p !in temps && !IsIndex(files, n, p) ==> SameAt(dropped, staged, p)
  {
    hide IsIndex;
    forall k | 0 <= k < n ensures files[k].Path() !in rest {
      assert files[k].Path() !in temps;
    }
    forall p | p in temps ensures p !in dropped {
      var k :| 0 <= k < |temps| && temps[k] == p;
      assert k >= n ==> rest[k - n] == p;
    }
    forall p | p !in temps && !IsIndex(files, n, p) ensures SameAt(dropped, staged, p) {
      assert SameAt(now, staged, p);
    }
  }

  // ----- The generator

  /** How far a generation got; `Staging(target)` means that it stopped at that target, and
      `Renaming(done)` that the renaming of the index file at position `done` failed. */
  datatype Stage = Staging(target: nat) | Renaming(done: nat) | WritingRelease | Finished

  /** Outside the by-hash directories, only the first `n` index files (and Release, if
      `release`) may differ, and those index files are the new ones. */
  ghost predicate Replaced(cfg: Config, io: Inputs, before: Tree, after: Tree, n: nat, release: bool) {
    var ts := AllTargets(cfg, io);
    var files := AllFiles(cfg, io, ts);
    && n <= |files|
    && IndicesInPlace(after, files, n)
    && forall p :: !(release && p == RELEASE) && !IsIndex(files, n, p) && !(cfg.acquireByHash && InAnyByHash(cfg, ts, p))
                   ==> SameAt(after, before, p)
  }

  ghost predicate Outcome(cfg: Config, io: Inputs, before: Tree, after: Tree, reached: Stage) {
    match reached
    case Staging(target) =>
      Replaced(cfg, io, before, after, 0, false) && StoppedAt(cfg, io, AllTargets(cfg, io), target, before, after)
    case Renaming(done) =>
      && done < |AllFiles(cfg, io, AllTargets(cfg, io))| && Replaced(cfg, io, before, after, done, false)
      && AllUpdated(cfg, io, before, after)
    case WritingRelease =>
      Replaced(cfg, io, before, after, |AllFiles(cfg, io, AllTargets(cfg, io))|, true) && AllUpdated(cfg, io, before, after)
    case Finished => Published(cfg, io, before, after)
  }

  /** Past staging, every by-hash directory is complete. */
  ghost predicate AllUpdated(cfg: Config, io: Inputs, before: Tree, after: Tree) {
    AllAvailable(cfg, io, AllTargets(cfg, io)) && (cfg.acquireByHash ==> ByHashUpdated(cfg, io, AllTargets(cfg, io), before, after))
  }

  lemma PastStaging(cfg: Config, io: Inputs, before: Tree, after: Tree, reached: Stage)
    requires Outcome(cfg, io, before, after, reached) && !reached.Staging?
    ensures AllUpdated(cfg, io, before, after)
  {
    hide Replaced, AllTargets, ByHashUpdated, AllAvailable, AllFiles;
  }

  lemma RolledBackOutcome(cfg: Config, io: Inputs, n: nat, before: Tree, after: Tree)
    requires Stopped(cfg, io, n, before, after)
    ensures Outcome(cfg, io, before, after, Staging(n)) && TargetsAttempted(cfg, io, AllTargets(cfg, io), before, after)
  {
    hide InAnyByHash, AllFiles, AllTargets, TargetsAttempted, StoppedAt;
  }

  /** From the staged tree to the renamed one: the by-hash directories are the same. */
  lemma RenamingKeepsByHash(cfg: Config, io: Inputs, staged: Tree, after: Tree, clock: nat, temps: seq<Path>, n: nat)
    requires Stamped(staged, clock)
    requires n <= |AllFiles(cfg, io, AllTargets(cfg, io))|
    requires forall p :: p in temps ==> |p| == 3
    requires forall p :: p !in temps && !IsIndex(AllFiles(cfg, io, AllTargets(cfg, io)), n, p) ==> SameAt(after, staged, p)
    ensures forall i :: 0 <= i < |AllTargets(cfg, io)| ==> SameDirs(AllTargets(cfg, io)[i].dir, staged, after)
  {
    hide SameDirs, Stamped, AllFiles, AllTargets;
    var ts, files := AllTargets(cfg, io), AllFiles(cfg, io, AllTargets(cfg, io));
    PrefixDirs(cfg, io, ts);
    FileDirs(cfg, io, ts);
    forall i | 0 <= i < |ts| ensures SameDirs(ts[i].dir, staged, after) {
      forall p | |p| == |ts[i].dir| + 3 ensures SameAt(after, staged, p) {
        assert !IsIndex(files, n, p);
      }
      SameFilesSameDirs(ts[i].dir, staged, after, clock);
    }
  }

  lemma AttemptedToEnd(cfg: Config, io: Inputs, ts: seq<Target>, before: Tree, staged: Tree, after: Tree)
    requires TargetsAttempted(cfg, io, ts, before, staged)
    requires forall i :: 0 <= i < |ts| ==> SameDirs(ts[i].dir, staged, after)
    ensures TargetsAttempted(cfg, io, ts, before, after)
  {
    hide SameDirs, TargetAttempted;
    forall i | 0 <= i < |ts| ensures TargetAttempted(cfg, io, ts[i], before, after) {
      SameAsItself(ts[i].dir, before);
      TargetAttemptedBetween(cfg, io, ts[i], before, before, staged, after);
    }
  }

  lemma UpdatedToEnd(cfg: Config, io: Inputs, ts: seq<Target>, before: Tree, staged: Tree, after: Tree)
    requires ByHashUpdated(cfg, io, ts, before, staged)
    requires forall i :: 0 <= i < |ts| ==> SameDirs(ts[i].dir, staged, after)
    ensures ByHashUpdated(cfg, io, ts, before, after)
  {
    hide DirOf, ByHashAfter;
    forall i, a | 0 <= i < |ts| && a in cfg.algorithms
      ensures DirOf(after, ByHashDir(ts[i].dir, a)) == ByHashAfter(cfg, io, ts[i], a, DirOf(before, ByHashDir(ts[i].dir, a)))
    {
      assert SameDirs(ts[i].dir, staged, after);
    }
  }

  /** Renaming after staging, seen from the tree before. */
  lemma RenamedSinceStart(cfg: Config, io: Inputs, before: Tree, staged: Tree, after: Tree, temps: seq<Path>, n: nat)
    requires n <= |AllFiles(cfg, io, AllTargets(cfg, io))|
    requires Untouched(cfg, AllTargets(cfg, io), temps, before, staged)
    requires forall p :: p in temps ==> p !in before && p !in after
    requires IndicesInPlace(after, AllFiles(cfg, io, AllTargets(cfg, io)), n)
    requires forall p :: p !in temps && !IsIndex(AllFiles(cfg, io, AllTargets(cfg, io)), n, p) ==> SameAt(after, staged, p)
    ensures Replaced(cfg, io, before, after, n, false)
  {
    hide AllFiles, AllTargets, IsIndex, InAnyByHash;
    var ts := AllTargets(cfg, io);
    forall p | !IsIndex(AllFiles(cfg, io, ts), n, p) && !(cfg.acquireByHash && InAnyByHash(cfg, ts, p))
      ensures SameAt(after, before, p)
    {
      if p !in temps { assert SameAt(staged, before, p) && SameAt(after, staged, p); }
    }
  }

  lemma ReleaseWritten(cfg: Config, io: Inputs, before: Tree, renamed: Tree, after: Tree)
    requires Replaced(cfg, io, before, renamed, |AllFiles(cfg, io, AllTargets(cfg, io))|, false)
    requires forall p :: p != RELEASE ==> SameAt(after, renamed, p)
    ensures Replaced(cfg, io, before, after, |AllFiles(cfg, io, AllTargets(cfg, io))|, true)
  {
    hide AllFiles, AllTargets, InAnyByHash, IsIndex;
    var ts := AllTargets(cfg, io);
    var files := AllFiles(cfg, io, ts);
    FileDirs(cfg, io, ts) by { PrefixDirs(cfg, io, ts); }
    forall k | 0 <= k < |files| ensures SameAt(after, renamed, files[k].Path()) {
      assert |files[k].Path()| == 3 && |RELEASE| == 1;
    }
    forall p | p != RELEASE && !IsIndex(files, |files|, p) && !(cfg.acquireByHash && InAnyByHash(cfg, ts, p))
      ensures SameAt(after, before, p)
    {
      assert SameAt(renamed, before, p) && SameAt(after, renamed, p);
    }
  }

  /** Generate the repository. Whatever fails, and wherever: before the first rename,
      which comes after all providers and compressors have succeeded,
      nothing outside the by-hash directories has changed (so no temporary file is
      left); after that, the index files renamed so far are new and the rest is as it
      was. When a target cannot be staged, the by-hash directories of the targets before it
      are complete, its own have got the first files of its index, possibly a broken one
      last, or all of them and some pruning, and the others are untouched; after that,
      all of them are complete. */
  method GenerateRepository(disk: Disk, cfg: Config, io: Inputs)
    returns (release: Option<Release>, ghost reached: Stage)
    requires disk.Valid() && WellNamed(cfg)
    modifies disk
    ensures disk.Valid()
    ensures release.Some? <==> reached == Finished
    ensures release.Some? ==> release.value == ReleaseOf(cfg, Records(cfg, io, AllFiles(cfg, io, AllTargets(cfg, io))))
    ensures release.Some? ==> HasIndices(cfg, io, disk.files) && (KeepsForms(cfg) ==> HasAllCopies(cfg, io, disk.files))
    ensures Outcome(cfg, io, old(disk.files), disk.files, reached)
    ensures TargetsAttempted(cfg, io, AllTargets(cfg, io), old(disk.files), disk.files)
    ensures !reached.Staging? ==> AllUpdated(cfg, io, old(disk.files), disk.files)
    ensures release.None? ==> disk.failed || !AllAvailable(cfg, io, AllTargets(cfg, io))
  {
    hide Stamped, WellNamed, TargetsAttempted, Outcome, AllAvailable, Staged, Untouched, ByHashUpdated, InAnyByHash, IsIndex, SameAt,
         AllTargets, AllFiles, SameDirs, Apart, DistinctFiles, IndicesInPlace, Replaced, Stopped, AllUpdated, HasIndices,
         HasAllCopies;
    ghost var before, clock, ts := disk.files, disk.clock, AllTargets(cfg, io);
    assert HasClock(before);
    ghost var files := AllFiles(cfg, io, ts);
    release := None;
    var ok, records, pending;
    ghost var stopped;
    ok, records, pending, stopped := StageAll(disk, cfg, io);
    if !ok {
      reached := Staging(stopped);
      RolledBackOutcome(cfg, io, stopped, before, disk.files);
      return;
    }
    ghost var staged, stagedClock, temps := disk.files, disk.clock, Temps(pending);
    PrefixDirs(cfg, io, ts);
    FileDirs(cfg, io, ts);
    TempsAreShort(before, staged, files, temps);
    TempsAreApart(cfg, io, before, staged, temps);
    FilesAreDistinct(cfg, io, ts);
    assert NoDup(temps) by { StagedOnce(before, staged, files, temps); }
    RenamedStart(before, staged, files, temps);
    ghost var done;
    ok, done := RenameAll(disk, pending, files);
    ghost var renamed := disk.files;
    RenamingKeepsByHash(cfg, io, staged, renamed, stagedClock, temps, done);
    AttemptedToEnd(cfg, io, ts, before, staged, renamed);
    RenamedSinceStart(cfg, io, before, staged, renamed, temps, done);
    UpdatedSince(cfg, io, before, staged, renamed);
    if !ok {
      reached := Renaming(done);
      assert Outcome(cfg, io, before, renamed, reached) by { RenamingOutcome(cfg, io, before, renamed, done); }
      return;
    }
    var built := ReleaseOf(cfg, records);
    ghost var renamedClock := disk.clock;
    ok := disk.Write(RELEASE, ReleaseText(built.ToParagraph()));
    ReleaseKeepsByHash(cfg, io, renamed, disk.files, renamedClock);
    AttemptedToEnd(cfg, io, ts, before, renamed, disk.files);
    ReleaseWritten(cfg, io, before, renamed, disk.files);
    UpdatedFurther(cfg, io, before, renamed, disk.files);
    if !ok {
      reached := WritingRelease;
      WritingOutcome(cfg, io, before, disk.files);
      return;
    }
    reached := Finished;
    release := Some(built);
    FinishedOutcome(cfg, io, before, disk.files);
    assert HasClock(disk.files);
    FinishedLayout(cfg, io, before, disk.files);
  }

  lemma FinishedLayout(cfg: Config, io: Inputs, before: Tree, after: Tree)
    requires Outcome(cfg, io, before, after, Finished) && HasClock(before) && HasClock(after)
    ensures HasIndices(cfg, io, after) && (KeepsForms(cfg) ==> HasAllCopies(cfg, io, after))
  {
    hide Published, HasIndices, HasAllCopies, HasClock;
    PublishedHasIndices(cfg, io, before, after);
    if KeepsForms(cfg) { PublishedHasCopies(cfg, io, before, after); }
  }

  lemma UpdatedSince(cfg: Config, io: Inputs, before: Tree, staged: Tree, after: Tree)
    requires AllAvailable(cfg, io, AllTargets(cfg, io))
    requires cfg.acquireByHash ==> ByHashUpdated(cfg, io, AllTargets(cfg, io), before, staged)
    requires forall i :: 0 <= i < |AllTargets(cfg, io)| ==> SameDirs(AllTargets(cfg, io)[i].dir, staged, after)
    ensures AllUpdated(cfg, io, before, after)
  {
    hide AllTargets, ByHashUpdated, AllAvailable, SameDirs;
    if cfg.acquireByHash { UpdatedToEnd(cfg, io, AllTargets(cfg, io), before, staged, after); }
  }

  lemma UpdatedFurther(cfg: Config, io: Inputs, before: Tree, now: Tree, after: Tree)
    requires AllUpdated(cfg, io, before, now)
    requires forall i :: 0 <= i < |AllTargets(cfg, io)| ==> SameDirs(AllTargets(cfg, io)[i].dir, now, after)
    ensures AllUpdated(cfg, io, before, after)
  {
    hide AllTargets, ByHashUpdated, AllAvailable, SameDirs;
    UpdatedSince(cfg, io, before, now, after);
  }

  lemma StagedOnce(before: Tree, now: Tree, files: seq<IndexFile>, temps: seq<Path>)
    requires Staged(before, now, files, temps)
    ensures NoDup(temps)
  {
  }

  lemma RenamingOutcome(cfg: Config, io: Inputs, before: Tree, after: Tree, done: nat)
    requires done < |AllFiles(cfg, io, AllTargets(cfg, io))| && Replaced(cfg, io, before, after, done, false)
    requires AllUpdated(cfg, io, before, after)
    ensures Outcome(cfg, io, before, after, Renaming(done))
  {
    hide Replaced, AllUpdated;
  }

  lemma WritingOutcome(cfg: Config, io: Inputs, before: Tree, after: Tree)
    requires Replaced(cfg, io, before, after, |AllFiles(cfg, io, AllTargets(cfg, io))|, true) && AllUpdated(cfg, io, before, after)
    ensures Outcome(cfg, io, before, after, WritingRelease)
  {
    hide Replaced, AllUpdated;
  }

  lemma ReleaseKeepsByHash(cfg: Config, io: Inputs, renamed: Tree, after: Tree, clock: nat)
    requires Stamped(renamed, clock) && forall p :: p != RELEASE ==> SameAt(after, renamed, p)
    ensures forall i :: 0 <= i < |AllTargets(cfg, io)| ==> SameDirs(AllTargets(cfg, io)[i].dir, renamed, after)
  {
    hide SameDirs, Stamped, AllTargets;
    var ts := AllTargets(cfg, io);
    forall i | 0 <= i < |ts| ensures SameDirs(ts[i].dir, renamed, after) {
      SameFilesSameDirs(ts[i].dir, renamed, after, clock);
    }
  }

  lemma FinishedOutcome(cfg: Config, io: Inputs, before: Tree, after: Tree)
    requires Replaced(cfg, io, before, after, |AllFiles(cfg, io, AllTargets(cfg, io))|, true)
    requires AllUpdated(cfg, io, before, after) && RELEASE in after
    requires after[RELEASE].content ==
      ReleaseText(ReleaseOf(cfg, Records(cfg, io, AllFiles(cfg, io, AllTargets(cfg, io)))).ToParagraph())
    ensures Outcome(cfg, io, before, after, Finished)
  {
    hide AllFiles, AllTargets, InAnyByHash, IsIndex, ByHashUpdated, IndicesInPlace, AllAvailable, SameAt;
  }
}
