/** The synchronous generator: every index is written in place, then copied by hash. */
module SyncRepository {
  import opened Common
  import opened Filesystem
  import opened ByHash
  import opened ByHashDirectory
  import opened Indices
  import opened ByHashUpdate
  import opened TargetLoop
  import opened Layout
  import opened Paths
  import opened R = Release

  /** Write the index in every compression format, in place. */
  method WriteCompressedFile(disk: Disk, cfg: Config, io: Inputs, t: Target) returns (ok: bool, records: seq<HashedFile>)
    requires disk.Valid() && t.content.Some? && DistinctFiles(FilesOf(cfg, io, t))
    modifies disk
    ensures disk.Valid()
    ensures !ok ==> disk.failed || !Available(cfg, io, t)
    ensures ok ==> Available(cfg, io, t) && records == Records(cfg, io, FilesOf(cfg, io, t))
    ensures ok ==> Holding(disk.files, FilesOf(cfg, io, t), PathsOf(FilesOf(cfg, io, t)))
    ensures forall p :: p !in PathsOf(FilesOf(cfg, io, t)) ==> SameAt(disk.files, old(disk.files), p)
  {
    hide Stamped, HashData, SameAt;
    records := [];
    ghost var before, expected := disk.files, FilesOf(cfg, io, t);
    ghost var paths := PathsOf(expected);
    assert forall p :: SameAt(before, before, p) by { SameWithItself(before); }
    for k := 0 to |cfg.compressions|
      invariant disk.Valid()
      invariant records == Records(cfg, io, expected)[..k]
      invariant Holding(disk.files, expected[..k], paths[..k])
      invariant forall j :: 0 <= j < k ==> io.compress(cfg.compressions[j], t.content.value).Some?
      invariant forall p :: p !in paths ==> SameAt(disk.files, before, p)
    {
      var name := t.basename + cfg.compressions[k].Extension();
      var compressed := io.compress(cfg.compressions[k], t.content.value);
      if compressed.None? {
        return false, records;
      }
      ghost var now := disk.files;
      assert Child(t.dir, name) == paths[k];
      ok := disk.Write(Child(t.dir, name), Blob(compressed.value));
      WrittenInPlace(before, now, disk.files, expected, paths, k);
      if !ok {
        return;
      }
      records := records + [HashedFile(Render(Child(t.dir, name)), |compressed.value|, HashData(cfg, io, compressed.value))];
    }
    assert expected[..|cfg.compressions|] == expected && paths[..|cfg.compressions|] == paths;
    ok := true;
  }

  lemma WrittenInPlace(before: Tree, now: Tree, after: Tree, files: seq<IndexFile>, paths: seq<Path>, k: nat)
    requires paths == PathsOf(files) && DistinctFiles(files) && k < |files|
    requires Holding(now, files[..k], paths[..k])
    requires forall p :: p !in paths ==> SameAt(now, before, p)
    requires forall p :: p != paths[k] ==> SameAt(after, now, p)
    ensures forall p :: p !in paths ==> SameAt(after, before, p)
    ensures paths[k] in after && after[paths[k]].content == Blob(files[k].bytes) ==>
      Holding(after, files[..k + 1], paths[..k + 1])
  {
    forall p | p !in paths ensures SameAt(after, before, p) {
      assert SameAt(now, before, p) && SameAt(after, now, p);
    }
    forall j | 0 <= j < k ensures SameAt(after, now, paths[j]) {
      assert files[j].Path() != files[k].Path();
    }
    assert forall j :: 0 <= j < k ==> files[..k][j] == files[j] && paths[..k][j] == paths[j];
  }

  /** Generate one index: write it, and update its by-hash directories. */
  method GenerateIndex(disk: Disk, cfg: Config, io: Inputs, t: Target) returns (ok: bool, records: seq<HashedFile>)
    requires disk.Valid() && NoDup(cfg.algorithms) && DistinctFiles(FilesOf(cfg, io, t)) && |t.dir| == 2
    modifies disk
    ensures disk.Valid()
    ensures !ok ==> disk.failed || !Available(cfg, io, t)
    ensures ok ==> Available(cfg, io, t) && records == Records(cfg, io, FilesOf(cfg, io, t))
    ensures ok ==> Holding(disk.files, FilesOf(cfg, io, t), PathsOf(FilesOf(cfg, io, t)))
    ensures ok && cfg.acquireByHash ==> DirsAfter(cfg, io, t.dir, FilesOf(cfg, io, t), old(disk.files), disk.files)
    ensures ok ==> OnlyByHashAnd(cfg, t.dir, PathsOf(FilesOf(cfg, io, t)), old(disk.files), disk.files)
  {
    hide Stamped, DirsAfter, SameDirs, InByHash, FilesOf, SameAt, HashData;
    ghost var before, clock := disk.files, disk.clock;
    ghost var files := FilesOf(cfg, io, t);
    ghost var paths := PathsOf(files);
    records := [];
    ok := disk.CreateDirAll(t.dir);
    if !ok || t.content.None? {
      return false, records;
    }
    ok, records := WriteCompressedFile(disk, cfg, io, t);
    if !ok {
      return;
    }
    ghost var written := disk.files;
    IndexPathsAreShort(cfg, io, t);
    SameFilesSameDirs(t.dir, before, written, clock);
    if cfg.acquireByHash {
      var sources := Sources(cfg, io, t);
      ok := UpdateByHash(disk, cfg, io, t.dir, records, sources, files);
      InPlaceStays(cfg, t.dir, before, written, disk.files, files, paths);
      if ok {
        SameFilesSameDirs(t.dir, disk.files, disk.files, disk.clock) by { SameWithItself(disk.files); }
        DirsAfterFrom(cfg, io, t.dir, files, before, written, disk.files, disk.files);
      }
    }
  }

  /** The by-hash copies are made from the index files in place. */
  method Sources(cfg: Config, ghost io: Inputs, t: Target) returns (sources: seq<Path>)
    ensures sources == PathsOf(FilesOf(cfg, io, t))
  {
    sources := seq(|cfg.compressions|, k requires 0 <= k < |cfg.compressions| =>
      Child(t.dir, t.basename + cfg.compressions[k].Extension()));
  }

  lemma IndexPathsAreShort(cfg: Config, io: Inputs, t: Target)
    requires |t.dir| == 2
    ensures forall p :: p in PathsOf(FilesOf(cfg, io, t)) ==> |p| == 3
    ensures |FilesOf(cfg, io, t)| == |Records(cfg, io, FilesOf(cfg, io, t))|
  {
  }

  lemma InPlaceStays(cfg: Config, dir: Path, before: Tree, written: Tree, after: Tree, files: seq<IndexFile>, paths: seq<Path>)
    requires |dir| == 2 && Holding(written, files, paths) && OnlyByHash(cfg, dir, written, after)
    requires forall p :: p in paths ==> |p| == 3
    requires forall p :: p !in paths ==> SameAt(written, before, p)
    ensures Holding(after, files, paths)
    ensures forall p :: p !in paths && !InByHash(cfg, dir, p) ==> SameAt(after, before, p)
  {
    hide InByHash;
    forall k | 0 <= k < |paths| ensures SameAt(after, written, paths[k]) {
      NotAmongByHash(cfg, dir, paths[k]);
    }
    forall p | p !in paths && !InByHash(cfg, dir, p) ensures SameAt(after, before, p) {
      assert SameAt(written, before, p) && SameAt(after, written, p);
    }
  }

  // ----- All indices

  ghost predicate Progress(cfg: Config, io: Inputs, before: Tree, now: Tree, ts: seq<Target>, records: seq<HashedFile>) {
    var files := AllFiles(cfg, io, ts);
    && AllAvailable(cfg, io, ts)
    && records == Records(cfg, io, files)
    && Holding(now, files, PathsOf(files))
    && (cfg.acquireByHash ==> ByHashUpdated(cfg, io, ts, before, now))
    && Untouched(cfg, ts, PathsOf(files), before, now)
  }

  lemma ProgressTogether(cfg: Config, io: Inputs, ts: seq<Target>, t: Target, before: Tree, now: Tree, after: Tree,
                         clock: nat, nowClock: nat, records: seq<HashedFile>)
    requires NewDir(ts, t) && Stamped(before, clock) && Stamped(now, nowClock)
    requires DistinctFiles(AllFiles(cfg, io, ts + [t]))
    requires Progress(cfg, io, before, now, ts, records) && Available(cfg, io, t)
    requires Holding(after, FilesOf(cfg, io, t), PathsOf(FilesOf(cfg, io, t)))
    requires cfg.acquireByHash ==> DirsAfter(cfg, io, t.dir, FilesOf(cfg, io, t), now, after)
    requires OnlyByHashAnd(cfg, t.dir, PathsOf(FilesOf(cfg, io, t)), now, after)
    ensures Progress(cfg, io, before, after, ts + [t], records + Records(cfg, io, FilesOf(cfg, io, t)))
  {
    hide Stamped, DirsAfter, ByHashUpdated, Untouched, OnlyByHashAnd, FilesOf, RecordOf, NewDir, Available, Holding, PathsOf, DistinctFiles;
    var files, more := AllFiles(cfg, io, ts), FilesOf(cfg, io, t);
    assert AllFiles(cfg, io, ts + [t]) == files + more by { assert (ts + [t])[..|ts|] == ts; }
    assert PathsOf(files + more) == PathsOf(files) + PathsOf(more) by { PathsTogether(files, more); }
    InPlaceTogether(cfg, io, ts, t, now, after);
    UntouchedTogether(cfg, ts, t, before, now, after, PathsOf(files), PathsOf(more));
    AllPathsAreShort(cfg, io, ts, t);
    if cfg.acquireByHash {
      EarlierDirsKept(cfg, ts, t, now, after, nowClock, PathsOf(more));
      LaterDirsKept(cfg, ts, t, before, now, clock, PathsOf(files));
      ByHashTogether(cfg, io, ts, t, before, now, after);
    }
    assert Records(cfg, io, files + more) == Records(cfg, io, files) + Records(cfg, io, more);
    assert AllAvailable(cfg, io, ts + [t]);
  }

  lemma PathsTogether(files: seq<IndexFile>, more: seq<IndexFile>)
    ensures PathsOf(files + more) == PathsOf(files) + PathsOf(more)
  {
  }

  lemma AllPathsAreShort(cfg: Config, io: Inputs, ts: seq<Target>, t: Target)
    requires NewDir(ts, t)
    ensures forall p :: p in PathsOf(AllFiles(cfg, io, ts)) || p in PathsOf(FilesOf(cfg, io, t)) ==> |p| == 3
  {
    hide AllFiles;
    FileDirs(cfg, io, ts);
  }

  lemma InPlaceTogether(cfg: Config, io: Inputs, ts: seq<Target>, t: Target, now: Tree, after: Tree)
    requires NewDir(ts, t) && DistinctFiles(AllFiles(cfg, io, ts) + FilesOf(cfg, io, t))
    requires Holding(now, AllFiles(cfg, io, ts), PathsOf(AllFiles(cfg, io, ts)))
    requires Holding(after, FilesOf(cfg, io, t), PathsOf(FilesOf(cfg, io, t)))
    requires OnlyByHashAnd(cfg, t.dir, PathsOf(FilesOf(cfg, io, t)), now, after)
    ensures Holding(after, AllFiles(cfg, io, ts) + FilesOf(cfg, io, t), PathsOf(AllFiles(cfg, io, ts) + FilesOf(cfg, io, t)))
  {
    hide AllFiles, FilesOf, InByHash;
    var files, more := AllFiles(cfg, io, ts), FilesOf(cfg, io, t);
    FileDirs(cfg, io, ts);
    forall k | 0 <= k < |files| ensures SameAt(after, now, files[k].Path()) {
      NotAmongByHash(cfg, t.dir, files[k].Path());
      forall l | 0 <= l < |more| ensures files[k].Path() != more[l].Path() {
        assert (files + more)[k] == files[k] && (files + more)[|files| + l] == more[l];
      }
    }
  }

  method GenerateNext(disk: Disk, cfg: Config, io: Inputs, t: Target, records: seq<HashedFile>,
                      ghost before: Tree, ghost clock: nat, ghost ts: seq<Target>)
    returns (ok: bool, records': seq<HashedFile>)
    requires disk.Valid() && WellNamed(cfg) && Stamped(before, clock) && ts + [t] <= AllTargets(cfg, io)
    requires Progress(cfg, io, before, disk.files, ts, records)
    modifies disk
    ensures disk.Valid()
    ensures !ok ==> disk.failed || !AllAvailable(cfg, io, AllTargets(cfg, io))
    ensures ok ==> Progress(cfg, io, before, disk.files, ts + [t], records')
  {
    hide Available, AllAvailable, Stamped, WellNamed, Progress, DirsAfter, OnlyByHashAnd, FilesOf, Holding, DistinctFiles;
    ghost var now, nowClock := disk.files, disk.clock;
    NextIsNew(cfg, io, ts, t);
    FilesAreDistinct(cfg, io, ts + [t]);
    assert AllFiles(cfg, io, ts + [t]) == AllFiles(cfg, io, ts) + FilesOf(cfg, io, t) by { assert (ts + [t])[..|ts|] == ts; }
    assert DistinctFiles(FilesOf(cfg, io, t)) by { LastAreDistinct(AllFiles(cfg, io, ts), FilesOf(cfg, io, t)); }
    assert NoDup(cfg.algorithms) by { hide *; NamesAreDistinct(cfg); }
    var more;
    ok, more := GenerateIndex(disk, cfg, io, t);
    records' := records + more;
    if ok {
      ProgressTogether(cfg, io, ts, t, before, now, disk.files, clock, nowClock, records);
    } else {
      OneUnavailable(cfg, io, ts, t);
    }
  }

  lemma LastAreDistinct(files: seq<IndexFile>, more: seq<IndexFile>)
    requires DistinctFiles(files + more)
    ensures DistinctFiles(more)
  {
    assert forall l :: 0 <= l < |more| ==> (files + more)[|files| + l] == more[l];
  }

  lemma ProgressStart(cfg: Config, io: Inputs, t: Tree)
    ensures Progress(cfg, io, t, t, [], [])
  {
    hide DirOf;
  }

  /** Generate the repository; on success the tree is as `Published` says, and it fails
      only when an operation, a provider or a compressor does. */
  method GenerateRepository(disk: Disk, cfg: Config, io: Inputs) returns (release: Option<Release>)
    requires disk.Valid() && WellNamed(cfg)
    modifies disk
    ensures disk.Valid()
    ensures release.Some? ==> release.value == ReleaseOf(cfg, Records(cfg, io, AllFiles(cfg, io, AllTargets(cfg, io))))
    ensures release.Some? ==> Published(cfg, io, old(disk.files), disk.files)
    ensures release.Some? ==> HasIndices(cfg, io, disk.files) && (KeepsForms(cfg) ==> HasAllCopies(cfg, io, disk.files))
    ensures release.None? ==> disk.failed || !AllAvailable(cfg, io, AllTargets(cfg, io))
  {
    hide AllAvailable, Stamped, WellNamed, Progress, NewDir, AllTargets, Targets, ArchTargets, AllFiles, Published, HasIndices, HasAllCopies;
    ghost var before, clock := disk.files, disk.clock;
    assert HasClock(before);
    release := None;
    var records: seq<HashedFile> := [];
    ProgressStart(cfg, io, before);
    assert Targets(cfg, io, 0) == [] by { hide *; NoTargets(cfg, io); }
    for i := 0 to |cfg.components|
      invariant disk.Valid() && release.None?
      invariant Progress(cfg, io, before, disk.files, Targets(cfg, io, i), records)
    {
      var component := cfg.components[i];
      ghost var done := Targets(cfg, io, i);
      NoArchTargets(cfg, io, component);
      assert done + ArchTargets(cfg, io, component, 0) == done;
      var ok := disk.CreateDirAll([component]);
      if !ok {
        return;
      }
      for j := 0 to |cfg.architectures|
        invariant disk.Valid() && release.None?
        invariant Progress(cfg, io, before, disk.files, done + ArchTargets(cfg, io, component, j), records)
      {
        LoopPosition(cfg, io, i, j);
        ok, records := GenerateNext(disk, cfg, io, PackagesTarget(io, component, cfg.architectures[j]), records,
                                    before, clock, done + ArchTargets(cfg, io, component, j));
        if !ok {
          return;
        }
      }
      LoopPosition(cfg, io, i, |cfg.architectures|);
      ok, records := GenerateNext(disk, cfg, io, SourcesTarget(io, component), records,
                                  before, clock, done + ArchTargets(cfg, io, component, |cfg.architectures|));
      if !ok {
        return;
      }
    }
    AllTargetsAre(cfg, io);
    ghost var now, nowClock := disk.files, disk.clock;
    var built := ReleaseOf(cfg, records);
    var ok := disk.Write(RELEASE, ReleaseText(built.ToParagraph()));
    if !ok {
      return;
    }
    ProgressToPublished(cfg, io, before, now, disk.files, nowClock, records);
    release := Some(built);
    assert HasClock(disk.files);
    PublishedHasIndices(cfg, io, before, disk.files);
    if KeepsForms(cfg) { PublishedHasCopies(cfg, io, before, disk.files); }
  }

  lemma ProgressToPublished(cfg: Config, io: Inputs, before: Tree, now: Tree, after: Tree, clock: nat, records: seq<HashedFile>)
    requires Stamped(now, clock) && Progress(cfg, io, before, now, AllTargets(cfg, io), records)
    requires forall p :: p != RELEASE ==> SameAt(after, now, p)
    requires RELEASE in after && after[RELEASE].content == ReleaseText(ReleaseOf(cfg, records).ToParagraph())
    ensures Published(cfg, io, before, after)
    ensures records == Records(cfg, io, AllFiles(cfg, io, AllTargets(cfg, io)))
  {
    hide Stamped, AllTargets, AllFiles, InAnyByHash, ByHashAfter, DirOf;
    var ts := AllTargets(cfg, io);
    var files := AllFiles(cfg, io, ts);
    PrefixDirs(cfg, io, ts);
    FileDirs(cfg, io, ts);
    forall k | 0 <= k < |files| ensures SameAt(after, now, files[k].Path()) && PathsOf(files)[k] == files[k].Path() {
      assert |files[k].Path()| == 3 && |RELEASE| == 1;
    }
    forall i, a | 0 <= i < |ts| ensures DirOf(after, ByHashDir(ts[i].dir, a)) == DirOf(now, ByHashDir(ts[i].dir, a)) {
      SameFilesSameDirs(ts[i].dir, now, after, clock);
    }
    forall p | p != RELEASE && !IsIndex(files, |files|, p) && !(cfg.acquireByHash && InAnyByHash(cfg, ts, p))
      ensures SameAt(after, before, p)
    {
      assert forall k :: 0 <= k < |files| ==> PathsOf(files)[k] != p;
      assert SameAt(now, before, p) && SameAt(after, now, p);
    }
  }
}
