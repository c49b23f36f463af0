/** The Contents pass over a generated repository, and the splice into Release. */
module ContentsGenerator {
  import opened Common
  import opened Filesystem
  import opened ByHash
  import opened ByHashDirectory
  import opened Indices
  import opened ByHashUpdate
  import opened TargetLoop
  import opened Contents
  import opened Layout
  import opened Paths
  import opened R = Release

  // ----- By-hash copies, written directly

  /** Write `bytes` into the by-hash directory of every algorithm of `dir`. */
  method WriteByHash(disk: Disk, cfg: Config, io: Inputs, dir: Path, ghost f: IndexFile, bytes: Bytes) returns (ok: bool)
    requires disk.Valid() && NoDup(cfg.algorithms) && f.bytes == bytes
    modifies disk
    ensures disk.Valid()
    ensures !ok ==> disk.failed
    ensures ok ==> Linked(cfg, io, dir, [f], old(disk.files), disk.files, |cfg.algorithms|)
    ensures AllCopied(cfg, io, dir, [f], old(disk.files), disk.files)
    ensures OnlyByHash(cfg, dir, old(disk.files), disk.files)
  {
    hide DirOf, Stamped, Copied, TouchAll, OnlyByHash, InByHash, AllCopied, ByHashEntries;
    ghost var before := disk.files;
    OnlyByHashStart(cfg, dir, before);
    for n := 0 to |cfg.algorithms|
      invariant disk.Valid()
      invariant Linked(cfg, io, dir, [f], before, disk.files, n)
      invariant OnlyByHash(cfg, dir, before, disk.files)
    {
      var a := cfg.algorithms[n];
      var byHash := ByHashDir(dir, a);
      ok := disk.CreateDirAll(byHash);
      if !ok {
        LinkedIsCopied(cfg, io, dir, [f], before, disk.files, n);
        return;
      }
      ghost var now, clock := disk.files, disk.clock;
      ok := disk.Write(Child(byHash, io.hash(a, bytes)), Blob(bytes));
      OneCopied(io, now, disk.files, clock, byHash, f, a, ok);
      OnlyByHashNext(cfg, dir, before, now, disk.files, n);
      if !ok {
        LinkedPart(cfg, io, dir, [f], before, now, disk.files, clock, n);
        return;
      }
      LinkedNext(cfg, io, dir, [f], before, now, disk.files, clock, n);
    }
    LinkedIsCopied(cfg, io, dir, [f], before, disk.files, |cfg.algorithms|);
    ok := true;
  }

  lemma OneCopied(io: Inputs, now: Tree, after: Tree, clock: nat, byHash: Path, f: IndexFile, a: Algorithm, ok: bool)
    requires Stamped(now, clock)
    requires
      var p := Child(byHash, io.hash(a, f.bytes));
      && (ok ==> p in after && after[p] == File(Blob(f.bytes), clock))
      && (SameAt(after, now, p) || (p in after && after[p].mtime == clock))
      && forall q :: q != p ==> SameAt(after, now, q)
    ensures Copied(DirOf(now, byHash), DirOf(after, byHash), ByHashEntries(io, [f], a))
    ensures ok ==> DirOf(after, byHash) == TouchAll(DirOf(now, byHash), ByHashEntries(io, [f], a))
  {
    hide DirOf, Stamped, Copied;
    var entries := ByHashEntries(io, [f], a);
    assert entries == [ByHashEntry(io, a, f.bytes)] && entries[..0] == [] && entries[..1] == entries;
    CopyOne(now, after, clock, byHash, DirOf(now, byHash), entries, 0, ok);
  }

  lemma LinkedBoth(cfg: Config, io: Inputs, dir: Path, f: IndexFile, g: IndexFile, before: Tree, now: Tree, after: Tree)
    requires Linked(cfg, io, dir, [f], before, now, |cfg.algorithms|)
    requires Linked(cfg, io, dir, [g], now, after, |cfg.algorithms|)
    ensures Linked(cfg, io, dir, [f, g], before, after, |cfg.algorithms|)
  {
    hide DirOf, TouchAll;
    forall i | 0 <= i < |cfg.algorithms|
      ensures var d := ByHashDir(dir, cfg.algorithms[i]);
        DirOf(after, d) == TouchAll(DirOf(before, d), ByHashEntries(io, [f, g], cfg.algorithms[i]))
    {
      var d, a := ByHashDir(dir, cfg.algorithms[i]), cfg.algorithms[i];
      TouchBoth(DirOf(before, d), ByHashEntries(io, [f], a), ByHashEntries(io, [g], a));
      assert ByHashEntries(io, [f], a) + ByHashEntries(io, [g], a) == ByHashEntries(io, [f, g], a);
    }
  }

  /** The second file's copies have stopped somewhere, after all of the first one's. */
  lemma LinkedThenCopied(cfg: Config, io: Inputs, dir: Path, f: IndexFile, g: IndexFile, before: Tree, now: Tree, after: Tree)
    requires Linked(cfg, io, dir, [f], before, now, |cfg.algorithms|) && AllCopied(cfg, io, dir, [g], now, after)
    ensures AllCopied(cfg, io, dir, [f, g], before, after)
  {
    hide DirOf, TouchAll, Copied;
    forall a | a in cfg.algorithms
      ensures Copied(DirOf(before, ByHashDir(dir, a)), DirOf(after, ByHashDir(dir, a)), ByHashEntries(io, [f, g], a))
    {
      var i :| 0 <= i < |cfg.algorithms| && cfg.algorithms[i] == a;
      var d := ByHashDir(dir, a);
      CopiedMore(DirOf(before, d), DirOf(now, d), DirOf(after, d), ByHashEntries(io, [f], a), ByHashEntries(io, [g], a));
      assert ByHashEntries(io, [f], a) + ByHashEntries(io, [g], a) == ByHashEntries(io, [f, g], a);
    }
  }

  /** The first file's copies have stopped somewhere. */
  lemma FirstCopied(cfg: Config, io: Inputs, dir: Path, f: IndexFile, g: IndexFile, before: Tree, after: Tree)
    requires AllCopied(cfg, io, dir, [f], before, after)
    ensures AllCopied(cfg, io, dir, [f, g], before, after)
  {
    hide DirOf, Copied;
    forall a | a in cfg.algorithms
      ensures Copied(DirOf(before, ByHashDir(dir, a)), DirOf(after, ByHashDir(dir, a)), ByHashEntries(io, [f, g], a))
    {
      var d := ByHashDir(dir, a);
      CopiedFirst(DirOf(before, d), DirOf(after, d), ByHashEntries(io, [f], a), ByHashEntries(io, [g], a));
      assert ByHashEntries(io, [f], a) + ByHashEntries(io, [g], a) == ByHashEntries(io, [f, g], a);
    }
  }

  // ----- One component and architecture

  /** What has been done to the by-hash directory of a component for one architecture. */
  ghost predicate JobAttempted(cfg: Config, io: Inputs, cio: ContentsInputs, j: Job, before: Tree, after: Tree) {
    if cfg.acquireByHash && JobAvailable(cio, j) then AllAttempted(cfg, io, [j.component], FilesOfJob(cio, j), before, after)
    else SameDirs([j.component], before, after)
  }

  lemma JobNotAttempted(cfg: Config, io: Inputs, cio: ContentsInputs, j: Job, before: Tree, after: Tree)
    requires SameDirs([j.component], before, after)
    ensures JobAttempted(cfg, io, cio, j, before, after)
  {
    hide AllAttempted, FilesOfJob, SameDirs;
    var dir, files := [j.component], FilesOfJob(cio, j);
    NothingAttempted(cfg, io, dir, files, before);
    SameAsItself(dir, before);
    AttemptedBetween(cfg, io, dir, files, before, before, before, after);
  }

  lemma JobIsAttempted(cfg: Config, io: Inputs, cio: ContentsInputs, j: Job, before: Tree, written: Tree, after: Tree)
    requires SameDirs([j.component], before, written) && cfg.acquireByHash && JobAvailable(cio, j)
    requires AllAttempted(cfg, io, [j.component], FilesOfJob(cio, j), written, after)
    ensures JobAttempted(cfg, io, cio, j, before, after)
  {
    hide AllAttempted, FilesOfJob, SameDirs;
    SameAsItself([j.component], after);
    AttemptedBetween(cfg, io, [j.component], FilesOfJob(cio, j), before, written, after, after);
  }

  ghost predicate InPlace(t: Tree, f: IndexFile) {
    f.Path() in t && t[f.Path()].content == Blob(f.bytes)
  }

  ghost predicate OnlyJobFiles(cio: ContentsInputs, j: Job, before: Tree, after: Tree) {
    forall p :: p != PlainFile(cio, j).Path() && p != GzippedFile(cio, j).Path() ==> SameAt(after, before, p)
  }

  /** Write `Contents-<arch>` and its gzipped form. */
  method WriteContents(disk: Disk, cfg: Config, io: Inputs, cio: ContentsInputs, j: Job)
    returns (ok: bool, records: seq<HashedFile>, plain: Bytes, gz: Bytes)
    requires disk.Valid() && PlainFile(cio, j).Path() != GzippedFile(cio, j).Path()
    modifies disk
    ensures disk.Valid()
    ensures !ok ==> disk.failed || !JobAvailable(cio, j)
    ensures ok ==> JobAvailable(cio, j) && plain == PlainFile(cio, j).bytes && gz == GzippedFile(cio, j).bytes
    ensures ok ==> InPlace(disk.files, PlainFile(cio, j)) && InPlace(disk.files, GzippedFile(cio, j))
    ensures ok ==> records == Records(cfg, io, FilesOfJob(cio, j))
    ensures OnlyJobFiles(cio, j, old(disk.files), disk.files)
  {
    hide Stamped, HashData;
    ok, records, plain, gz := false, [], [], [];
    var text := cio.text(j.component, j.arch);
    if text.None? {
      return;
    }
    var created := disk.CreateDirAll([j.component]);
    if !created {
      return;
    }
    plain := text.value;
    var name := "Contents-" + j.arch;
    var path := Child([j.component], name);
    var written := disk.Write(path, Blob(plain));
    if !written {
      return;
    }
    ghost var now := disk.files;
    records := [HashedFile(Render(path), |plain|, HashData(cfg, io, plain))];
    var gzipped := cio.gzip(plain);
    if gzipped.None? {
      return;
    }
    gz := gzipped.value;
    var gzPath := Child([j.component], name + ".gz");
    ok := disk.Write(gzPath, Blob(gz));
    assert SameAt(disk.files, now, path);
    records := records + [HashedFile(Render(gzPath), |gz|, HashData(cfg, io, gz))];
    assert path == PlainFile(cio, j).Path() && gzPath == GzippedFile(cio, j).Path();
    forall p | p != path && p != gzPath ensures SameAt(disk.files, old(disk.files), p) {
      assert SameAt(disk.files, now, p) && SameAt(now, old(disk.files), p);
    }
    assert records == Records(cfg, io, FilesOfJob(cio, j));
  }

  /** Everything that is done for one component and architecture. */
  method GenerateOne(disk: Disk, cfg: Config, io: Inputs, cio: ContentsInputs, j: Job)
    returns (ok: bool, records: seq<HashedFile>)
    requires disk.Valid() && NoDup(cfg.algorithms) && PlainFile(cio, j).Path() != GzippedFile(cio, j).Path()
    modifies disk
    ensures disk.Valid()
    ensures !ok ==> disk.failed || !JobAvailable(cio, j)
    ensures ok ==> JobAvailable(cio, j) && records == Records(cfg, io, FilesOfJob(cio, j))
    ensures ok ==> InPlace(disk.files, PlainFile(cio, j)) && InPlace(disk.files, GzippedFile(cio, j))
    ensures ok && cfg.acquireByHash ==> DirsAfter(cfg, io, [j.component], FilesOfJob(cio, j), old(disk.files), disk.files)
    ensures JobAttempted(cfg, io, cio, j, old(disk.files), disk.files)
    ensures OnlyByHashAnd(cfg, [j.component], PathsOf(FilesOfJob(cio, j)), old(disk.files), disk.files)
  {
    hide Stamped, DirOf, DirsAfter, SameDirs, InByHash, HashData, Linked, PrunedUpTo, OnlyByHash, OnlyJobFiles,
         AllAttempted, AllCopied, AllPartlyPruned, JobAttempted, JobAvailable;
    ghost var before, clock, dir := disk.files, disk.clock, [j.component];
    ghost var f, g := PlainFile(cio, j), GzippedFile(cio, j);
    var plain, gz;
    ok, records, plain, gz := WriteContents(disk, cfg, io, cio, j);
    ghost var written := disk.files;
    JobFilesOnly(cfg, cio, j, before, written);
    SameFilesSameDirs(dir, before, written, clock) by { OnlyShortPaths(cio, j, before, written); }
    JobNotAttempted(cfg, io, cio, j, before, written);
    if !ok || !cfg.acquireByHash {
      return;
    }
    ok := WriteByHash(disk, cfg, io, [j.component], f, plain);
    ghost var first := disk.files;
    AfterByHash(cfg, cio, j, before, written, first);
    FirstCopied(cfg, io, dir, f, g, written, first);
    AllCopiedIsAttempted(cfg, io, dir, FilesOfJob(cio, j), written, first);
    JobIsAttempted(cfg, io, cio, j, before, written, first);
    if !ok {
      return;
    }
    ok := WriteByHash(disk, cfg, io, [j.component], g, gz);
    ghost var second := disk.files;
    OnlyByHashTwice(cfg, dir, written, first, second);
    AfterByHash(cfg, cio, j, before, written, second);
    LinkedThenCopied(cfg, io, dir, f, g, written, first, second);
    AllCopiedIsAttempted(cfg, io, dir, FilesOfJob(cio, j), written, second);
    JobIsAttempted(cfg, io, cio, j, before, written, second);
    if !ok {
      return;
    }
    LinkedBoth(cfg, io, dir, f, g, written, first, second);
    if cfg.byHashKeep.Some? {
      ok := CleanupByHashFiles(disk, cfg, [j.component]);
      OnlyByHashTwice(cfg, dir, written, second, disk.files);
      AfterByHash(cfg, cio, j, before, written, disk.files);
      LinkedThenPartlyPruned(cfg, io, dir, FilesOfJob(cio, j), written, second, disk.files);
      JobIsAttempted(cfg, io, cio, j, before, written, disk.files);
    }
    if ok {
      LinkedThenPruned(cfg, io, dir, FilesOfJob(cio, j), written, second, disk.files);
      SameAsItself(dir, disk.files);
      DirsAfterFrom(cfg, io, dir, FilesOfJob(cio, j), before, written, disk.files, disk.files);
    }
  }

  lemma OnlyShortPaths(cio: ContentsInputs, j: Job, before: Tree, written: Tree)
    requires OnlyJobFiles(cio, j, before, written)
    ensures forall p :: |p| == 1 + 3 ==> SameAt(written, before, p)
  {
  }

  lemma JobFilesOnly(cfg: Config, cio: ContentsInputs, j: Job, before: Tree, written: Tree)
    requires OnlyJobFiles(cio, j, before, written)
    ensures OnlyByHashAnd(cfg, [j.component], PathsOf(FilesOfJob(cio, j)), before, written)
  {
    hide InByHash;
    var paths := PathsOf(FilesOfJob(cio, j));
    assert paths[0] == PlainFile(cio, j).Path() && paths[1] == GzippedFile(cio, j).Path();
  }

  lemma OnlyByHashTwice(cfg: Config, dir: Path, t: Tree, u: Tree, v: Tree)
    requires OnlyByHash(cfg, dir, t, u) && OnlyByHash(cfg, dir, u, v)
    ensures OnlyByHash(cfg, dir, t, v)
  {
    hide InByHash;
    forall p | !InByHash(cfg, dir, p) ensures SameAt(v, t, p) {
      assert SameAt(u, t, p) && SameAt(v, u, p);
    }
  }

  lemma AfterByHash(cfg: Config, cio: ContentsInputs, j: Job, before: Tree, written: Tree, after: Tree)
    requires OnlyJobFiles(cio, j, before, written) && OnlyByHash(cfg, [j.component], written, after)
    requires cfg.acquireByHash
    ensures OnlyByHashAnd(cfg, [j.component], PathsOf(FilesOfJob(cio, j)), before, after)
    ensures InPlace(written, PlainFile(cio, j)) ==> InPlace(after, PlainFile(cio, j))
    ensures InPlace(written, GzippedFile(cio, j)) ==> InPlace(after, GzippedFile(cio, j))
  {
    hide InByHash;
    var f, g, paths := PlainFile(cio, j), GzippedFile(cio, j), PathsOf(FilesOfJob(cio, j));
    NotAmongByHash(cfg, [j.component], f.Path());
    NotAmongByHash(cfg, [j.component], g.Path());
    assert SameAt(after, written, f.Path()) && SameAt(after, written, g.Path());
    assert paths[0] == f.Path() && paths[1] == g.Path();
    forall p | p !in paths && !InByHash(cfg, [j.component], p) ensures SameAt(after, before, p) {
      assert SameAt(written, before, p) && SameAt(after, written, p);
    }
  }

  // ----- All of them

  ghost predicate OthersKept(cfg: Config, files: seq<IndexFile>, before: Tree, now: Tree) {
    forall p :: !IsIndex(files, |files|, p) && !(cfg.acquireByHash && InComponentByHash(cfg, p)) ==> SameAt(now, before, p)
  }

  ghost predicate Progress(cfg: Config, io: Inputs, cio: ContentsInputs, before: Tree, now: Tree, jobs: seq<Job>, records: seq<HashedFile>) {
    var files := ContentsFiles(cio, jobs);
    && JobsAvailable(cio, jobs)
    && records == Records(cfg, io, files)
    && IndicesInPlace(now, files, |files|)
    && (cfg.acquireByHash ==> ContentsDirs(cfg, io, cio, jobs, before, now))
    && OthersKept(cfg, files, before, now)
  }

  /** The pass has stopped at job `n`, or has been through when that is their number: the
      jobs before it are done, and its own files have been copied as far as an update got. */
  ghost predicate ContentsUpTo(cfg: Config, io: Inputs, cio: ContentsInputs, jobs: seq<Job>, n: nat, before: Tree, now: Tree) {
    && n <= |jobs|
    && JobsAvailable(cio, jobs[..n])
    && (cfg.acquireByHash ==> forall c, a :: a in cfg.algorithms ==>
         StoppedIn(cfg, io, cio, jobs, n, c, a, DirOf(before, ByHashDir([c], a)), DirOf(now, ByHashDir([c], a))))
  }

  /** The by-hash directory of component `c` was `s` and has become `t`. */
  ghost predicate StoppedIn(cfg: Config, io: Inputs, cio: ContentsInputs, jobs: seq<Job>, n: nat, c: string, a: Algorithm,
                            s: seq<Entry>, t: seq<Entry>)
    requires n <= |jobs|
  {
    var m := ContentsByHash(cfg, io, cio, jobs[..n], c, a, s);
    if n < |jobs| && jobs[n].component == c && JobAvailable(cio, jobs[n])
    then Attempted(m, t, ByHashEntries(io, FilesOfJob(cio, jobs[n]), a), cfg.byHashKeep)
    else t == m
  }

  ghost predicate ContentsAttempted(cfg: Config, io: Inputs, cio: ContentsInputs, jobs: seq<Job>, before: Tree, now: Tree) {
    exists n: nat :: ContentsUpTo(cfg, io, cio, jobs, n, before, now)
  }

  /** All that a Contents pass has changed, wherever it stopped. */
  ghost predicate Touched(cfg: Config, io: Inputs, cio: ContentsInputs, jobs: seq<Job>, before: Tree, now: Tree) {
    OthersKept(cfg, ContentsFiles(cio, jobs), before, now) && ContentsAttempted(cfg, io, cio, jobs, before, now)
  }

  /** A job that failed, after jobs that did not. */
  lemma StoppedAtJob(cfg: Config, io: Inputs, cio: ContentsInputs, all: seq<Job>, jobs: seq<Job>, j: Job,
                     before: Tree, now: Tree, after: Tree, clock: nat)
    requires Stamped(now, clock) && jobs + [j] <= all && JobsAvailable(cio, jobs)
    requires cfg.acquireByHash ==> ContentsDirs(cfg, io, cio, jobs, before, now)
    requires JobAttempted(cfg, io, cio, j, now, after)
    requires OnlyByHashAnd(cfg, [j.component], PathsOf(FilesOfJob(cio, j)), now, after)
    ensures ContentsUpTo(cfg, io, cio, all, |jobs|, before, after)
  {
    hide DirOf, Stamped, Attempted, FilesOfJob, JobAvailable, JobsAvailable, OnlyByHashAnd, ContentsByHash, ByHashEntries;
    assert all[..|jobs|] == jobs && all[|jobs|] == j by { assert (jobs + [j])[..|jobs|] == jobs && (jobs + [j])[|jobs|] == j; }
    if cfg.acquireByHash {
      forall c, a | a in cfg.algorithms
        ensures StoppedIn(cfg, io, cio, all, |jobs|, c, a, DirOf(before, ByHashDir([c], a)), DirOf(after, ByHashDir([c], a)))
      {
        if c != j.component { OtherComponentKept(cfg, cio, j, now, after, clock, c, a); }
      }
    }
  }

  lemma AllJobsDone(cfg: Config, io: Inputs, cio: ContentsInputs, jobs: seq<Job>, before: Tree, now: Tree)
    requires JobsAvailable(cio, jobs) && (cfg.acquireByHash ==> ContentsDirs(cfg, io, cio, jobs, before, now))
    ensures ContentsUpTo(cfg, io, cio, jobs, |jobs|, before, now)
  {
    hide DirOf, JobsAvailable, ContentsByHash;
    assert jobs[..|jobs|] == jobs;
  }

  lemma {:induction false} FilesPrefix(cio: ContentsInputs, jobs: seq<Job>, all: seq<Job>)
    requires jobs <= all
    ensures ContentsFiles(cio, jobs) <= ContentsFiles(cio, all)
    decreases |all|
  {
    hide FilesOfJob;
    if jobs != all {
      var n := |all| - 1;
      assert jobs <= all[..n];
      FilesPrefix(cio, jobs, all[..n]);
    }
  }

  lemma TouchedMore(cfg: Config, io: Inputs, cio: ContentsInputs, jobs: seq<Job>, all: seq<Job>, n: nat, before: Tree, now: Tree)
    requires jobs <= all && OthersKept(cfg, ContentsFiles(cio, jobs), before, now)
    requires ContentsUpTo(cfg, io, cio, all, n, before, now)
    ensures Touched(cfg, io, cio, all, before, now)
  {
    hide OthersKept, ContentsUpTo;
    FilesPrefix(cio, jobs, all);
    var files := ContentsFiles(cio, all);
    var more := files[|ContentsFiles(cio, jobs)|..];
    assert files == ContentsFiles(cio, jobs) + more;
    KeptMore(cfg, ContentsFiles(cio, jobs), more, before, now);
  }

  lemma KeptMore(cfg: Config, files: seq<IndexFile>, more: seq<IndexFile>, before: Tree, now: Tree)
    requires OthersKept(cfg, files, before, now)
    ensures OthersKept(cfg, files + more, before, now)
  {
    hide InComponentByHash;
    forall p | !IsIndex(files + more, |files + more|, p) ensures !IsIndex(files, |files|, p) {
      assert forall k :: 0 <= k < |files| ==> (files + more)[k] == files[k];
    }
  }

  lemma OthersTogether(cfg: Config, files: seq<IndexFile>, more: seq<IndexFile>, c: string, before: Tree, now: Tree, after: Tree)
    requires OthersKept(cfg, files, before, now) && OnlyByHashAnd(cfg, [c], PathsOf(more), now, after)
    ensures OthersKept(cfg, files + more, before, after)
  {
    hide InByHash;
    forall p | !IsIndex(files + more, |files + more|, p) && !(cfg.acquireByHash && InComponentByHash(cfg, p))
      ensures SameAt(after, before, p)
    {
      assert !IsIndex(files, |files|, p) by {
        assert forall k :: 0 <= k < |files| ==> (files + more)[k] == files[k];
      }
      assert p !in PathsOf(more) by {
        assert forall k :: 0 <= k < |more| ==> (files + more)[|files| + k] == more[k];
      }
      assert SameAt(now, before, p) && SameAt(after, now, p);
    }
  }

  lemma InPlaceTogether(cfg: Config, files: seq<IndexFile>, more: seq<IndexFile>, c: string, now: Tree, after: Tree)
    requires IndicesInPlace(now, files, |files|) && IndicesInPlace(after, more, |more|)
    requires OnlyByHashAnd(cfg, [c], PathsOf(more), now, after) && DistinctFiles(files + more)
    requires forall k :: 0 <= k < |files| ==> |files[k].Path()| == 2
    ensures IndicesInPlace(after, files + more, |files + more|)
  {
    hide InByHash;
    forall k | 0 <= k < |files| ensures SameAt(after, now, files[k].Path()) {
      NotAmongByHash(cfg, [c], files[k].Path());
      forall l | 0 <= l < |more| ensures files[k].Path() != more[l].Path() {
        assert (files + more)[k] == files[k] && (files + more)[|files| + l] == more[l];
      }
    }
  }

  lemma DirsTogether(cfg: Config, io: Inputs, cio: ContentsInputs, jobs: seq<Job>, j: Job, before: Tree, now: Tree, after: Tree, clock: nat)
    requires Stamped(now, clock) && cfg.acquireByHash
    requires ContentsDirs(cfg, io, cio, jobs, before, now)
    requires DirsAfter(cfg, io, [j.component], FilesOfJob(cio, j), now, after)
    requires OnlyByHashAnd(cfg, [j.component], PathsOf(FilesOfJob(cio, j)), now, after)
    ensures ContentsDirs(cfg, io, cio, jobs + [j], before, after)
  {
    hide DirOf, Stamped, TouchAll, Pruned, ByHashEntries, OnlyByHashAnd, FilesOfJob;
    assert (jobs + [j])[..|jobs|] == jobs;
    forall c, a | a in cfg.algorithms
      ensures DirOf(after, ByHashDir([c], a)) == ContentsByHash(cfg, io, cio, jobs + [j], c, a, DirOf(before, ByHashDir([c], a)))
    {
      if c != j.component {
        OtherComponentKept(cfg, cio, j, now, after, clock, c, a);
      }
    }
  }

  lemma NotOfAlgorithm(cfg: Config, dir: Path, a: Algorithm, other: Path, p: Path)
    requires |dir| == |other| && a !in cfg.algorithms && IsChild(p, ByHashDir(dir, a))
    ensures !InByHash(cfg, other, p)
  {
    forall b | b in cfg.algorithms ensures !IsChild(p, ByHashDir(other, b)) {
      ByHashDirsDiffer(dir, a, other, b);
    }
  }

  lemma OtherComponentKept(cfg: Config, cio: ContentsInputs, j: Job, now: Tree, after: Tree, clock: nat, c: string, a: Algorithm)
    requires Stamped(now, clock) && c != j.component
    requires OnlyByHashAnd(cfg, [j.component], PathsOf(FilesOfJob(cio, j)), now, after)
    ensures DirOf(after, ByHashDir([c], a)) == DirOf(now, ByHashDir([c], a))
  {
    hide DirOf, Stamped;
    forall n ensures SameAt(now, after, Child(ByHashDir([c], a), n)) {
      var p := Child(ByHashDir([c], a), n);
      if a in cfg.algorithms {
        assert InByHash(cfg, [c], p);
        DirOfByHashFile(cfg, [c], [j.component], p);
      } else {
        NotOfAlgorithm(cfg, [c], a, [j.component], p);
      }
      assert |p| == 4;
      assert SameAt(after, now, p);
    }
    DirUnchanged(now, after, clock, ByHashDir([c], a));
  }

  /** The next component and architecture. */
  method GenerateNext(disk: Disk, cfg: Config, io: Inputs, cio: ContentsInputs, j: Job, records: seq<HashedFile>,
                      ghost before: Tree, ghost jobs: seq<Job>)
    returns (ok: bool, records': seq<HashedFile>)
    requires disk.Valid() && NamesApart(cfg) && jobs + [j] <= AllJobs(cfg)
    requires Progress(cfg, io, cio, before, disk.files, jobs, records)
    modifies disk
    ensures disk.Valid()
    ensures !ok ==> Touched(cfg, io, cio, AllJobs(cfg), before, disk.files)
    ensures !ok ==> disk.failed || !JobsAvailable(cio, AllJobs(cfg))
    ensures ok ==> Progress(cfg, io, cio, before, disk.files, jobs + [j], records')
    ensures SameAt(disk.files, old(disk.files), RELEASE)
  {
    hide Stamped, NamesApart, DirsAfter, OnlyByHashAnd, ContentsDirs, OthersKept, AllJobs, FilesOfJob, RecordOf,
         ContentsUpTo, Touched, JobAttempted;
    ghost var now, nowClock := disk.files, disk.clock;
    ghost var files, more := ContentsFiles(cio, jobs), FilesOfJob(cio, j);
    JobIsApart(cfg, cio, jobs, j);
    ContentsFilesDistinct(cfg, cio, jobs + [j]);
    assert ContentsFiles(cio, jobs + [j]) == files + more by { assert (jobs + [j])[..|jobs|] == jobs; }
    assert NoDup(cfg.algorithms) by { AlgorithmsAreDistinct(cfg); }
    var next;
    ok, next := GenerateOne(disk, cfg, io, cio, j);
    records' := records + next;
    ReleaseKept(cfg, cio, j, now, disk.files);
    OthersTogether(cfg, files, more, j.component, before, now, disk.files);
    if !ok {
      StoppedAtJob(cfg, io, cio, AllJobs(cfg), jobs, j, before, now, disk.files, nowClock);
      TouchedMore(cfg, io, cio, jobs + [j], AllJobs(cfg), |jobs|, before, disk.files);
      assert AllJobs(cfg)[|jobs|] == j;
    }
    if ok {
      assert IndicesInPlace(disk.files, more, |more|) by { BothInPlace(cio, j, disk.files); }
      ContentsPathsAreShort(cio, jobs);
      InPlaceTogether(cfg, files, more, j.component, now, disk.files);
      if cfg.acquireByHash {
        DirsTogether(cfg, io, cio, jobs, j, before, now, disk.files, nowClock);
      }
      assert Records(cfg, io, files + more) == Records(cfg, io, files) + Records(cfg, io, more);
    }
  }

  lemma AlgorithmsAreDistinct(cfg: Config)
    requires NamesApart(cfg)
    ensures NoDup(cfg.algorithms)
  {
  }

  lemma JobIsApart(cfg: Config, cio: ContentsInputs, jobs: seq<Job>, j: Job)
    requires NamesApart(cfg) && jobs + [j] <= AllJobs(cfg)
    ensures PlainFile(cio, j).Path() != GzippedFile(cio, j).Path()
  {
    JobsAreJobs(cfg, jobs + [j]);
    assert (jobs + [j])[|jobs|] == j;
    JobFilesApart(cfg, cio, j, j);
  }

  lemma BothInPlace(cio: ContentsInputs, j: Job, t: Tree)
    requires InPlace(t, PlainFile(cio, j)) && InPlace(t, GzippedFile(cio, j))
    ensures IndicesInPlace(t, FilesOfJob(cio, j), |FilesOfJob(cio, j)|)
  {
  }

  lemma ReleaseKept(cfg: Config, cio: ContentsInputs, j: Job, now: Tree, after: Tree)
    requires OnlyByHashAnd(cfg, [j.component], PathsOf(FilesOfJob(cio, j)), now, after)
    ensures SameAt(after, now, RELEASE)
  {
    NotAmongByHash(cfg, [j.component], RELEASE);
    var paths := PathsOf(FilesOfJob(cio, j));
    assert forall k :: 0 <= k < |paths| ==> |paths[k]| == 2;
    assert RELEASE !in paths;
  }

  lemma JobsStart(cfg: Config, io: Inputs, cio: ContentsInputs, t: Tree)
    ensures Progress(cfg, io, cio, t, t, [], []) && Jobs(cfg, 0) == []
  {
    hide DirOf;
  }

  /** Generate all Contents indices. */
  method GenerateFiles(disk: Disk, cfg: Config, io: Inputs, cio: ContentsInputs) returns (ok: bool, records: seq<HashedFile>)
    requires disk.Valid() && NamesApart(cfg)
    modifies disk
    ensures disk.Valid()
    ensures !ok ==> disk.failed || !JobsAvailable(cio, AllJobs(cfg))
    ensures ok ==> Progress(cfg, io, cio, old(disk.files), disk.files, AllJobs(cfg), records)
    ensures Touched(cfg, io, cio, AllJobs(cfg), old(disk.files), disk.files)
    ensures SameAt(disk.files, old(disk.files), RELEASE)
  {
    hide Stamped, NamesApart, Progress, JobsAvailable, Touched;
    ghost var before := disk.files;
    records := [];
    JobsStart(cfg, io, cio, before);
    for i := 0 to |cfg.components|
      invariant disk.Valid() && SameAt(disk.files, before, RELEASE)
      invariant Progress(cfg, io, cio, before, disk.files, Jobs(cfg, i), records)
    {
      var component := cfg.components[i];
      assert Jobs(cfg, i) + ArchJobs(cfg, component, 0) == Jobs(cfg, i);
      for n := 0 to |cfg.architectures|
        invariant disk.Valid() && SameAt(disk.files, before, RELEASE)
        invariant Progress(cfg, io, cio, before, disk.files, Jobs(cfg, i) + ArchJobs(cfg, component, n), records)
      {
        ghost var jobs := Jobs(cfg, i) + ArchJobs(cfg, component, n);
        JobPosition(cfg, i, n + 1);
        if cfg.architectures[n] == "source" {
          assert Jobs(cfg, i) + ArchJobs(cfg, component, n + 1) == jobs;
          continue;
        }
        var j := Job(component, cfg.architectures[n]);
        assert Jobs(cfg, i) + ArchJobs(cfg, component, n + 1) == jobs + [j];
        ok, records := GenerateNext(disk, cfg, io, cio, j, records, before, jobs);
        if !ok {
          return;
        }
      }
    }
    TouchedWhole(cfg, io, cio, before, disk.files, records);
    ok := true;
  }

  lemma TouchedWhole(cfg: Config, io: Inputs, cio: ContentsInputs, before: Tree, now: Tree, records: seq<HashedFile>)
    requires Progress(cfg, io, cio, before, now, AllJobs(cfg), records)
    ensures Touched(cfg, io, cio, AllJobs(cfg), before, now)
  {
    hide OthersKept, ContentsDirs, AllJobs, JobsAvailable, ContentsUpTo;
    AllJobsDone(cfg, io, cio, AllJobs(cfg), before, now);
  }

  lemma WholePass(cfg: Config, io: Inputs, cio: ContentsInputs, before: Tree, now: Tree, records: seq<HashedFile>)
    requires Progress(cfg, io, cio, before, now, AllJobs(cfg), records)
    ensures ContentsUpTo(cfg, io, cio, AllJobs(cfg), |AllJobs(cfg)|, before, now)
  {
    hide OthersKept, ContentsDirs, AllJobs, JobsAvailable, ContentsUpTo;
    AllJobsDone(cfg, io, cio, AllJobs(cfg), before, now);
  }

  // ----- The splice

  /** What a Contents pass leaves, wherever it stops: outside the by-hash directories of
      the components, only Contents files (and Release, once its rewriting has started
      after all jobs) may differ. */
  ghost predicate ContentsPass(cfg: Config, io: Inputs, cio: ContentsInputs, before: Tree, after: Tree, rewriting: bool) {
    var files := ContentsFiles(cio, AllJobs(cfg));
    && ContentsAttempted(cfg, io, cio, AllJobs(cfg), before, after)
    && (rewriting ==> ContentsUpTo(cfg, io, cio, AllJobs(cfg), |AllJobs(cfg)|, before, after))
    && forall p :: !(rewriting && p == RELEASE) && !IsIndex(files, |files|, p) && !(cfg.acquireByHash && InComponentByHash(cfg, p))
                   ==> SameAt(after, before, p)
  }

  lemma TouchedThenReleased(cfg: Config, io: Inputs, cio: ContentsInputs, before: Tree, now: Tree, after: Tree, clock: nat, rewriting: bool)
    requires Stamped(now, clock) && Touched(cfg, io, cio, AllJobs(cfg), before, now)
    requires forall p :: p != RELEASE ==> SameAt(after, now, p)
    requires if rewriting then ContentsUpTo(cfg, io, cio, AllJobs(cfg), |AllJobs(cfg)|, before, now) else after == now
    ensures ContentsPass(cfg, io, cio, before, after, rewriting)
  {
    hide DirOf, Stamped, AllJobs, InComponentByHash, StoppedIn, ContentsFiles, IsIndex, JobsAvailable;
    forall c, a ensures DirOf(after, ByHashDir([c], a)) == DirOf(now, ByHashDir([c], a)) {
      forall n ensures SameAt(now, after, Child(ByHashDir([c], a), n)) {
        assert SameAt(after, now, Child(ByHashDir([c], a), n));
      }
      DirUnchanged(now, after, clock, ByHashDir([c], a));
    }
    var n: nat :| ContentsUpTo(cfg, io, cio, AllJobs(cfg), n, before, now);
    assert ContentsUpTo(cfg, io, cio, AllJobs(cfg), n, before, after);
    var files := ContentsFiles(cio, AllJobs(cfg));
    forall p | !(rewriting && p == RELEASE) && !IsIndex(files, |files|, p) && !(cfg.acquireByHash && InComponentByHash(cfg, p))
      ensures SameAt(after, before, p)
    {
      assert SameAt(now, before, p);
      if p != RELEASE { assert SameAt(after, now, p); }
    }
  }

  /** The tree after the Contents pass and the splice into Release. */
  ghost predicate Spliced(cfg: Config, io: Inputs, cio: ContentsInputs, before: Tree, after: Tree) {
    var files := ContentsFiles(cio, AllJobs(cfg));
    && JobsAvailable(cio, AllJobs(cfg))
    && IndicesInPlace(after, files, |files|)
    && RELEASE in before && before[RELEASE].content.ReleaseText? && RELEASE in after
    && after[RELEASE].content ==
         ReleaseText(AddFiles(FromParagraph(before[RELEASE].content.para), Records(cfg, io, files)).ToParagraph())
    && (cfg.acquireByHash ==> ContentsDirs(cfg, io, cio, AllJobs(cfg), before, after))
    && forall p :: p != RELEASE && !IsIndex(files, |files|, p) && !(cfg.acquireByHash && InComponentByHash(cfg, p))
                   ==> SameAt(after, before, p)
  }

  function AddFiles(r: Release, records: seq<HashedFile>): Release {
    r.(files := r.files + records)
  }

  /** Parse the Release file on disk, add the records, and rewrite it. Until the
      rewriting starts, the Release file is as it was. */
  method GenerateContents(disk: Disk, cfg: Config, io: Inputs, cio: ContentsInputs) returns (ok: bool, ghost rewriting: bool)
    requires disk.Valid() && NamesApart(cfg)
    modifies disk
    ensures disk.Valid()
    ensures !ok ==> disk.failed || !JobsAvailable(cio, AllJobs(cfg))
                    || RELEASE !in old(disk.files) || !old(disk.files)[RELEASE].content.ReleaseText?
    ensures ok ==> Spliced(cfg, io, cio, old(disk.files), disk.files)
    ensures ok ==> HasAllContents(cfg, io, cio, disk.files)
    ensures ok ==> ["Release"] in old(disk.files) && old(disk.files)[["Release"]].content.ReleaseText?
                   && HasFields(disk.files, old(disk.files)[["Release"]].content.para.fields)
    ensures !ok && !rewriting ==> SameAt(disk.files, old(disk.files), RELEASE)
    ensures ContentsPass(cfg, io, cio, old(disk.files), disk.files, rewriting)
  {
    hide Stamped, NamesApart, Progress, Spliced, JobsAvailable, AllJobs, Touched, ContentsPass, ContentsUpTo, HasAllContents, HasFields;
    ghost var before := disk.files;
    rewriting := false;
    var records;
    ok, records := GenerateFiles(disk, cfg, io, cio);
    ghost var now, clock := disk.files, disk.clock;
    TouchedThenReleased(cfg, io, cio, before, now, now, clock, false) by { SameWithItself(now); }
    if !ok {
      return;
    }
    var content := disk.Read(RELEASE);
    if content.None? || !content.value.ReleaseText? {
      return false, false;
    }
    var release := FromStr(content.value.para);
    for i := 0 to |records|
      invariant release == AddFiles(FromParagraph(now[RELEASE].content.para), records[..i])
    {
      release := release.AddFile(records[i]);
      assert records[..i + 1] == records[..i] + [records[i]];
    }
    assert records[..|records|] == records;
    rewriting := true;
    WholePass(cfg, io, cio, before, now, records);
    ok := disk.Write(RELEASE, ReleaseText(release.ToParagraph()));
    TouchedThenReleased(cfg, io, cio, before, now, disk.files, clock, true);
    if ok {
      ProgressToSpliced(cfg, io, cio, before, now, disk.files, clock, records);
      SplicedHasContents(cfg, io, cio, before, disk.files);
    }
  }

  lemma SplicedHasContents(cfg: Config, io: Inputs, cio: ContentsInputs, before: Tree, after: Tree)
    requires Spliced(cfg, io, cio, before, after)
    ensures HasAllContents(cfg, io, cio, after)
    ensures ["Release"] in before && before[["Release"]].content.ReleaseText? && HasFields(after, before[["Release"]].content.para.fields)
  {
    hide ContentsFiles, AllJobs, JobsAvailable, IndicesInPlace, ContentsDirs, HasAllContents, InComponentByHash, IsIndex, RecordOf;
    var files := ContentsFiles(cio, AllJobs(cfg));
    var records := Records(cfg, io, files);
    var r := AddFiles(FromParagraph(before[RELEASE].content.para), records);
    forall k | 0 <= k < |files| ensures RecordOf(cfg, io, files[k].Path(), files[k].bytes) in r.files {
      assert records[k] == RecordOf(cfg, io, files[k].Path(), files[k].bytes);
      assert r.files[|r.files| - |files| + k] == records[k];
    }
    MadeContents(cfg, io, cio, after, r);
  }

  lemma ProgressToSpliced(cfg: Config, io: Inputs, cio: ContentsInputs, before: Tree, now: Tree, after: Tree, clock: nat, records: seq<HashedFile>)
    requires Stamped(now, clock) && Progress(cfg, io, cio, before, now, AllJobs(cfg), records)
    requires SameAt(now, before, RELEASE) && RELEASE in now && now[RELEASE].content.ReleaseText?
    requires forall p :: p != RELEASE ==> SameAt(after, now, p)
    requires RELEASE in after
    requires after[RELEASE].content == ReleaseText(AddFiles(FromParagraph(now[RELEASE].content.para), records).ToParagraph())
    ensures Spliced(cfg, io, cio, before, after)
  {
    hide Stamped, DirOf, AllJobs, InComponentByHash, ContentsByHash, ContentsFiles;
    var files := ContentsFiles(cio, AllJobs(cfg));
    ContentsPathsAreShort(cio, AllJobs(cfg));
    forall k | 0 <= k < |files| ensures SameAt(after, now, files[k].Path()) {
      assert |files[k].Path()| == 2 && |RELEASE| == 1;
    }
    forall c: string, a ensures DirOf(after, ByHashDir([c], a)) == DirOf(now, ByHashDir([c], a)) {
      SameFilesSameDirs([c], now, after, clock);
    }
    forall p | p != RELEASE && !IsIndex(files, |files|, p) && !(cfg.acquireByHash && InComponentByHash(cfg, p))
      ensures SameAt(after, before, p)
    {
      assert SameAt(now, before, p) && SameAt(after, now, p);
    }
  }
}
