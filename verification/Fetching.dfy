/** What a client that reads Release can fetch by hash. */
module Fetching {
  import opened Common
  import opened Filesystem
  import opened Attempts
  import opened ByHash
  import opened ByHashDirectory
  import opened Indices
  import opened ByHashUpdate
  import opened Contents
  import opened Layout
  import opened TargetLoop
  import opened ContentsGenerator
  import opened Paths
  import opened R = Release
  import opened Archive
  import opened Retention
  import opened ContentsRetention
  import AsyncRepository

  /** In the by-hash directories beside the listed file there is one under each of its hashes,
      and it has that hash. */
  ghost predicate EntryFetchable(cfg: Config, t: Tree, hash: (Algorithm, Bytes) -> string, f: HashedFile) {
    IndexEntryFetchable(cfg, t, hash, f) || ContentsEntryFetchable(cfg, t, hash, f)
  }

  ghost predicate IndexEntryFetchable(cfg: Config, t: Tree, hash: (Algorithm, Bytes) -> string, f: HashedFile) {
    exists c: string, d: string, name: string ::
      '/' !in c && '/' !in d && '/' !in name && f.path == c + "/" + d + "/" + name && AllHashes(cfg, t, [c, d], hash, f)
  }

  ghost predicate ContentsEntryFetchable(cfg: Config, t: Tree, hash: (Algorithm, Bytes) -> string, f: HashedFile) {
    exists c: string, name: string ::
      '/' !in c && '/' !in name && f.path == c + "/" + name && AllHashes(cfg, t, [c], hash, f)
  }

  ghost predicate AllHashes(cfg: Config, t: Tree, dir: Path, hash: (Algorithm, Bytes) -> string, f: HashedFile) {
    forall a :: a in cfg.algorithms ==> a in f.hashes && HasCopy(t, dir, hash, a, f.hashes[a])
  }

  ghost predicate NoByHash(cfg: Config, t: Tree) {
    forall dir, a :: a in cfg.algorithms ==> DirOf(t, ByHashDir(dir, a)) == []
  }

  /** The setting: any attempts, which started without by-hash files, and the last of them
      succeeded, with `generated` before its Contents pass. */
  ghost predicate LastSucceeded(cfg: Config, trees: seq<Tree>, ios: seq<Inputs>, cios: seq<ContentsInputs>, generated: Tree) {
    var n := |ios| - 1;
    && NamesApart(cfg) && cfg.acquireByHash && cfg.byHashKeep.Some?
    && Tried(cfg, trees, ios) && ContentsTried(cfg, trees, ios, cios) && ios != [] && NoByHash(cfg, trees[0])
    && Published(cfg, ios[n], trees[n], generated) && HasClock(generated) && Spliced(cfg, ios[n], cios[n], generated, trees[n + 1])
  }

  lemma IndexFetchable(cfg: Config, trees: seq<Tree>, ios: seq<Inputs>, cios: seq<ContentsInputs>, generated: Tree, n: nat, a: Algorithm)
    requires LastSucceeded(cfg, trees, ios, cios, generated) && |cfg.compressions| <= Keep(cfg) && a in cfg.algorithms
    requires
      var io := ios[|ios| - 1];
      n < |AllFiles(cfg, io, AllTargets(cfg, io))|
    ensures
      var io := ios[|ios| - 1];
      var f := AllFiles(cfg, io, AllTargets(cfg, io))[n];
      Fetchable(trees[|ios|], ByHashDir(f.dir, a), io.hash, a, f.bytes)
  {
    hide DirOf, NamesApart, Fetchable, AllTargets, AllFiles, Tried, ContentsTried, Published, Spliced, HasClock, GotThrough, RecordedFor,
         IndexBatch, Concat;
    var k := |ios| - 1;
    var io := ios[k];
    var i, c := FileOrigin(cfg, io, AllTargets(cfg, io), n);
    TriedLength(cfg, trees, ios);
    ContentsTriedLength(cfg, trees, ios, cios);
    var d := IndexDir(cfg, io, i, a);
    LastGeneration(cfg, io, trees[k], generated, io, i, a);
    TargetDirLength(cfg, io, i);
    SpliceKeepsIndexDirs(cfg, io, cios[k], generated, trees[k + 1], AllTargets(cfg, io)[i].dir, a);
    assert GotThrough(cfg, trees[k], trees[k + 1], d, IndexBatch(cfg, io, i, a)) by {
      ThroughToEnd(cfg, trees[k], generated, trees[k + 1], d, IndexBatch(cfg, io, i, a));
    }
    var parts := AttemptsAreRecorded(cfg, trees, ios, io, i, a);
    RecordLength(cfg, trees, ios, io, i, a, parts);
    BatchEntry(cfg, io, i, a, c);
    OnlyLast(parts);
    FetchableWhileFewWrites(cfg, trees, ios, i, a, parts, k, c);
  }

  lemma TriedLength(cfg: Config, trees: seq<Tree>, ios: seq<Inputs>)
    requires Tried(cfg, trees, ios)
    ensures |trees| == |ios| + 1 && forall k :: 0 <= k < |trees| ==> HasClock(trees[k])
  {
    hide HasClock;
  }

  lemma ThroughToEnd(cfg: Config, before: Tree, now: Tree, after: Tree, dir: Path, batch: seq<Entry>)
    requires GotThrough(cfg, before, now, dir, batch) && DirOf(after, dir) == DirOf(now, dir)
    ensures GotThrough(cfg, before, after, dir, batch)
  {
    hide DirOf;
  }

  lemma OnlyLast(parts: seq<seq<Entry>>)
    requires parts != []
    ensures
      var k := |parts| - 1;
      Concat(parts[k..]) == parts[k] && Concat(parts[k + 1..]) == []
  {
    var k := |parts| - 1;
    assert parts[k..] == [parts[k]] && [parts[k]][..0] == [] && parts[k + 1..] == [];
    assert Concat([parts[k]]) == Concat([]) + parts[k];
  }

  /** The copy of a Contents file among what its publication writes. */
  lemma {:induction false} ContentsEntry(io: Inputs, cio: ContentsInputs, jobs: seq<Job>, i: nat, f: IndexFile, a: Algorithm) returns (e: nat)
    requires i < |jobs| && f in FilesOfJob(cio, jobs[i])
    ensures
      var batch := ContentsBatch(io, cio, jobs, jobs[i].component, a);
      e < |batch| && batch[e] == Entry(io.hash(a, f.bytes), Blob(f.bytes))
    decreases |jobs|
  {
    hide FilesOfJob;
    var n := |jobs| - 1;
    var before := ContentsBatch(io, cio, jobs[..n], jobs[i].component, a);
    if i < n {
      e := ContentsEntry(io, cio, jobs[..n], i, f, a);
    } else {
      var files := FilesOfJob(cio, jobs[n]);
      var k :| 0 <= k < |files| && files[k] == f;
      e := |before| + k;
      assert ByHashEntries(io, files, a)[k] == ByHashEntry(io, a, f.bytes);
    }
  }

  lemma ContentsFetchable(cfg: Config, trees: seq<Tree>, ios: seq<Inputs>, cios: seq<ContentsInputs>, generated: Tree, n: nat, a: Algorithm)
    requires LastSucceeded(cfg, trees, ios, cios, generated) && ContentsPerRun(cfg) <= Keep(cfg) && a in cfg.algorithms
    requires |cios| == |ios| && n < |ContentsFiles(cios[|ios| - 1], AllJobs(cfg))|
    ensures
      var f := ContentsFiles(cios[|ios| - 1], AllJobs(cfg))[n];
      Fetchable(trees[|ios|], ByHashDir(f.dir, a), ios[|ios| - 1].hash, a, f.bytes)
  {
    hide DirOf, Fetchable, AllJobs, ContentsFiles, FilesOfJob, ContentsPerRun, ContentsBatch, Tried, ContentsTried, Published, Spliced,
         HasClock, ContentsLogged, PassedThrough, Concat, IsGood;
    var k := |ios| - 1;
    var io, cio, jobs := ios[k], cios[k], AllJobs(cfg);
    var f := ContentsFiles(cio, jobs)[n];
    var i := ContentsFileOrigin(cio, jobs, n);
    JobsAreJobs(cfg, jobs);
    var c := jobs[i].component;
    assert f.dir == [c] by { hide *; DirOfJob(cio, jobs[i], f); }
    var e := ContentsEntry(io, cio, jobs, i, f, a);
    TriedLength(cfg, trees, ios);
    assert PassedThrough(cfg, io, cio, c, a, trees[k], trees[k + 1]) by {
      PublicationPasses(cfg, io, cio, trees[k], generated, trees[k + 1], c, a);
    }
    var parts := ContentsAreLogged(cfg, trees, ios, cios, c, a);
    NamesApartIsWellNamed(cfg);
    assert NoDup(cfg.components) by { NamesAreDistinct(cfg); }
    WholeBatchSize(cfg, io, cio, c, a);
    OnlyLast(parts);
    ContentsFetchableWhileFewWrites(cfg, trees, ios, cios, c, a, parts, k, e);
  }

  lemma PublicationPasses(cfg: Config, io: Inputs, cio: ContentsInputs, before: Tree, generated: Tree, after: Tree, c: string, a: Algorithm)
    requires Published(cfg, io, before, generated) && HasClock(before) && Spliced(cfg, io, cio, generated, after)
    requires cfg.acquireByHash && a in cfg.algorithms
    ensures PassedThrough(cfg, io, cio, c, a, before, after)
  {
    hide DirOf, AllJobs, ContentsByHash, ContentsFiles, IsIndex, InComponentByHash, Published, HasClock, JobsAvailable;
    GenerationKeepsComponentDirs(cfg, io, before, generated, c, a);
  }

  lemma DirOfJob(cio: ContentsInputs, j: Job, f: IndexFile)
    requires f in FilesOfJob(cio, j)
    ensures f.dir == [j.component]
  {
  }

  /** Whatever the attempts before have left behind: after one that succeeded, every entry of
      Release can be fetched by each of its hashes, when the number of compressions and
      the Contents files that one publication writes into a directory each fit into the
      keep count. */
  lemma LatestReleaseFetchable(cfg: Config, trees: seq<Tree>, ios: seq<Inputs>, cios: seq<ContentsInputs>, generated: Tree)
    requires LastSucceeded(cfg, trees, ios, cios, generated) && cfg.algorithms != []
    requires |cfg.compressions| <= Keep(cfg) && ContentsPerRun(cfg) <= Keep(cfg)
    ensures forall f :: f in ListedFiles(trees[|ios|]) ==> EntryFetchable(cfg, trees[|ios|], ios[|ios| - 1].hash, f)
  {
    hide DirOf, NamesApart, Fetchable, AllJobs, ContentsFiles, ContentsPerRun, AllTargets, AllFiles, ListedFiles, Published, Spliced, HasClock,
         Tried, ContentsTried;
    assert |trees| == |ios| + 1 by { TriedLength(cfg, trees, ios); }
    assert |cios| == |ios| by { ContentsTriedLength(cfg, trees, ios, cios); }
    var k := |ios| - 1;
    var t, io, cio := trees[k + 1], ios[k], cios[k];
    ListedAreRecords(cfg, io, cio, trees[k], generated, t);
    var files, listed := PublishedFiles(cfg, io, cio), ListedFiles(t);
    forall f | f in listed ensures EntryFetchable(cfg, t, io.hash, f) {
      var n :| 0 <= n < |listed| && listed[n] == f;
      var file := files[n];
      forall a | a in cfg.algorithms ensures a in f.hashes && HasCopy(t, file.dir, io.hash, a, f.hashes[a]) {
        var indices := AllFiles(cfg, io, AllTargets(cfg, io));
        if n < |indices| {
          IndexFetchable(cfg, trees, ios, cios, generated, n, a);
        } else {
          ContentsFetchable(cfg, trees, ios, cios, generated, n - |indices|, a);
        }
        assert Fetchable(t, ByHashDir(file.dir, a), io.hash, a, file.bytes);
        AsListed(t, file.dir, io.hash, a, file.bytes);
      }
      EntryOf(cfg, t, io.hash, f, io, cio, n);
    }
  }

  /** The path of an entry, name by name. */
  lemma EntryOf(cfg: Config, t: Tree, hash: (Algorithm, Bytes) -> string, f: HashedFile, io: Inputs, cio: ContentsInputs, n: nat)
    requires NamesApart(cfg) && n < |PublishedFiles(cfg, io, cio)|
    requires f.path == Render(PublishedFiles(cfg, io, cio)[n].Path()) && AllHashes(cfg, t, PublishedFiles(cfg, io, cio)[n].dir, hash, f)
    ensures EntryFetchable(cfg, t, hash, f)
  {
    hide NamesApart, AllTargets, AllFiles, AllJobs, ContentsFiles, AllHashes, WellNamed, IsPublished, NoSlashes;
    var file := PublishedFiles(cfg, io, cio)[n];
    PublishedFilesArePublished(cfg, io, cio);
    NamesApartIsWellNamed(cfg);
    PublishedNoSlashes(cfg, file.Path());
    var ts := AllTargets(cfg, io);
    if n < |AllFiles(cfg, io, ts)| {
      PrefixDirs(cfg, io, ts);
      FileDirs(cfg, io, ts);
      var c, d := file.dir[0], file.dir[1];
      assert file.dir == [c, d] && file.Path() == [c, d, file.name];
      NoSlashIn(file.Path(), 0);
      NoSlashIn(file.Path(), 1);
      NoSlashIn(file.Path(), 2);
      RenderThree(c, d, file.name);
      assert IndexEntryFetchable(cfg, t, hash, f);
    } else {
      ContentsPathsAreShort(cio, AllJobs(cfg));
      var c := file.dir[0];
      assert |file.Path()| == 2;
      assert file.dir == [c] && file.Path() == [c, file.name];
      NoSlashIn(file.Path(), 0);
      NoSlashIn(file.Path(), 1);
      RenderTwo(c, file.name);
      assert ContentsEntryFetchable(cfg, t, hash, f);
    }
  }

  lemma NoSlashIn(p: Path, i: nat)
    requires NoSlashes(p) && i < |p|
    ensures '/' !in p[i]
  {
  }

  lemma ContentsTriedLength(cfg: Config, trees: seq<Tree>, ios: seq<Inputs>, cios: seq<ContentsInputs>)
    requires ContentsTried(cfg, trees, ios, cios)
    ensures |cios| == |ios|
  {
  }

  // ----- A series of publications is a sequence of attempts

  function TreesOf(start: Tree, runs: seq<Publication>): seq<Tree> {
    [start] + seq(|runs|, k requires 0 <= k < |runs| => runs[k].finished)
  }

  function InputsOf(runs: seq<Publication>): seq<Inputs> {
    seq(|runs|, k requires 0 <= k < |runs| => runs[k].io)
  }

  function ContentsOf(runs: seq<Publication>): seq<ContentsInputs> {
    seq(|runs|, k requires 0 <= k < |runs| => runs[k].cio)
  }

  lemma PublishedIsAttempted(cfg: Config, io: Inputs, cio: ContentsInputs, before: Tree, generated: Tree, after: Tree)
    requires Published(cfg, io, before, generated) && HasClock(generated) && Spliced(cfg, io, cio, generated, after) && cfg.acquireByHash
    ensures AsyncRepository.TargetsAttempted(cfg, io, AllTargets(cfg, io), before, after)
  {
    hide DirOf, AllTargets, AllFiles, HasClock, Spliced, InAnyByHash, IsIndex, TargetAttempted, FilesOf, IndicesInPlace;
    var ts := AllTargets(cfg, io);
    forall i | 0 <= i < |ts| ensures TargetAttempted(cfg, io, ts[i], before, after) {
      assert TargetAttempted(cfg, io, ts[i], before, generated) by { TargetUpdated(cfg, io, ts[i], before, generated); }
      TargetDirLength(cfg, io, i);
      forall a ensures DirOf(generated, ByHashDir(ts[i].dir, a)) == DirOf(after, ByHashDir(ts[i].dir, a)) {
        SpliceKeepsIndexDirs(cfg, io, cio, generated, after, ts[i].dir, a);
      }
      SameAsItself(ts[i].dir, before);
      TargetAttemptedBetween(cfg, io, ts[i], before, before, generated, after);
    }
  }

  lemma TargetUpdated(cfg: Config, io: Inputs, t: Target, before: Tree, after: Tree)
    requires cfg.acquireByHash && Available(cfg, io, t) && DirsAfter(cfg, io, t.dir, FilesOf(cfg, io, t), before, after)
    ensures TargetAttempted(cfg, io, t, before, after)
  {
    hide DirOf, FilesOf, Available;
    UpdatedIsAttempted(cfg, io, t.dir, FilesOf(cfg, io, t), before, after);
  }

  lemma SplicedIsAttempted(cfg: Config, io: Inputs, cio: ContentsInputs, before: Tree, generated: Tree, after: Tree)
    requires Published(cfg, io, before, generated) && HasClock(before) && Spliced(cfg, io, cio, generated, after) && cfg.acquireByHash
    ensures ContentsAttempted(cfg, io, cio, AllJobs(cfg), before, after)
  {
    hide DirOf, AllJobs, ContentsFiles, IsIndex, InComponentByHash, Published, HasClock, JobsAvailable, ContentsDirs;
    forall c: string ensures SameDirs([c], before, generated) {
      forall a ensures DirOf(before, ByHashDir([c], a)) == DirOf(generated, ByHashDir([c], a)) {
        GenerationKeepsComponentDirs(cfg, io, before, generated, c, a);
      }
    }
    AllJobsDone(cfg, io, cio, AllJobs(cfg), generated, after);
    hide ContentsUpTo;
    PassFromStart(cfg, io, cio, before, generated, after);
  }

  lemma OneOfSeries(cfg: Config, start: Tree, runs: seq<Publication>, k: nat)
    requires Series(cfg, start, runs) && cfg.acquireByHash && k < |runs|
    ensures
      var trees := TreesOf(start, runs);
      && HasClock(trees[k]) && HasClock(trees[k + 1])
      && AsyncRepository.TargetsAttempted(cfg, runs[k].io, AllTargets(cfg, runs[k].io), trees[k], trees[k + 1])
      && ContentsAttempted(cfg, runs[k].io, runs[k].cio, AllJobs(cfg), trees[k], trees[k + 1])
  {
    hide AsyncRepository.TargetsAttempted, ContentsAttempted, Published, Spliced, HasClock, AllTargets, AllJobs;
    var trees := TreesOf(start, runs);
    assert Follows(cfg, TreeBefore(start, runs, k), runs[k]) && TreeBefore(start, runs, k) == trees[k];
    if k > 0 { assert Follows(cfg, TreeBefore(start, runs, k - 1), runs[k - 1]); }
    PublishedIsAttempted(cfg, runs[k].io, runs[k].cio, trees[k], runs[k].generated, trees[k + 1]);
    SplicedIsAttempted(cfg, runs[k].io, runs[k].cio, trees[k], runs[k].generated, trees[k + 1]);
  }

  lemma SeriesIsTried(cfg: Config, start: Tree, runs: seq<Publication>)
    requires Series(cfg, start, runs) && cfg.acquireByHash
    ensures Tried(cfg, TreesOf(start, runs), InputsOf(runs))
    ensures ContentsTried(cfg, TreesOf(start, runs), InputsOf(runs), ContentsOf(runs))
  {
    hide AsyncRepository.TargetsAttempted, ContentsAttempted, Published, Spliced, HasClock, AllTargets, AllJobs;
    var trees, ios, cios := TreesOf(start, runs), InputsOf(runs), ContentsOf(runs);
    forall k | 0 <= k < |trees| ensures HasClock(trees[k]) {
      if k > 0 { OneOfSeries(cfg, start, runs, k - 1); }
    }
    forall k | 0 <= k < |ios| ensures AsyncRepository.TargetsAttempted(cfg, ios[k], AllTargets(cfg, ios[k]), trees[k], trees[k + 1]) {
      OneOfSeries(cfg, start, runs, k);
    }
    forall k | 0 <= k < |ios| ensures ContentsAttempted(cfg, ios[k], cios[k], AllJobs(cfg), trees[k], trees[k + 1]) {
      OneOfSeries(cfg, start, runs, k);
    }
  }

  lemma LastOfSeries(cfg: Config, start: Tree, runs: seq<Publication>)
    requires Series(cfg, start, runs) && runs != []
    ensures
      var run, trees := runs[|runs| - 1], TreesOf(start, runs);
      && Published(cfg, run.io, trees[|runs| - 1], run.generated) && HasClock(run.generated)
      && Spliced(cfg, run.io, run.cio, run.generated, trees[|runs|]) && trees[|runs|] == Last(start, runs)
  {
    hide Published, Spliced, HasClock;
    var n := |runs| - 1;
    assert Follows(cfg, TreeBefore(start, runs, n), runs[n]) && TreeBefore(start, runs, n) == TreesOf(start, runs)[n];
  }

  /** So it holds after any series of publications. */
  lemma CurrentReleaseFetchable(cfg: Config, start: Tree, runs: seq<Publication>)
    requires NamesApart(cfg) && cfg.acquireByHash && cfg.byHashKeep.Some? && cfg.algorithms != []
    requires Series(cfg, start, runs) && runs != [] && NoByHash(cfg, start)
    requires |cfg.compressions| <= Keep(cfg) && ContentsPerRun(cfg) <= Keep(cfg)
    ensures forall f :: f in ListedFiles(Last(start, runs)) ==> EntryFetchable(cfg, Last(start, runs), runs[|runs| - 1].io.hash, f)
  {
    hide DirOf, NamesApart, ContentsPerRun, ListedFiles, Published, Spliced, HasClock, Tried, ContentsTried, Series, EntryFetchable, NoByHash;
    var n := |runs| - 1;
    var trees := TreesOf(start, runs);
    SeriesIsTried(cfg, start, runs);
    LastOfSeries(cfg, start, runs);
    LatestReleaseFetchable(cfg, trees, InputsOf(runs), ContentsOf(runs), runs[n].generated);
  }

  lemma AsListed(t: Tree, dir: Path, hash: (Algorithm, Bytes) -> string, a: Algorithm, bytes: Bytes)
    requires Fetchable(t, ByHashDir(dir, a), hash, a, bytes)
    ensures HasCopy(t, dir, hash, a, hash(a, bytes))
  {
    PathOfCopy(dir, a, hash(a, bytes));
  }
}
