/** How long files stay fetchable by hash, over whole series of generations. */
module Retention {
  import opened Common
  import opened Filesystem
  import opened Attempts
  import opened ByHash
  import opened ByHashDirectory
  import opened Indices
  import opened ByHashUpdate
  import opened Contents
  import opened ContentsGenerator
  import opened R = Release
  import opened TargetLoop
  import AsyncRepository

  // ----- Series of batches of equal size

  ghost predicate AllOfSize(batches: seq<seq<Entry>>, w: nat) {
    forall k :: 0 <= k < |batches| ==> |batches[k]| == w
  }

  lemma {:induction false} ConcatAt(batches: seq<seq<Entry>>, w: nat, k: nat, i: nat) returns (p: nat)
    requires AllOfSize(batches, w) && k < |batches| && i < w
    ensures p < |Concat(batches)| && Concat(batches)[p] == batches[k][i]
    ensures p + w * (|batches| - k) == |Concat(batches)| + i
    decreases |batches|
  {
    var n := |batches| - 1;
    var before, last := batches[..n], batches[n];
    assert Concat(batches) == Concat(before) + last;
    OneMore(w, n - k);
    if k < n {
      hide Concat;
      p := ConcatAt(before, w, k, i);
    } else {
      p := |Concat(before)| + i;
    }
  }

  lemma OneMore(w: nat, n: nat)
    ensures w * (n + 1) == w * n + w
  {
  }

  /** The batches that are at most `keep` writes old are all there. */
  lemma BatchKept(batches: seq<seq<Entry>>, w: nat, keep: nat, s: seq<Entry>, k: nat, i: nat)
    requires AllOfSize(batches, w) && MostRecent(Concat(batches), keep, s)
    requires k < |batches| && i < w && w * (|batches| - k) <= keep
    ensures Listed(s, batches[k][i].name)
  {
    hide MostRecent;
    var p := ConcatAt(batches, w, k, i);
    var _ := ConcatAt(batches, w, k, 0);
    RecentWritesKept(Concat(batches), keep, s, w * (|batches| - k), p);
    var last := Concat(batches)[LastWrite(Concat(batches), batches[k][i].name)];
    var j :| 0 <= j < |s| && s[j] == last;
    assert s[j].name == batches[k][i].name;
  }

  /** And no bound is better: when no name is written twice, the first file of a batch
      that is older than that is gone. */
  lemma BatchLost(batches: seq<seq<Entry>>, w: nat, keep: nat, s: seq<Entry>, k: nat)
    requires AllOfSize(batches, w) && MostRecent(Concat(batches), keep, s) && DistinctNames(Concat(batches))
    requires k < |batches| && 0 < w && keep < w * (|batches| - k)
    ensures !Listed(s, batches[k][0].name)
  {
    hide MostRecent, Concat, Listed, DistinctNames, AllOfSize;
    var p := ConcatAt(batches, w, k, 0);
    OlderWritesGone(Concat(batches), keep, s, w * (|batches| - k));
  }

  // ----- Index directories

  lemma {:induction false} ArchDirsAgree(cfg: Config, io: Inputs, io': Inputs, c: string, n: nat)
    requires n <= |cfg.architectures|
    ensures |ArchTargets(cfg, io, c, n)| == |ArchTargets(cfg, io', c, n)|
    ensures forall i :: 0 <= i < |ArchTargets(cfg, io, c, n)| ==> ArchTargets(cfg, io, c, n)[i].dir == ArchTargets(cfg, io', c, n)[i].dir
  {
    if n > 0 { ArchDirsAgree(cfg, io, io', c, n - 1); }
  }

  lemma {:induction false} TargetDirsAgree(cfg: Config, io: Inputs, io': Inputs, n: nat)
    requires n <= |cfg.components|
    ensures |Targets(cfg, io, n)| == |Targets(cfg, io', n)|
    ensures forall i :: 0 <= i < |Targets(cfg, io, n)| ==> Targets(cfg, io, n)[i].dir == Targets(cfg, io', n)[i].dir
  {
    if n > 0 {
      TargetDirsAgree(cfg, io, io', n - 1);
      ArchDirsAgree(cfg, io, io', cfg.components[n - 1], |cfg.architectures|);
    }
  }

  /** One publication: a generation, then the Contents pass. */
  datatype Publication = Publication(io: Inputs, cio: ContentsInputs, generated: Tree, finished: Tree)

  /** `runs` are successive publications of one configuration, the first from `start`. */
  ghost predicate Series(cfg: Config, start: Tree, runs: seq<Publication>) {
    HasClock(start) && forall k :: 0 <= k < |runs| ==> Follows(cfg, TreeBefore(start, runs, k), runs[k])
  }

  function TreeBefore(start: Tree, runs: seq<Publication>, k: nat): Tree
    requires k < |runs|
  {
    if k == 0 then start else runs[k - 1].finished
  }

  ghost predicate Follows(cfg: Config, before: Tree, run: Publication) {
    && Published(cfg, run.io, before, run.generated) && HasClock(run.generated)
    && Spliced(cfg, run.io, run.cio, run.generated, run.finished) && HasClock(run.finished)
  }

  function Last(start: Tree, runs: seq<Publication>): Tree {
    if runs == [] then start else runs[|runs| - 1].finished
  }

  lemma SeriesEnds(cfg: Config, start: Tree, runs: seq<Publication>)
    requires Series(cfg, start, runs)
    ensures HasClock(Last(start, runs))
    ensures runs != [] ==>
      var n := |runs| - 1;
      Series(cfg, start, runs[..n]) && HasClock(Last(start, runs[..n])) && Follows(cfg, Last(start, runs[..n]), runs[n])
  {
    hide Published, Spliced, HasClock;
    if runs != [] {
      var n := |runs| - 1;
      assert Follows(cfg, TreeBefore(start, runs, n), runs[n]);
      if n > 0 { assert Follows(cfg, TreeBefore(start, runs, n - 1), runs[n - 1]); }
      forall k | 0 <= k < n ensures Follows(cfg, TreeBefore(start, runs[..n], k), runs[..n][k]) {
        assert Follows(cfg, TreeBefore(start, runs, k), runs[k]);
      }
    }
  }

  lemma SeriesExtends(cfg: Config, start: Tree, runs: seq<Publication>, run: Publication)
    requires Series(cfg, start, runs) && Follows(cfg, Last(start, runs), run)
    ensures Series(cfg, start, runs + [run])
  {
    hide Follows, HasClock;
    var more, n := runs + [run], |runs|;
    forall k | 0 <= k < |more| ensures Follows(cfg, TreeBefore(start, more, k), more[k]) {
      if k < n {
        assert TreeBefore(start, more, k) == TreeBefore(start, runs, k) && more[k] == runs[k];
      } else {
        assert TreeBefore(start, more, n) == Last(start, runs);
      }
    }
  }

  /** The Contents pass leaves the by-hash directories of the indices alone. */
  lemma SpliceKeepsIndexDirs(cfg: Config, io: Inputs, cio: ContentsInputs, before: Tree, after: Tree, dir: Path, a: Algorithm)
    requires Spliced(cfg, io, cio, before, after) && HasClock(before) && |dir| == 2
    ensures DirOf(after, ByHashDir(dir, a)) == DirOf(before, ByHashDir(dir, a))
  {
    hide DirOf, Stamped, ContentsFiles, AllJobs, ContentsDirs, JobsAvailable;
    var clock :| Stamped(before, clock);
    ContentsPathsAreShort(cio, AllJobs(cfg));
    forall p: Path | |p| == |dir| + 3 ensures SameAt(after, before, p) {
      assert |RELEASE| == 1;
      assert !InComponentByHash(cfg, p);
      assert !IsIndex(ContentsFiles(cio, AllJobs(cfg)), |ContentsFiles(cio, AllJobs(cfg))|, p);
    }
    SameFilesSameDirs(dir, before, after, clock);
  }

  /** Generation leaves the by-hash directories of the components alone. */
  lemma GenerationKeepsComponentDirs(cfg: Config, io: Inputs, before: Tree, after: Tree, c: string, a: Algorithm)
    requires Published(cfg, io, before, after) && HasClock(before)
    ensures DirOf(after, ByHashDir([c], a)) == DirOf(before, ByHashDir([c], a))
  {
    hide DirOf, Stamped, AllFiles, AllTargets, ByHashUpdated, AllAvailable;
    var clock :| Stamped(before, clock);
    var ts := AllTargets(cfg, io);
    PrefixDirs(cfg, io, ts);
    FileDirs(cfg, io, ts);
    forall p: Path | |p| == |[c]| + 3 ensures SameAt(after, before, p) {
      assert |RELEASE| == 1;
      if InAnyByHash(cfg, ts, p) { ByHashPathsAreLong(cfg, ts, p); assert false; }
      assert !IsIndex(AllFiles(cfg, io, ts), |AllFiles(cfg, io, ts)|, p);
    }
    SameFilesSameDirs([c], before, after, clock);
  }

  /** What generation `io` copies into the by-hash directory of its target `i`. */
  function IndexBatch(cfg: Config, io: Inputs, i: nat, a: Algorithm): seq<Entry> {
    if i < |AllTargets(cfg, io)| then ByHashEntries(io, FilesOf(cfg, io, AllTargets(cfg, io)[i]), a) else []
  }

  /** The bytes of its file in compression format `c`. */
  function IndexBytes(cfg: Config, io: Inputs, i: nat, c: nat): Bytes
    requires i < |AllTargets(cfg, io)| && c < |cfg.compressions|
  {
    FilesOf(cfg, io, AllTargets(cfg, io)[i])[c].bytes
  }

  function IndexBatches(cfg: Config, runs: seq<Publication>, i: nat, a: Algorithm): seq<seq<Entry>> {
    seq(|runs|, k requires 0 <= k < |runs| => IndexBatch(cfg, runs[k].io, i, a))
  }

  function IndexDir(cfg: Config, io: Inputs, i: nat, a: Algorithm): Path
    requires i < |AllTargets(cfg, io)|
  {
    ByHashDir(AllTargets(cfg, io)[i].dir, a)
  }

  /** A generation that publishes gets through every directory of its indices ... */
  lemma LastGeneration(cfg: Config, last: Inputs, before: Tree, after: Tree, io: Inputs, i: nat, a: Algorithm)
    requires Published(cfg, last, before, after) && cfg.acquireByHash && cfg.byHashKeep.Some?
    requires i < |AllTargets(cfg, io)| && a in cfg.algorithms
    ensures GotThrough(cfg, before, after, IndexDir(cfg, io, i, a), IndexBatch(cfg, last, i, a))
  {
    hide GotThrough, AllTargets, AllFiles, ByHashUpdated, IndexDir, IndexBatch;
    UpdatedGetsThrough(cfg, last, before, after, io, i, a);
  }

  lemma UpdatedGetsThrough(cfg: Config, last: Inputs, before: Tree, after: Tree, io: Inputs, i: nat, a: Algorithm)
    requires ByHashUpdated(cfg, last, AllTargets(cfg, last), before, after) && cfg.byHashKeep.Some?
    requires i < |AllTargets(cfg, io)| && a in cfg.algorithms
    ensures GotThrough(cfg, before, after, IndexDir(cfg, io, i, a), IndexBatch(cfg, last, i, a))
  {
    hide DirOf, TouchAll, FilesOf, AllFiles, ByHashEntries, InAnyByHash;
    TargetDirsAgree(cfg, io, last, |cfg.components|);
  }

  /** ... and so does one that fails later than in staging, though it is not published. */
  lemma StagedGetsThrough(cfg: Config, last: Inputs, before: Tree, after: Tree, reached: AsyncRepository.Stage, io: Inputs, i: nat, a: Algorithm)
    requires AsyncRepository.Outcome(cfg, last, before, after, reached) && !reached.Staging?
    requires cfg.acquireByHash && cfg.byHashKeep.Some? && i < |AllTargets(cfg, io)| && a in cfg.algorithms
    ensures GotThrough(cfg, before, after, IndexDir(cfg, io, i, a), IndexBatch(cfg, last, i, a))
  {
    hide GotThrough, AllTargets, ByHashUpdated, AllAvailable, IndexDir, IndexBatch, AsyncRepository.Outcome;
    AsyncRepository.PastStaging(cfg, last, before, after, reached);
    UpdatedGetsThrough(cfg, last, before, after, io, i, a);
  }

  lemma TargetDirLength(cfg: Config, io: Inputs, i: nat)
    requires i < |AllTargets(cfg, io)|
    ensures |AllTargets(cfg, io)[i].dir| == 2
  {
    PrefixDirs(cfg, io, AllTargets(cfg, io));
  }

  lemma {:induction false} SeriesRuns(cfg: Config, start: Tree, runs: seq<Publication>, io: Inputs, i: nat, a: Algorithm)
    returns (events: seq<Event>)
    requires Series(cfg, start, runs) && cfg.acquireByHash && cfg.byHashKeep.Some?
    requires i < |AllTargets(cfg, io)| && a in cfg.algorithms
    requires DirOf(start, IndexDir(cfg, io, i, a)) == []
    ensures DirOf(Last(start, runs), IndexDir(cfg, io, i, a)) == Run([], events, Keep(cfg))
    ensures Writes(events) == Concat(IndexBatches(cfg, runs, i, a))
    ensures runs != [] ==> MostRecent(Writes(events), Keep(cfg), Run([], events, Keep(cfg)))
    decreases |runs|
  {
    hide DirOf, AllTargets, MostRecent, FilesOf, ByHashEntries, Series, Published, Spliced, HasClock;
    if runs == [] {
      events := [];
    } else {
      var n := |runs| - 1;
      SeriesEnds(cfg, start, runs);
      events := SeriesRuns(cfg, start, runs[..n], io, i, a);
      var batch := IndexBatch(cfg, runs[n].io, i, a);
      assert IndexBatches(cfg, runs, i, a)[..n] == IndexBatches(cfg, runs[..n], i, a);
      LastGeneration(cfg, runs[n].io, Last(start, runs[..n]), runs[n].generated, io, i, a);
      TargetDirLength(cfg, io, i);
      SpliceKeepsIndexDirs(cfg, runs[n].io, runs[n].cio, runs[n].generated, runs[n].finished, AllTargets(cfg, io)[i].dir, a);
      GenerationRuns(events, batch, Keep(cfg));
      events := events + WriteAll(batch) + [Prune];
    }
  }

  /** Over any series of publications that starts with an empty by-hash directory, the
      directory of an index holds exactly the most recently written files. */
  lemma IndexDirectoryIsMostRecent(cfg: Config, start: Tree, runs: seq<Publication>, io: Inputs, i: nat, a: Algorithm)
    requires Series(cfg, start, runs) && runs != [] && cfg.acquireByHash && cfg.byHashKeep.Some?
    requires i < |AllTargets(cfg, io)| && a in cfg.algorithms
    requires DirOf(start, IndexDir(cfg, io, i, a)) == []
    ensures MostRecent(Concat(IndexBatches(cfg, runs, i, a)), Keep(cfg), DirOf(Last(start, runs), IndexDir(cfg, io, i, a)))
  {
    hide DirOf, MostRecent, AllTargets, Series;
    var _ := SeriesRuns(cfg, start, runs, io, i, a);
  }

  // ----- With failed attempts in between

  /** Attempts at publications, whatever came of each: `trees[k + 1]` is what attempt `k`
      left of `trees[k]`. */
  ghost predicate Tried(cfg: Config, trees: seq<Tree>, ios: seq<Inputs>) {
    && |trees| == |ios| + 1
    && (forall k :: 0 <= k < |trees| ==> HasClock(trees[k]))
    && forall k :: 0 <= k < |ios| ==>
        AsyncRepository.TargetsAttempted(cfg, ios[k], AllTargets(cfg, ios[k]), trees[k], trees[k + 1])
  }

  ghost function DirOver(trees: seq<Tree>, dir: Path): seq<seq<Entry>> {
    seq(|trees|, k requires 0 <= k < |trees| => DirOf(trees[k], dir))
  }

  function AttemptBatches(cfg: Config, ios: seq<Inputs>, i: nat, a: Algorithm): seq<seq<Entry>> {
    seq(|ios|, k requires 0 <= k < |ios| => IndexBatch(cfg, ios[k], i, a))
  }

  /** What each attempt wrote into the by-hash directory of target `i`. */
  ghost predicate RecordedFor(cfg: Config, trees: seq<Tree>, ios: seq<Inputs>, io: Inputs, i: nat, a: Algorithm, parts: seq<seq<Entry>>)
    requires i < |AllTargets(cfg, io)|
  {
    Recorded(DirOver(trees, IndexDir(cfg, io, i, a)), AttemptBatches(cfg, ios, i, a), parts, cfg.byHashKeep)
  }

  /** The attempt got through the directory: everything copied, and pruned. */
  ghost predicate GotThrough(cfg: Config, before: Tree, after: Tree, dir: Path, batch: seq<Entry>) {
    DirOf(after, dir) == Newest(TouchAll(DirOf(before, dir), batch), Keep(cfg))
  }

  lemma StepRecorded(cfg: Config, last: Inputs, before: Tree, after: Tree, io: Inputs, i: nat, a: Algorithm) returns (part: seq<Entry>)
    requires AsyncRepository.TargetsAttempted(cfg, last, AllTargets(cfg, last), before, after) && cfg.byHashKeep.Some?
    requires i < |AllTargets(cfg, io)| && a in cfg.algorithms
    ensures
      var d, batch := IndexDir(cfg, io, i, a), IndexBatch(cfg, last, i, a);
      && AttemptedWith(DirOf(before, d), DirOf(after, d), batch, cfg.byHashKeep, part)
      && (GotThrough(cfg, before, after, d, batch) ==> part == batch)
  {
    hide DirOf, TouchAll, FilesOf, ByHashEntries, Available;
    TargetDirsAgree(cfg, io, last, |cfg.components|);
    var d, batch := IndexDir(cfg, io, i, a), IndexBatch(cfg, last, i, a);
    var s, t, target := DirOf(before, d), DirOf(after, d), AllTargets(cfg, last)[i];
    assert TargetAttempted(cfg, last, target, before, after) && target.dir == AllTargets(cfg, io)[i].dir;
    if GotThrough(cfg, before, after, d, batch) {
      part := batch;
      PrunedOrNot(TouchAll(s, batch), Keep(cfg));
    } else if cfg.acquireByHash && Available(cfg, last, target) {
      part :| AttemptedWith(s, t, batch, cfg.byHashKeep, part);
    } else {
      part := [];
      assert TouchAll(s, []) == s by { hide *; TouchNothing(s); }
    }
  }

  lemma TouchNothing(s: seq<Entry>)
    ensures TouchAll(s, []) == s
  {
  }

  /** There is a record of any attempts, in which those that got through the directory
      have written all of their batch. */
  lemma {:induction false} AttemptsAreRecorded(cfg: Config, trees: seq<Tree>, ios: seq<Inputs>, io: Inputs, i: nat, a: Algorithm)
    returns (parts: seq<seq<Entry>>)
    requires Tried(cfg, trees, ios) && cfg.byHashKeep.Some?
    requires i < |AllTargets(cfg, io)| && a in cfg.algorithms
    ensures RecordedFor(cfg, trees, ios, io, i, a, parts)
    ensures forall k :: 0 <= k < |ios| && GotThrough(cfg, trees[k], trees[k + 1], IndexDir(cfg, io, i, a), IndexBatch(cfg, ios[k], i, a)) ==>
      parts[k] == IndexBatch(cfg, ios[k], i, a)
    decreases |ios|
  {
    hide DirOf, AllTargets, AttemptedWith, IndexBatch, HasClock, GotThrough, AsyncRepository.TargetsAttempted;
    if ios == [] {
      parts := [];
    } else {
      var n := |ios| - 1;
      var before := AttemptsAreRecorded(cfg, trees[..n + 1], ios[..n], io, i, a);
      var last := StepRecorded(cfg, ios[n], trees[n], trees[n + 1], io, i, a);
      parts := before + [last];
      var d := IndexDir(cfg, io, i, a);
      var lists, batches := DirOver(trees, d), AttemptBatches(cfg, ios, i, a);
      forall k | 0 <= k < |parts| ensures AttemptedWith(lists[k], lists[k + 1], batches[k], cfg.byHashKeep, parts[k]) {
        if k < n {
          assert lists[k] == DirOver(trees[..n + 1], d)[k] && lists[k + 1] == DirOver(trees[..n + 1], d)[k + 1];
          assert batches[k] == AttemptBatches(cfg, ios[..n], i, a)[k];
        }
      }
    }
  }

  /** With failed attempts, wherever they failed, the history has what each of them had
      copied by then. No file that is among the most recently written ones is missing,
      and only these are there when the last attempt has got through the directory. */
  lemma SurvivesFailures(cfg: Config, trees: seq<Tree>, ios: seq<Inputs>, io: Inputs, i: nat, a: Algorithm, parts: seq<seq<Entry>>)
    requires Tried(cfg, trees, ios) && cfg.byHashKeep.Some?
    requires i < |AllTargets(cfg, io)| && a in cfg.algorithms && RecordedFor(cfg, trees, ios, io, i, a, parts)
    requires DirOf(trees[0], IndexDir(cfg, io, i, a)) == []
    ensures Tracks(Concat(parts), Keep(cfg), DirOf(trees[|ios|], IndexDir(cfg, io, i, a)))
    ensures ios != [] && GotThrough(cfg, trees[|ios| - 1], trees[|ios|], IndexDir(cfg, io, i, a), parts[|ios| - 1]) ==>
      MostRecent(Concat(parts), Keep(cfg), DirOf(trees[|ios|], IndexDir(cfg, io, i, a)))
  {
    hide DirOf, AllTargets, AttemptedWith, Tracks, MostRecent, IndexBatch, HasClock, AsyncRepository.TargetsAttempted;
    RecordTracks(DirOver(trees, IndexDir(cfg, io, i, a)), AttemptBatches(cfg, ios, i, a), parts, Keep(cfg));
  }

  /** The last thing written under `name` has that hash. */
  ghost predicate Intact(history: seq<Entry>, name: string, hash: (Algorithm, Bytes) -> string, a: Algorithm)
    requires LastWrite(history, name) >= 0
  {
    IsGood(history[LastWrite(history, name)], hash, a)
  }

  ghost predicate IsGood(e: Entry, hash: (Algorithm, Bytes) -> string, a: Algorithm) {
    e.content.Blob? && hash(a, e.content.bytes) == e.name
  }

  lemma FetchableInDir(t: Tree, dir: Path, history: seq<Entry>, hash: (Algorithm, Bytes) -> string, a: Algorithm, bytes: Bytes)
    requires HasClock(t) && Current(history, DirOf(t, dir)) && LastWrite(history, hash(a, bytes)) >= 0
    ensures Fetchable(t, dir, hash, a, bytes) <==> Listed(DirOf(t, dir), hash(a, bytes)) && Intact(history, hash(a, bytes), hash, a)
  {
    hide DirOf, Stamped;
    var clock :| Stamped(t, clock);
    DirExists(t, clock, dir);
    var s, name := DirOf(t, dir), hash(a, bytes);
    if Listed(s, name) {
      var j :| 0 <= j < |s| && s[j].name == name;
      assert t[Child(dir, s[j].name)].content == s[j].content == history[LastWrite(history, name)].content;
    }
  }

  /** When exactly a file that attempt `k` copied can still be fetched by its hash, `parts`
      being what all attempts wrote: at any time if not too many names have been written
      since, and its own last copy is not a broken one; and only then, when the last
      attempt has got through the directory. */
  lemma StillFetchable(cfg: Config, trees: seq<Tree>, ios: seq<Inputs>, i: nat, a: Algorithm, parts: seq<seq<Entry>>, k: nat, c: nat)
    requires Tried(cfg, trees, ios) && cfg.byHashKeep.Some? && k < |ios| && c < |cfg.compressions|
    requires i < |AllTargets(cfg, ios[k])| && a in cfg.algorithms && RecordedFor(cfg, trees, ios, ios[k], i, a, parts)
    requires DirOf(trees[0], IndexDir(cfg, ios[k], i, a)) == [] && parts[k] == IndexBatch(cfg, ios[k], i, a)
    ensures
      var bytes := IndexBytes(cfg, ios[k], i, c);
      var hash, history, d := ios[k].hash, Concat(parts), IndexDir(cfg, ios[k], i, a);
      var name := hash(a, bytes);
      && LastWrite(history, name) >= |Concat(parts[..k])|
      && (Age(history, name) <= Keep(cfg) && Intact(history, name, hash, a) ==> Fetchable(trees[|ios|], d, hash, a, bytes))
      && (GotThrough(cfg, trees[|ios| - 1], trees[|ios|], d, parts[|ios| - 1]) ==>
          (Fetchable(trees[|ios|], d, hash, a, bytes) <==> Age(history, name) <= Keep(cfg) && Intact(history, name, hash, a)))
  {
    hide DirOf, AllTargets, AttemptedWith, Tracks, MostRecent, IndexBatch, HasClock, Fetchable, IndexBytes, Intact, Age,
         LastWrite, GotThrough, AsyncRepository.TargetsAttempted;
    BatchEntry(cfg, ios[k], i, a, c);
    SurvivesFailures(cfg, trees, ios, ios[k], i, a, parts);
    FetchableIffYoung(trees[|ios|], IndexDir(cfg, ios[k], i, a), parts, k, c, Keep(cfg), ios[k].hash, a, IndexBytes(cfg, ios[k], i, c));
  }

  lemma FetchableIffYoung(t: Tree, dir: Path, parts: seq<seq<Entry>>, k: nat, c: nat, keep: nat,
                          hash: (Algorithm, Bytes) -> string, a: Algorithm, bytes: Bytes)
    requires HasClock(t) && Tracks(Concat(parts), keep, DirOf(t, dir))
    requires k < |parts| && c < |parts[k]| && parts[k][c].name == hash(a, bytes)
    ensures
      var history, name := Concat(parts), hash(a, bytes);
      && LastWrite(history, name) >= |Concat(parts[..k])|
      && (Age(history, name) <= keep && Intact(history, name, hash, a) ==> Fetchable(t, dir, hash, a, bytes))
      && (MostRecent(history, keep, DirOf(t, dir)) ==>
          (Fetchable(t, dir, hash, a, bytes) <==> Age(history, name) <= keep && Intact(history, name, hash, a)))
  {
    hide DirOf, Tracks, MostRecent, HasClock, Fetchable, Intact, Age, LastWrite, Concat;
    var history, name, s := Concat(parts), hash(a, bytes), DirOf(t, dir);
    WrittenAt(parts, k, c);
    assert Current(history, s) by { hide *; TracksIsCurrent(history, keep, s); }
    FetchableInDir(t, dir, history, hash, a, bytes);
    if Age(history, name) <= keep { ThereIfFits(history, keep, s, name); }
    if MostRecent(history, keep, s) { ThereIffFits(history, keep, s, name); }
  }

  lemma TracksIsCurrent(history: seq<Entry>, keep: nat, s: seq<Entry>)
    requires Tracks(history, keep, s)
    ensures Current(history, s)
  {
  }

  lemma WrittenAt(parts: seq<seq<Entry>>, k: nat, c: nat)
    requires k < |parts| && c < |parts[k]|
    ensures LastWrite(Concat(parts), parts[k][c].name) >= |Concat(parts[..k])|
  {
    var history, p := Concat(parts), |Concat(parts[..k])| + c;
    ConcatSplit(parts, k);
    ConcatFirst(parts[k..]);
    assert history[p] == parts[k][c];
    hide Concat;
    assert LastWrite(history, history[p].name) >= p;
  }

  /** In numbers: it can be fetched while the writes since the start of its attempt, those
      of failed attempts included, fit into the keep count, and none of the later
      attempts has left a broken copy under its name. */
  lemma FetchableWhileFewWrites(cfg: Config, trees: seq<Tree>, ios: seq<Inputs>, i: nat, a: Algorithm, parts: seq<seq<Entry>>, k: nat, c: nat)
    requires Tried(cfg, trees, ios) && cfg.byHashKeep.Some? && k < |ios| && c < |cfg.compressions|
    requires i < |AllTargets(cfg, ios[k])| && a in cfg.algorithms && RecordedFor(cfg, trees, ios, ios[k], i, a, parts)
    requires DirOf(trees[0], IndexDir(cfg, ios[k], i, a)) == [] && parts[k] == IndexBatch(cfg, ios[k], i, a)
    requires |parts| == |ios| && |Concat(parts[k..])| <= Keep(cfg)
    requires
      var name := ios[k].hash(a, IndexBytes(cfg, ios[k], i, c));
      forall e :: e in Concat(parts[k + 1..]) && e.name == name ==> IsGood(e, ios[k].hash, a)
    ensures Fetchable(trees[|ios|], IndexDir(cfg, ios[k], i, a), ios[k].hash, a, IndexBytes(cfg, ios[k], i, c))
  {
    hide DirOf, AllTargets, AttemptedWith, Tracks, MostRecent, IndexBatch, HasClock, Fetchable, IndexBytes, IsGood, Concat, GotThrough,
         AsyncRepository.TargetsAttempted;
    BatchEntry(cfg, ios[k], i, a, c);
    SurvivesFailures(cfg, trees, ios, ios[k], i, a, parts);
    forall e | e in parts[k] ensures IsGood(e, ios[k].hash, a) { BatchIsGood(cfg, ios[k], i, a, e); }
    FetchableWhileFew(trees[|ios|], IndexDir(cfg, ios[k], i, a), parts, k, c, Keep(cfg), ios[k].hash, a, IndexBytes(cfg, ios[k], i, c));
  }

  lemma FetchableWhileFew(t: Tree, dir: Path, parts: seq<seq<Entry>>, k: nat, c: nat, keep: nat,
                          hash: (Algorithm, Bytes) -> string, a: Algorithm, bytes: Bytes)
    requires HasClock(t) && Tracks(Concat(parts), keep, DirOf(t, dir))
    requires k < |parts| && c < |parts[k]| && parts[k][c].name == hash(a, bytes) && |Concat(parts[k..])| <= keep
    requires forall e :: e in parts[k] ==> IsGood(e, hash, a)
    requires forall e :: e in Concat(parts[k + 1..]) && e.name == hash(a, bytes) ==> IsGood(e, hash, a)
    ensures Fetchable(t, dir, hash, a, bytes)
  {
    hide DirOf, Tracks, MostRecent, HasClock, Fetchable, Age, LastWrite, Concat, IsGood;
    var history, name := Concat(parts), hash(a, bytes);
    FetchableIffYoung(t, dir, parts, k, c, keep, hash, a, bytes);
    ConcatSplit(parts, k);
    ConcatFirst(parts[k..]);
    assert parts[k..][1..] == parts[k + 1..];
    var p := LastWrite(history, name);
    AgeBound(history, name, |Concat(parts[..k])|);
    assert history[p] in parts[k] + Concat(parts[k + 1..]);
    assert history[p].name == name by { hide *; LastWriteName(history, name); }
  }

  lemma LastWriteName(history: seq<Entry>, name: string)
    requires LastWrite(history, name) >= 0
    ensures history[LastWrite(history, name)].name == name
  {
  }

  lemma RecordLength(cfg: Config, trees: seq<Tree>, ios: seq<Inputs>, io: Inputs, i: nat, a: Algorithm, parts: seq<seq<Entry>>)
    requires i < |AllTargets(cfg, io)| && RecordedFor(cfg, trees, ios, io, i, a, parts)
    ensures |parts| == |ios|
    ensures forall k :: 0 <= k < |parts| ==> |parts[k]| <= |IndexBatch(cfg, ios[k], i, a)|
  {
    hide DirOf, AllTargets, IndexBatch, TouchAll, PartlyPruned;
    forall k | 0 <= k < |parts| ensures |parts[k]| <= |IndexBatch(cfg, ios[k], i, a)| {
      assert AttemptedWith(DirOver(trees, IndexDir(cfg, io, i, a))[k], DirOver(trees, IndexDir(cfg, io, i, a))[k + 1],
                           AttemptBatches(cfg, ios, i, a)[k], cfg.byHashKeep, parts[k]);
    }
  }

  lemma BatchIsGood(cfg: Config, io: Inputs, i: nat, a: Algorithm, e: Entry)
    requires i < |AllTargets(cfg, io)| && e in IndexBatch(cfg, io, i, a)
    ensures IsGood(e, io.hash, a)
  {
    hide AllTargets, FilesOf;
  }

  /** With the archive's keep count that covers three later attempts, whatever becomes of
      them, unless one of them leaves a broken copy under the file's name. */
  lemma LastFourAttemptsFetchable(cfg: Config, trees: seq<Tree>, ios: seq<Inputs>, i: nat, a: Algorithm, parts: seq<seq<Entry>>, k: nat, c: nat)
    requires Tried(cfg, trees, ios) && cfg.byHashKeep == Some(ArchiveKeep(cfg.compressions)) && c < |cfg.compressions|
    requires k < |ios| && |ios| - k <= 4
    requires i < |AllTargets(cfg, ios[k])| && a in cfg.algorithms && RecordedFor(cfg, trees, ios, ios[k], i, a, parts)
    requires DirOf(trees[0], IndexDir(cfg, ios[k], i, a)) == [] && parts[k] == IndexBatch(cfg, ios[k], i, a)
    requires |parts| == |ios| &&
      var name := ios[k].hash(a, IndexBytes(cfg, ios[k], i, c));
      forall e :: e in Concat(parts[k + 1..]) && e.name == name ==> IsGood(e, ios[k].hash, a)
    ensures Fetchable(trees[|ios|], IndexDir(cfg, ios[k], i, a), ios[k].hash, a, IndexBytes(cfg, ios[k], i, c))
  {
    hide DirOf, Recorded, IndexDir, HasClock, Fetchable, IndexBytes, AllTargets, Concat, IsGood, AsyncRepository.TargetsAttempted, IndexBatch;
    var w := |cfg.compressions|;
    RecordLength(cfg, trees, ios, ios[k], i, a, parts);
    forall n | 0 <= n < |parts[k..]| ensures |parts[k..][n]| <= w {
      BatchSize(cfg, ios[k + n], ios[k], i, a);
    }
    ConcatSize(parts[k..], w);
    Scale(w, |ios| - k);
    FetchableWhileFewWrites(cfg, trees, ios, i, a, parts, k, c);
  }

  lemma BatchSize(cfg: Config, io: Inputs, other: Inputs, i: nat, a: Algorithm)
    requires i < |AllTargets(cfg, other)|
    ensures |IndexBatch(cfg, io, i, a)| == |cfg.compressions|
  {
    TargetDirsAgree(cfg, io, other, |cfg.components|);
  }

  /** The archive's keep count. */
  function ArchiveKeep(compressions: seq<Compression>): nat {
    4 * if |compressions| > 0 then |compressions| else 1
  }

  /** Every index file of the last `g` publications can be fetched by its hash, and what is
      fetched has that hash, when `g` times the number of compressions fits into the keep
      count. */
  lemma IndexFilesKept(cfg: Config, start: Tree, runs: seq<Publication>, hash: (Algorithm, Bytes) -> string,
                       i: nat, a: Algorithm, g: nat, k: nat, c: nat)
    requires Series(cfg, start, runs) && cfg.acquireByHash && cfg.byHashKeep.Some?
    requires forall n :: 0 <= n < |runs| ==> runs[n].io.hash == hash
    requires |cfg.compressions| * g <= Keep(cfg) && k < |runs| && |runs| - k <= g && c < |cfg.compressions|
    requires i < |AllTargets(cfg, runs[k].io)| && a in cfg.algorithms
    requires DirOf(start, IndexDir(cfg, runs[k].io, i, a)) == []
    ensures Fetchable(Last(start, runs), IndexDir(cfg, runs[k].io, i, a), hash, a, IndexBytes(cfg, runs[k].io, i, c))
  {
    hide DirOf, MostRecent, AllTargets, FilesOf, Stamped, Series, DistinctNames, Fetchable, HasClock;
    var io, t, w := runs[k].io, Last(start, runs), |cfg.compressions|;
    var d, batches := IndexDir(cfg, io, i, a), IndexBatches(cfg, runs, i, a);
    IndexDirectoryIsMostRecent(cfg, start, runs, io, i, a);
    BatchesHaveSize(cfg, runs, i, a, io);
    ScaleUp(w, |runs| - k, g);
    BatchKept(batches, w, Keep(cfg), DirOf(t, d), k, c);
    BatchEntry(cfg, io, i, a, c);
    HistoryHashes(cfg, runs, hash, i, a, io);
    SeriesEnds(cfg, start, runs);
    FetchableFrom(t, d, Concat(batches), Keep(cfg), hash, a, IndexBytes(cfg, io, i, c));
  }

  /** With the archive's keep count, these are the last four. */
  lemma LastFourPublicationsFetchable(cfg: Config, start: Tree, runs: seq<Publication>,
                                      hash: (Algorithm, Bytes) -> string, i: nat, a: Algorithm, k: nat, c: nat)
    requires Series(cfg, start, runs) && cfg.acquireByHash && cfg.byHashKeep == Some(ArchiveKeep(cfg.compressions))
    requires forall n :: 0 <= n < |runs| ==> runs[n].io.hash == hash
    requires k < |runs| && |runs| - k <= 4 && c < |cfg.compressions|
    requires i < |AllTargets(cfg, runs[k].io)| && a in cfg.algorithms
    requires DirOf(start, IndexDir(cfg, runs[k].io, i, a)) == []
    ensures Fetchable(Last(start, runs), IndexDir(cfg, runs[k].io, i, a), hash, a, IndexBytes(cfg, runs[k].io, i, c))
  {
    hide DirOf, Series, Fetchable, AllTargets, IndexBytes, IndexDir;
    IndexFilesKept(cfg, start, runs, hash, i, a, 4, k, c);
  }

  /** And no more than those: when no two files have the same hash, the first file of the
      publication `g` from the end is gone, if `g` times the compressions do not fit. */
  lemma IndexFilesLost(cfg: Config, start: Tree, runs: seq<Publication>, i: nat, a: Algorithm, g: nat)
    requires Series(cfg, start, runs) && cfg.acquireByHash && cfg.byHashKeep.Some?
    requires 0 < g <= |runs| && Keep(cfg) < |cfg.compressions| * g
    requires i < |AllTargets(cfg, runs[|runs| - g].io)| && a in cfg.algorithms
    requires DirOf(start, IndexDir(cfg, runs[|runs| - g].io, i, a)) == []
    requires DistinctNames(Concat(IndexBatches(cfg, runs, i, a)))
    ensures
      var io := runs[|runs| - g].io;
      && cfg.compressions != []
      && Child(IndexDir(cfg, io, i, a), io.hash(a, IndexBytes(cfg, io, i, 0))) !in Last(start, runs)
  {
    hide DirOf, MostRecent, AllTargets, FilesOf, Stamped, Series, DistinctNames, HasClock;
    var k := |runs| - g;
    var io, t, w := runs[k].io, Last(start, runs), |cfg.compressions|;
    var d, batches := IndexDir(cfg, io, i, a), IndexBatches(cfg, runs, i, a);
    IndexDirectoryIsMostRecent(cfg, start, runs, io, i, a);
    BatchesHaveSize(cfg, runs, i, a, io);
    assert w > 0;
    BatchLost(batches, w, Keep(cfg), DirOf(t, d), k);
    BatchEntry(cfg, io, i, a, 0);
    SeriesEnds(cfg, start, runs);
    NotInTree(t, d, batches[k][0].name);
  }

  /** With the archive's keep count, the fifth from the end is gone. */
  lemma FifthPublicationIsGone(cfg: Config, start: Tree, runs: seq<Publication>, i: nat, a: Algorithm)
    requires Series(cfg, start, runs) && cfg.acquireByHash && cfg.byHashKeep == Some(ArchiveKeep(cfg.compressions))
    requires |runs| >= 5 && cfg.compressions != []
    requires i < |AllTargets(cfg, runs[|runs| - 5].io)| && a in cfg.algorithms
    requires DirOf(start, IndexDir(cfg, runs[|runs| - 5].io, i, a)) == []
    requires DistinctNames(Concat(IndexBatches(cfg, runs, i, a)))
    ensures
      var io := runs[|runs| - 5].io;
      Child(IndexDir(cfg, io, i, a), io.hash(a, IndexBytes(cfg, io, i, 0))) !in Last(start, runs)
  {
    hide DirOf, AllTargets, FilesOf, Series, DistinctNames, IndexDir, IndexBytes;
    IndexFilesLost(cfg, start, runs, i, a, 5);
  }

  /** There is a file under the hash of `bytes`, and it has that hash. */
  ghost predicate Fetchable(t: Tree, dir: Path, hash: (Algorithm, Bytes) -> string, a: Algorithm, bytes: Bytes) {
    var p := Child(dir, hash(a, bytes));
    p in t && t[p].content.Blob? && hash(a, t[p].content.bytes) == hash(a, bytes)
  }

  lemma FetchableFrom(t: Tree, dir: Path, history: seq<Entry>, keep: nat, hash: (Algorithm, Bytes) -> string, a: Algorithm, bytes: Bytes)
    requires HasClock(t) && MostRecent(history, keep, DirOf(t, dir)) && Listed(DirOf(t, dir), hash(a, bytes))
    requires forall e :: e in history ==> e.content.Blob? && hash(a, e.content.bytes) == e.name
    ensures Fetchable(t, dir, hash, a, bytes)
  {
    hide DirOf, Stamped, MostRecent;
    var clock :| Stamped(t, clock);
    DirExists(t, clock, dir);
    var j :| 0 <= j < |DirOf(t, dir)| && DirOf(t, dir)[j].name == hash(a, bytes);
    FromHistory(history, keep, DirOf(t, dir), j);
  }

  lemma BatchEntry(cfg: Config, io: Inputs, i: nat, a: Algorithm, c: nat)
    requires i < |AllTargets(cfg, io)| && c < |cfg.compressions|
    ensures |IndexBatch(cfg, io, i, a)| == |cfg.compressions|
    ensures IndexBatch(cfg, io, i, a)[c].name == io.hash(a, IndexBytes(cfg, io, i, c))
  {
  }

  lemma Scale(w: nat, n: nat)
    requires n <= 4
    ensures w * n <= 4 * w
  {
  }

  lemma FromHistory(history: seq<Entry>, keep: nat, s: seq<Entry>, j: nat)
    requires MostRecent(history, keep, s) && j < |s|
    ensures s[j] in history
  {
  }

  lemma BatchesHaveSize(cfg: Config, runs: seq<Publication>, i: nat, a: Algorithm, io: Inputs)
    requires i < |AllTargets(cfg, io)|
    ensures AllOfSize(IndexBatches(cfg, runs, i, a), |cfg.compressions|)
  {
    forall k | 0 <= k < |runs| ensures |IndexBatch(cfg, runs[k].io, i, a)| == |cfg.compressions| {
      TargetDirsAgree(cfg, io, runs[k].io, |cfg.components|);
    }
  }

  /** In every batch, a file is named by the hash of its bytes. */
  lemma {:induction false} HistoryHashes(cfg: Config, runs: seq<Publication>, hash: (Algorithm, Bytes) -> string, i: nat, a: Algorithm, io: Inputs)
    requires forall n :: 0 <= n < |runs| ==> runs[n].io.hash == hash
    ensures forall e :: e in Concat(IndexBatches(cfg, runs, i, a)) ==> e.content.Blob? && hash(a, e.content.bytes) == e.name
    decreases |runs|
  {
    hide AllTargets, FilesOf;
    if runs != [] {
      var n := |runs| - 1;
      HistoryHashes(cfg, runs[..n], hash, i, a, io);
      assert IndexBatches(cfg, runs, i, a)[..n] == IndexBatches(cfg, runs[..n], i, a);
      assert forall e :: e in IndexBatch(cfg, runs[n].io, i, a) ==> e.content.Blob? && hash(a, e.content.bytes) == e.name;
    }
  }

  // ----- The directories of the Contents indices

  /** What one publication copies into the by-hash directory of component `c`. */
  function ContentsBatch(io: Inputs, cio: ContentsInputs, jobs: seq<Job>, c: string, a: Algorithm): seq<Entry>
    decreases |jobs|
  {
    if jobs == [] then []
    else
      var last := jobs[|jobs| - 1];
      ContentsBatch(io, cio, jobs[..|jobs| - 1], c, a)
      + if last.component == c then ByHashEntries(io, FilesOfJob(cio, last), a) else []
  }

  lemma OneJobWrites(first: seq<Event>, batch: seq<Entry>)
    ensures (first + WriteAll(batch) + [Prune])[..|first + WriteAll(batch)|] == first + WriteAll(batch)
    ensures Writes(first + WriteAll(batch) + [Prune]) == Writes(first) + batch
  {
    hide Writes;
    var written := first + WriteAll(batch);
    WriteAllRuns([], batch, 0);
    WritesAppend(first, WriteAll(batch));
    WritesAppend(written, [Prune]);
    assert Writes([Prune]) == [] by { OnlyPruned(); }
  }

  lemma OnlyPruned()
    ensures Writes([Prune]) == []
  {
    assert [Prune][..0] == [];
  }

  /** What a pass does to the directory of a component, as events that end with a pruning
      if there are any. */
  lemma {:induction false} JobsRun(cfg: Config, io: Inputs, cio: ContentsInputs, jobs: seq<Job>, c: string, a: Algorithm, s: seq<Entry>)
    returns (events: seq<Event>)
    requires cfg.byHashKeep.Some?
    ensures ContentsByHash(cfg, io, cio, jobs, c, a, s) == Run(s, events, Keep(cfg))
    ensures Writes(events) == ContentsBatch(io, cio, jobs, c, a)
    ensures events == [] || events[|events| - 1] == Prune
    ensures events == [] ==> ContentsBatch(io, cio, jobs, c, a) == []
    decreases |jobs|
  {
    hide MostRecent, FilesOfJob, TouchAll, Newest, ByHashEntries, WriteAll;
    if jobs == [] {
      events := [];
    } else {
      var last := jobs[|jobs| - 1];
      events := JobsRun(cfg, io, cio, jobs[..|jobs| - 1], c, a, s);
      if last.component == c {
        hide Run, Writes;
        var batch := ByHashEntries(io, FilesOfJob(cio, last), a);
        OneJobRuns(s, events, batch, Keep(cfg));
        OneJobWrites(events, batch);
        events := events + WriteAll(batch) + [Prune];
      }
    }
  }

  lemma OneJobRuns(s: seq<Entry>, events: seq<Event>, batch: seq<Entry>, keep: nat)
    ensures Run(s, events + WriteAll(batch) + [Prune], keep) == Newest(TouchAll(Run(s, events, keep), batch), keep)
  {
    hide Newest;
    RunAppend(s, events, WriteAll(batch), keep);
    WriteAllRuns(Run(s, events, keep), batch, keep);
    var written := events + WriteAll(batch);
    assert (written + [Prune])[..|written|] == written;
  }

  lemma ContentsRuns(cfg: Config, io: Inputs, cio: ContentsInputs, jobs: seq<Job>, c: string, a: Algorithm, events: seq<Event>)
    returns (all: seq<Event>)
    requires cfg.byHashKeep.Some?
    ensures ContentsByHash(cfg, io, cio, jobs, c, a, Run([], events, Keep(cfg))) == Run([], all, Keep(cfg))
    ensures Writes(all) == Writes(events) + ContentsBatch(io, cio, jobs, c, a)
    ensures ContentsBatch(io, cio, jobs, c, a) != [] ==> MostRecent(Writes(all), Keep(cfg), Run([], all, Keep(cfg)))
  {
    hide MostRecent, Run, Writes, ContentsBatch, ContentsByHash;
    var more := JobsRun(cfg, io, cio, jobs, c, a, Run([], events, Keep(cfg)));
    all := events + more;
    RunAppend([], events, more, Keep(cfg));
    WritesAppend(events, more);
    if more != [] {
      var n := |all| - 1;
      assert all == all[..n] + [Prune];
      PruningLeavesMostRecent(all[..n], Keep(cfg));
      LastPrune(all[..n]);
    }
  }

  lemma LastPrune(events: seq<Event>)
    ensures Writes(events + [Prune]) == Writes(events)
  {
    assert (events + [Prune])[..|events|] == events;
  }

  function ContentsBatches(cfg: Config, runs: seq<Publication>, c: string, a: Algorithm): seq<seq<Entry>> {
    seq(|runs|, k requires 0 <= k < |runs| => ContentsBatch(runs[k].io, runs[k].cio, AllJobs(cfg), c, a))
  }

  lemma {:induction false} ContentsSeriesRuns(cfg: Config, start: Tree, runs: seq<Publication>, c: string, a: Algorithm)
    returns (events: seq<Event>)
    requires Series(cfg, start, runs) && cfg.acquireByHash && cfg.byHashKeep.Some? && a in cfg.algorithms
    requires DirOf(start, ByHashDir([c], a)) == []
    ensures DirOf(Last(start, runs), ByHashDir([c], a)) == Run([], events, Keep(cfg))
    ensures Writes(events) == Concat(ContentsBatches(cfg, runs, c, a))
    ensures runs != [] && ContentsBatches(cfg, runs, c, a)[|runs| - 1] != [] ==>
      MostRecent(Writes(events), Keep(cfg), Run([], events, Keep(cfg)))
    decreases |runs|
  {
    hide DirOf, AllJobs, MostRecent, Series, Published, HasClock, ContentsBatch, ContentsByHash,
         JobsAvailable, IndicesInPlace, ContentsFiles, IsIndex, InComponentByHash;
    if runs == [] {
      events := [];
    } else {
      var n := |runs| - 1;
      SeriesEnds(cfg, start, runs);
      events := ContentsSeriesRuns(cfg, start, runs[..n], c, a);
      assert ContentsBatches(cfg, runs, c, a)[..n] == ContentsBatches(cfg, runs[..n], c, a);
      GenerationKeepsComponentDirs(cfg, runs[n].io, Last(start, runs[..n]), runs[n].generated, c, a);
      events := ContentsRuns(cfg, runs[n].io, runs[n].cio, AllJobs(cfg), c, a, events);
    }
  }

  /** Number of architectures with a Contents index. */
  function BinaryArchitectures(cfg: Config, n: nat): nat
    requires n <= |cfg.architectures|
  {
    if n == 0 then 0 else BinaryArchitectures(cfg, n - 1) + if cfg.architectures[n - 1] == "source" then 0 else 1
  }

  function ContentsPerRun(cfg: Config): nat {
    2 * BinaryArchitectures(cfg, |cfg.architectures|)
  }

  lemma {:induction false} ArchBatchSize(cfg: Config, io: Inputs, cio: ContentsInputs, jobs: seq<Job>, c: string, d: string, a: Algorithm, n: nat)
    requires n <= |cfg.architectures|
    ensures |ContentsBatch(io, cio, jobs + ArchJobs(cfg, c, n), d, a)| ==
            |ContentsBatch(io, cio, jobs, d, a)| + if c == d then 2 * BinaryArchitectures(cfg, n) else 0
  {
    if n == 0 {
      assert jobs + ArchJobs(cfg, c, 0) == jobs;
    } else {
      ArchBatchSize(cfg, io, cio, jobs, c, d, a, n - 1);
      var before := jobs + ArchJobs(cfg, c, n - 1);
      if cfg.architectures[n - 1] == "source" {
        assert jobs + ArchJobs(cfg, c, n) == before;
      } else {
        var j := Job(c, cfg.architectures[n - 1]);
        assert jobs + ArchJobs(cfg, c, n) == before + [j];
        assert (before + [j])[..|before|] == before;
      }
    }
  }

  lemma {:induction false} ContentsBatchSize(cfg: Config, io: Inputs, cio: ContentsInputs, c: string, a: Algorithm, n: nat)
    requires NoDup(cfg.components) && n <= |cfg.components|
    ensures |ContentsBatch(io, cio, Jobs(cfg, n), c, a)| == if c in cfg.components[..n] then ContentsPerRun(cfg) else 0
  {
    hide ContentsBatch, ArchJobs, BinaryArchitectures;
    if n == 0 {
      assert ContentsBatch(io, cio, [], c, a) == [] by { NoJobsNoBatch(io, cio, c, a); }
    } else {
      ContentsBatchSize(cfg, io, cio, c, a, n - 1);
      ArchBatchSize(cfg, io, cio, Jobs(cfg, n - 1), cfg.components[n - 1], c, a, |cfg.architectures|);
      assert cfg.components[..n] == cfg.components[..n - 1] + [cfg.components[n - 1]];
    }
  }

  lemma NoJobsNoBatch(io: Inputs, cio: ContentsInputs, c: string, a: Algorithm)
    ensures ContentsBatch(io, cio, [], c, a) == []
  {
  }

  lemma ContentsBatchesHaveSize(cfg: Config, runs: seq<Publication>, c: string, a: Algorithm)
    requires NoDup(cfg.components) && c in cfg.components
    ensures AllOfSize(ContentsBatches(cfg, runs, c, a), ContentsPerRun(cfg))
  {
    hide ContentsBatch;
    assert cfg.components[..|cfg.components|] == cfg.components;
    forall k | 0 <= k < |runs| ensures |ContentsBatches(cfg, runs, c, a)[k]| == ContentsPerRun(cfg) {
      ContentsBatchSize(cfg, runs[k].io, runs[k].cio, c, a, |cfg.components|);
    }
  }

  lemma {:induction false} ContentsAreGood(io: Inputs, cio: ContentsInputs, jobs: seq<Job>, c: string, a: Algorithm)
    ensures forall e :: e in ContentsBatch(io, cio, jobs, c, a) ==> IsGood(e, io.hash, a)
    decreases |jobs|
  {
    hide FilesOfJob;
    if jobs != [] { ContentsAreGood(io, cio, jobs[..|jobs| - 1], c, a); }
  }

  lemma {:induction false} ContentsHistoryIsGood(cfg: Config, runs: seq<Publication>, hash: (Algorithm, Bytes) -> string, c: string, a: Algorithm)
    requires forall n :: 0 <= n < |runs| ==> runs[n].io.hash == hash
    ensures forall e :: e in Concat(ContentsBatches(cfg, runs, c, a)) ==> IsGood(e, hash, a)
    decreases |runs|
  {
    hide AllJobs, ContentsBatch, IsGood;
    if runs != [] {
      var n := |runs| - 1;
      ContentsHistoryIsGood(cfg, runs[..n], hash, c, a);
      assert ContentsBatches(cfg, runs, c, a)[..n] == ContentsBatches(cfg, runs[..n], c, a);
      ContentsAreGood(runs[n].io, runs[n].cio, AllJobs(cfg), c, a);
    }
  }

  /** All architectures of a component share one directory. So the Contents of the last
      `g` publications can be fetched by hash in every series of publications if the
      writes of `g` of them fit into the keep count ... */
  lemma ContentsKept(cfg: Config, start: Tree, runs: seq<Publication>, hash: (Algorithm, Bytes) -> string, c: string, a: Algorithm, g: nat, k: nat, i: nat)
    requires NoDup(cfg.components) && c in cfg.components && a in cfg.algorithms
    requires Series(cfg, start, runs) && cfg.acquireByHash && cfg.byHashKeep.Some?
    requires forall n :: 0 <= n < |runs| ==> runs[n].io.hash == hash
    requires DirOf(start, ByHashDir([c], a)) == []
    requires ContentsPerRun(cfg) * g <= Keep(cfg)
    requires k < |runs| && |runs| - k <= g && i < ContentsPerRun(cfg)
    ensures |ContentsBatch(runs[k].io, runs[k].cio, AllJobs(cfg), c, a)| == ContentsPerRun(cfg)
    ensures
      var e := ContentsBatch(runs[k].io, runs[k].cio, AllJobs(cfg), c, a)[i];
      IsGood(e, hash, a) && Fetchable(Last(start, runs), ByHashDir([c], a), hash, a, e.content.bytes)
  {
    hide DirOf, AllJobs, MostRecent, Series, ContentsBatch, ContentsPerRun, DistinctNames, Fetchable, HasClock,
         Concat, Last, Listed, Run, Writes, BinaryArchitectures, Published, Spliced;
    var t, d := Last(start, runs), ByHashDir([c], a);
    var batches, w := ContentsBatches(cfg, runs, c, a), ContentsPerRun(cfg);
    ContentsBatchesHaveSize(cfg, runs, c, a);
    var events := ContentsSeriesRuns(cfg, start, runs, c, a);
    assert |batches[|runs| - 1]| == w;
    ScaleUp(w, |runs| - k, g);
    BatchKept(batches, w, Keep(cfg), DirOf(t, d), k, i);
    ContentsHistoryIsGood(cfg, runs, hash, c, a);
    assert HasClock(t) by { hide *; SeriesEnds(cfg, start, runs); }
    assert batches[k] == ContentsBatch(runs[k].io, runs[k].cio, AllJobs(cfg), c, a);
    EntryFetchableFrom(t, d, batches, k, i, Keep(cfg), hash, a);
  }

  lemma EntryFetchableFrom(t: Tree, dir: Path, batches: seq<seq<Entry>>, k: nat, i: nat, keep: nat, hash: (Algorithm, Bytes) -> string, a: Algorithm)
    requires k < |batches| && i < |batches[k]|
    requires HasClock(t) && MostRecent(Concat(batches), keep, DirOf(t, dir)) && Listed(DirOf(t, dir), batches[k][i].name)
    requires forall e :: e in Concat(batches) ==> IsGood(e, hash, a)
    ensures IsGood(batches[k][i], hash, a) && Fetchable(t, dir, hash, a, batches[k][i].content.bytes)
  {
    hide DirOf, MostRecent, HasClock, Fetchable, Listed, Concat;
    InConcat(batches, k, i);
    FetchableFrom(t, dir, Concat(batches), keep, hash, a, batches[k][i].content.bytes);
  }

  lemma InConcat(parts: seq<seq<Entry>>, k: nat, i: nat)
    requires k < |parts| && i < |parts[k]|
    ensures parts[k][i] in Concat(parts)
  {
    ConcatSplit(parts, k);
    ConcatFirst(parts[k..]);
  }

  /** ... and only if: otherwise, when no two files have the same hash, the first file
      of the oldest of the last `g` publications is gone. For g = 1 this is a file
      that the current Release lists. */
  lemma ContentsLost(cfg: Config, start: Tree, runs: seq<Publication>, c: string, a: Algorithm, g: nat)
    requires NoDup(cfg.components) && c in cfg.components && a in cfg.algorithms
    requires Series(cfg, start, runs) && cfg.acquireByHash && cfg.byHashKeep.Some?
    requires DirOf(start, ByHashDir([c], a)) == []
    requires Keep(cfg) < ContentsPerRun(cfg) * g && 0 < g <= |runs|
    requires DistinctNames(Concat(ContentsBatches(cfg, runs, c, a)))
    ensures
      var oldest := runs[|runs| - g];
      var batch := ContentsBatch(oldest.io, oldest.cio, AllJobs(cfg), c, a);
      && batch != [] && !Listed(DirOf(Last(start, runs), ByHashDir([c], a)), batch[0].name)
      && Child(ByHashDir([c], a), batch[0].name) !in Last(start, runs)
  {
    hide DirOf, AllJobs, MostRecent, Series, ContentsBatch, ContentsPerRun, DistinctNames, HasClock,
         Concat, Last, Listed, Run, Writes, BinaryArchitectures, Published, Spliced;
    var batches, w := ContentsBatches(cfg, runs, c, a), ContentsPerRun(cfg);
    ContentsBatchesHaveSize(cfg, runs, c, a);
    SomeToLose(w, g, Keep(cfg));
    var events := ContentsSeriesRuns(cfg, start, runs, c, a);
    assert |batches[|runs| - 1]| == w;
    BatchLost(batches, w, Keep(cfg), DirOf(Last(start, runs), ByHashDir([c], a)), |runs| - g);
    assert HasClock(Last(start, runs)) by { hide *; SeriesEnds(cfg, start, runs); }
    assert Child(ByHashDir([c], a), batches[|runs| - g][0].name) !in Last(start, runs) by {
      NotInTree(Last(start, runs), ByHashDir([c], a), batches[|runs| - g][0].name);
    }
  }

  lemma SomeToLose(w: nat, g: nat, keep: nat)
    requires keep < w * g
    ensures w > 0
  {
  }

  lemma NotInTree(t: Tree, dir: Path, name: string)
    requires HasClock(t) && !Listed(DirOf(t, dir), name)
    ensures Child(dir, name) !in t
  {
    hide DirOf, Stamped;
    var clock :| Stamped(t, clock);
    DirExists(t, clock, dir);
  }

  lemma ScaleUp(w: nat, n: nat, g: nat)
    requires n <= g
    ensures w * n <= w * g
  {
  }
}
