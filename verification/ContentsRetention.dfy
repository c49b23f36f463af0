/** Retention of Contents indices when attempts may fail anywhere. All architectures of a
    component share one by-hash directory, which every attempt prunes as often as it gets
    through one of them. */
module ContentsRetention {
  import opened Common
  import opened Filesystem
  import opened Attempts
  import opened ByHash
  import opened ByHashDirectory
  import opened Indices
  import opened ByHashUpdate
  import opened Contents
  import opened ContentsGenerator
  import opened Retention
  import opened R = Release

  /** Attempts at publications, seen from the directories of the components. */
  ghost predicate ContentsTried(cfg: Config, trees: seq<Tree>, ios: seq<Inputs>, cios: seq<ContentsInputs>) {
    && |trees| == |ios| + 1 == |cios| + 1
    && (forall k :: 0 <= k < |trees| ==> HasClock(trees[k]))
    && forall k :: 0 <= k < |ios| ==> ContentsAttempted(cfg, ios[k], cios[k], AllJobs(cfg), trees[k], trees[k + 1])
  }

  function TriedBatches(cfg: Config, ios: seq<Inputs>, cios: seq<ContentsInputs>, c: string, a: Algorithm): seq<seq<Entry>>
    requires |ios| == |cios|
  {
    seq(|ios|, k requires 0 <= k < |ios| => ContentsBatch(ios[k], cios[k], AllJobs(cfg), c, a))
  }

  /** What each attempt wrote into the by-hash directory of component `c`. */
  ghost predicate ContentsLogged(cfg: Config, trees: seq<Tree>, ios: seq<Inputs>, cios: seq<ContentsInputs>, c: string, a: Algorithm,
                                 parts: seq<seq<Entry>>)
    requires |ios| == |cios|
  {
    Logged(DirOver(trees, ByHashDir([c], a)), TriedBatches(cfg, ios, cios, c, a), parts, Keep(cfg))
  }

  /** The attempt got through the directory, with the files of every architecture. */
  ghost predicate PassedThrough(cfg: Config, io: Inputs, cio: ContentsInputs, c: string, a: Algorithm, before: Tree, after: Tree) {
    DirOf(after, ByHashDir([c], a)) == ContentsByHash(cfg, io, cio, AllJobs(cfg), c, a, DirOf(before, ByHashDir([c], a)))
  }

  // ----- One attempt

  lemma {:induction false} BatchPrefix(io: Inputs, cio: ContentsInputs, some: seq<Job>, jobs: seq<Job>, c: string, a: Algorithm)
    requires some <= jobs
    ensures ContentsBatch(io, cio, some, c, a) <= ContentsBatch(io, cio, jobs, c, a)
    decreases |jobs|
  {
    hide FilesOfJob, ByHashEntries;
    if some != jobs {
      var n := |jobs| - 1;
      assert some <= jobs[..n];
      BatchPrefix(io, cio, some, jobs[..n], c, a);
    }
  }

  lemma PartOfMore(first: seq<Entry>, part: seq<Entry>, second: seq<Entry>, batch: seq<Entry>)
    requires PartOf(part, second) && first + second <= batch
    ensures PartOf(first + part, batch)
  {
  }

  /** Some jobs done and the next one stopped: a run of events that wrote a part of the batch. */
  lemma StoppedRun(cfg: Config, io: Inputs, cio: ContentsInputs, jobs: seq<Job>, n: nat, c: string, a: Algorithm, s: seq<Entry>, t: seq<Entry>)
    returns (part: seq<Entry>)
    requires n <= |jobs| && StoppedIn(cfg, io, cio, jobs, n, c, a, s, t) && cfg.byHashKeep.Some?
    ensures WrotePart(s, t, ContentsBatch(io, cio, jobs, c, a), Keep(cfg), part)
  {
    hide ContentsByHash, ContentsBatch, Run, Writes, FilesOfJob, ByHashEntries, PartOf, AttemptedWith, JobAvailable;
    var batch, done := ContentsBatch(io, cio, jobs, c, a), ContentsBatch(io, cio, jobs[..n], c, a);
    var m := ContentsByHash(cfg, io, cio, jobs[..n], c, a, s);
    var events := JobsRun(cfg, io, cio, jobs[..n], c, a, s);
    if n < |jobs| && jobs[n].component == c && JobAvailable(cio, jobs[n]) {
      var entries := ByHashEntries(io, FilesOfJob(cio, jobs[n]), a);
      var last :| AttemptedWith(m, t, entries, cfg.byHashKeep, last);
      var more := AttemptRuns(m, t, entries, Keep(cfg), last);
      RunAppend(s, events, more, Keep(cfg));
      WritesAppend(events, more);
      part := done + last;
      BatchPrefix(io, cio, jobs[..n + 1], jobs, c, a);
      OneMoreBatch(io, cio, jobs, n, c, a);
      assert PartOf(last, entries) by { IsPart(m, t, entries, cfg.byHashKeep, last); }
      PartOfMore(done, last, entries, batch);
      assert t == Run(s, events + more, Keep(cfg)) && Writes(events + more) == part;
    } else {
      part := done;
      BatchPrefix(io, cio, jobs[..n], jobs, c, a);
      assert PartOf([], []) by { NothingIsPart(); }
      assert done + [] == done;
      PartOfMore(done, [], [], batch);
    }
  }

  lemma IsPart(s: seq<Entry>, t: seq<Entry>, batch: seq<Entry>, keep: Option<nat>, part: seq<Entry>)
    requires AttemptedWith(s, t, batch, keep, part)
    ensures PartOf(part, batch)
  {
  }

  lemma NothingIsPart()
    ensures PartOf([], [])
  {
  }

  lemma OneMoreBatch(io: Inputs, cio: ContentsInputs, jobs: seq<Job>, n: nat, c: string, a: Algorithm)
    requires n < |jobs| && jobs[n].component == c
    ensures ContentsBatch(io, cio, jobs[..n + 1], c, a)
         == ContentsBatch(io, cio, jobs[..n], c, a) + ByHashEntries(io, FilesOfJob(cio, jobs[n]), a)
  {
    hide FilesOfJob, ByHashEntries;
    assert jobs[..n + 1][..n] == jobs[..n];
  }

  lemma StepLogged(cfg: Config, io: Inputs, cio: ContentsInputs, before: Tree, after: Tree, c: string, a: Algorithm) returns (part: seq<Entry>)
    requires ContentsAttempted(cfg, io, cio, AllJobs(cfg), before, after) && cfg.acquireByHash && cfg.byHashKeep.Some? && a in cfg.algorithms
    ensures
      var s, t, batch := DirOf(before, ByHashDir([c], a)), DirOf(after, ByHashDir([c], a)), ContentsBatch(io, cio, AllJobs(cfg), c, a);
      WrotePart(s, t, batch, Keep(cfg), part) && (PassedThrough(cfg, io, cio, c, a, before, after) ==> part == batch)
  {
    hide DirOf, AllJobs, JobsAvailable, ContentsByHash, ContentsBatch, StoppedIn, WrotePart;
    var jobs := AllJobs(cfg);
    var s, t := DirOf(before, ByHashDir([c], a)), DirOf(after, ByHashDir([c], a));
    if PassedThrough(cfg, io, cio, c, a, before, after) {
      part := ContentsBatch(io, cio, jobs, c, a);
      DoneRun(cfg, io, cio, jobs, c, a, s);
    } else {
      var n: nat :| ContentsUpTo(cfg, io, cio, jobs, n, before, after);
      part := StoppedRun(cfg, io, cio, jobs, n, c, a, s, t);
    }
  }

  lemma DoneRun(cfg: Config, io: Inputs, cio: ContentsInputs, jobs: seq<Job>, c: string, a: Algorithm, s: seq<Entry>)
    requires cfg.byHashKeep.Some?
    ensures
      var batch, t := ContentsBatch(io, cio, jobs, c, a), ContentsByHash(cfg, io, cio, jobs, c, a, s);
      WrotePart(s, t, batch, Keep(cfg), batch) && (batch != [] ==> PrunedAfter(s, t, batch, Keep(cfg)))
  {
    hide ContentsByHash, ContentsBatch, Run, Writes, Newest;
    var batch, t := ContentsBatch(io, cio, jobs, c, a), ContentsByHash(cfg, io, cio, jobs, c, a, s);
    var events := JobsRun(cfg, io, cio, jobs, c, a, s);
    if events != [] {
      var most := events[..|events| - 1];
      assert events == most + [Prune];
      LastPrune(most);
      PruneLast(s, most, Keep(cfg));
    }
  }

  lemma PruneLast(s: seq<Entry>, events: seq<Event>, keep: nat)
    ensures Run(s, events + [Prune], keep) == Newest(Run(s, events, keep), keep)
  {
    assert (events + [Prune])[..|events|] == events;
  }

  // ----- Any attempts

  /** There is a record of any attempts, in which those that got through the directory have
      written all of their Contents. */
  lemma {:induction false} ContentsAreLogged(cfg: Config, trees: seq<Tree>, ios: seq<Inputs>, cios: seq<ContentsInputs>, c: string, a: Algorithm)
    returns (parts: seq<seq<Entry>>)
    requires ContentsTried(cfg, trees, ios, cios) && cfg.acquireByHash && cfg.byHashKeep.Some? && a in cfg.algorithms
    ensures ContentsLogged(cfg, trees, ios, cios, c, a, parts)
    ensures |parts| == |ios| && forall k :: 0 <= k < |ios| && PassedThrough(cfg, ios[k], cios[k], c, a, trees[k], trees[k + 1]) ==>
      parts[k] == ContentsBatch(ios[k], cios[k], AllJobs(cfg), c, a)
    decreases |ios|
  {
    hide DirOf, AllJobs, ContentsBatch, WrotePart, HasClock, PassedThrough, ContentsAttempted;
    if ios == [] {
      parts := [];
    } else {
      var n := |ios| - 1;
      var before := ContentsAreLogged(cfg, trees[..n + 1], ios[..n], cios[..n], c, a);
      var last := StepLogged(cfg, ios[n], cios[n], trees[n], trees[n + 1], c, a);
      parts := before + [last];
      var d := ByHashDir([c], a);
      var lists, batches := DirOver(trees, d), TriedBatches(cfg, ios, cios, c, a);
      forall k | 0 <= k < |parts| ensures WrotePart(lists[k], lists[k + 1], batches[k], Keep(cfg), parts[k]) {
        if k < n {
          assert lists[k] == DirOver(trees[..n + 1], d)[k] && lists[k + 1] == DirOver(trees[..n + 1], d)[k + 1];
          assert batches[k] == TriedBatches(cfg, ios[..n], cios[..n], c, a)[k];
        }
      }
    }
  }

  /** The directory misses nothing that is among the most recently written files, and holds
      exactly these when the last attempt has got through it. */
  lemma ContentsSurviveFailures(cfg: Config, trees: seq<Tree>, ios: seq<Inputs>, cios: seq<ContentsInputs>, c: string, a: Algorithm,
                                parts: seq<seq<Entry>>)
    requires ContentsTried(cfg, trees, ios, cios) && cfg.byHashKeep.Some? && ContentsLogged(cfg, trees, ios, cios, c, a, parts)
    requires DirOf(trees[0], ByHashDir([c], a)) == []
    ensures |parts| == |ios| && Tracks(Concat(parts), Keep(cfg), DirOf(trees[|ios|], ByHashDir([c], a)))
    ensures LastPassed(cfg, trees, ios, cios, c, a, parts) ==>
      MostRecent(Concat(parts), Keep(cfg), DirOf(trees[|ios|], ByHashDir([c], a)))
  {
    hide DirOf, AllJobs, WrotePart, Tracks, MostRecent, ContentsBatch, ContentsByHash, HasClock, ContentsAttempted, PrunedAfter, Concat;
    var lists := DirOver(trees, ByHashDir([c], a));
    LogTracks(lists, TriedBatches(cfg, ios, cios, c, a), parts, Keep(cfg));
    if LastPassed(cfg, trees, ios, cios, c, a, parts) {
      var n := |ios| - 1;
      DoneRun(cfg, ios[n], cios[n], AllJobs(cfg), c, a, lists[n]);
    }
  }

  /** The last attempt got through, and had something to write. */
  ghost predicate LastPassed(cfg: Config, trees: seq<Tree>, ios: seq<Inputs>, cios: seq<ContentsInputs>, c: string, a: Algorithm,
                             parts: seq<seq<Entry>>)
    requires |trees| == |ios| + 1 == |cios| + 1 == |parts| + 1
  {
    var n := |ios| - 1;
    && ios != [] && parts[n] == ContentsBatch(ios[n], cios[n], AllJobs(cfg), c, a) && parts[n] != []
    && PassedThrough(cfg, ios[n], cios[n], c, a, trees[n], trees[n + 1])
  }

  /** When exactly a Contents file that attempt `k` copied can still be fetched. */
  lemma ContentsStillFetchable(cfg: Config, trees: seq<Tree>, ios: seq<Inputs>, cios: seq<ContentsInputs>, c: string, a: Algorithm,
                               parts: seq<seq<Entry>>, k: nat, i: nat)
    requires ContentsTried(cfg, trees, ios, cios) && cfg.byHashKeep.Some? && ContentsLogged(cfg, trees, ios, cios, c, a, parts)
    requires DirOf(trees[0], ByHashDir([c], a)) == [] && k < |ios|
    requires i < |ContentsBatch(ios[k], cios[k], AllJobs(cfg), c, a)|
    requires |parts| == |ios| && parts[k] == ContentsBatch(ios[k], cios[k], AllJobs(cfg), c, a)
    ensures IsGood(parts[k][i], ios[k].hash, a)
    ensures
      var bytes, name := parts[k][i].content.bytes, parts[k][i].name;
      var hash, history, t, d := ios[k].hash, Concat(parts), trees[|ios|], ByHashDir([c], a);
      && LastWrite(history, name) >= |Concat(parts[..k])|
      && (Age(history, name) <= Keep(cfg) && Intact(history, name, hash, a) ==> Fetchable(t, d, hash, a, bytes))
      && (LastPassed(cfg, trees, ios, cios, c, a, parts) ==>
          (Fetchable(t, d, hash, a, bytes) <==> Age(history, name) <= Keep(cfg) && Intact(history, name, hash, a)))
  {
    hide DirOf, AllJobs, Tracks, MostRecent, ContentsBatch, HasClock, Fetchable, Intact, Age, LastWrite, Concat, LastPassed,
         ContentsAttempted, ContentsLogged;
    ContentsAreGood(ios[k], cios[k], AllJobs(cfg), c, a);
    assert parts[k][i] in parts[k];
    ContentsSurviveFailures(cfg, trees, ios, cios, c, a, parts);
    FetchableIffYoung(trees[|ios|], ByHashDir([c], a), parts, k, i, Keep(cfg), ios[k].hash, a, parts[k][i].content.bytes);
  }

  /** In numbers: while the writes since the start of its attempt fit into the keep count, and
      no later copy under its name is broken. */
  lemma ContentsFetchableWhileFewWrites(cfg: Config, trees: seq<Tree>, ios: seq<Inputs>, cios: seq<ContentsInputs>, c: string, a: Algorithm,
                                        parts: seq<seq<Entry>>, k: nat, i: nat)
    requires ContentsTried(cfg, trees, ios, cios) && cfg.byHashKeep.Some? && ContentsLogged(cfg, trees, ios, cios, c, a, parts)
    requires DirOf(trees[0], ByHashDir([c], a)) == [] && k < |ios|
    requires i < |ContentsBatch(ios[k], cios[k], AllJobs(cfg), c, a)|
    requires |parts| == |ios| && parts[k] == ContentsBatch(ios[k], cios[k], AllJobs(cfg), c, a)
    requires |Concat(parts[k..])| <= Keep(cfg)
    requires forall e :: e in Concat(parts[k + 1..]) && e.name == parts[k][i].name ==> IsGood(e, ios[k].hash, a)
    ensures IsGood(parts[k][i], ios[k].hash, a)
    ensures Fetchable(trees[|ios|], ByHashDir([c], a), ios[k].hash, a, parts[k][i].content.bytes)
  {
    hide DirOf, AllJobs, Tracks, MostRecent, ContentsBatch, HasClock, Fetchable, Concat, ContentsAttempted, ContentsLogged;
    ContentsAreGood(ios[k], cios[k], AllJobs(cfg), c, a);
    assert parts[k][i] in parts[k];
    ContentsSurviveFailures(cfg, trees, ios, cios, c, a, parts);
    FetchableWhileFew(trees[|ios|], ByHashDir([c], a), parts, k, i, Keep(cfg), ios[k].hash, a, parts[k][i].content.bytes);
  }

  /** Every attempt writes at most `ContentsPerRun` files. So those of the last `g` attempts
      can be fetched, failed attempts included, if `g` times as many fit. */
  lemma LastAttemptsFetchable(cfg: Config, trees: seq<Tree>, ios: seq<Inputs>, cios: seq<ContentsInputs>, c: string, a: Algorithm,
                              parts: seq<seq<Entry>>, k: nat, i: nat, g: nat)
    requires NoDup(cfg.components) && c in cfg.components
    requires ContentsTried(cfg, trees, ios, cios) && cfg.byHashKeep.Some? && ContentsLogged(cfg, trees, ios, cios, c, a, parts)
    requires DirOf(trees[0], ByHashDir([c], a)) == [] && k < |ios| && |ios| - k <= g
    requires i < |ContentsBatch(ios[k], cios[k], AllJobs(cfg), c, a)|
    requires |parts| == |ios| && parts[k] == ContentsBatch(ios[k], cios[k], AllJobs(cfg), c, a)
    requires ContentsPerRun(cfg) * g <= Keep(cfg)
    requires forall e :: e in Concat(parts[k + 1..]) && e.name == parts[k][i].name ==> IsGood(e, ios[k].hash, a)
    ensures IsGood(parts[k][i], ios[k].hash, a)
    ensures Fetchable(trees[|ios|], ByHashDir([c], a), ios[k].hash, a, parts[k][i].content.bytes)
  {
    hide DirOf, AllJobs, Fetchable, Concat, HasClock, ContentsAttempted, ContentsLogged, ContentsPerRun, ContentsBatch, IsGood;
    var w := ContentsPerRun(cfg);
    forall n | 0 <= n < |parts[k..]| ensures |parts[k..][n]| <= w {
      PartSize(cfg, trees, ios, cios, c, a, parts, k + n);
    }
    ConcatSize(parts[k..], w);
    ScaleUp(w, |ios| - k, g);
    ContentsFetchableWhileFewWrites(cfg, trees, ios, cios, c, a, parts, k, i);
  }

  lemma PartSize(cfg: Config, trees: seq<Tree>, ios: seq<Inputs>, cios: seq<ContentsInputs>, c: string, a: Algorithm,
                 parts: seq<seq<Entry>>, n: nat)
    requires NoDup(cfg.components) && c in cfg.components && |ios| == |cios| && n < |parts|
    requires ContentsLogged(cfg, trees, ios, cios, c, a, parts)
    ensures |parts[n]| <= ContentsPerRun(cfg)
  {
    hide DirOf, AllJobs, ContentsPerRun, ContentsBatch;
    WholeBatchSize(cfg, ios[n], cios[n], c, a);
    assert WrotePart(DirOver(trees, ByHashDir([c], a))[n], DirOver(trees, ByHashDir([c], a))[n + 1], TriedBatches(cfg, ios, cios, c, a)[n],
                     Keep(cfg), parts[n]);
  }

  lemma WholeBatchSize(cfg: Config, io: Inputs, cio: ContentsInputs, c: string, a: Algorithm)
    requires NoDup(cfg.components) && c in cfg.components
    ensures |ContentsBatch(io, cio, AllJobs(cfg), c, a)| == ContentsPerRun(cfg)
  {
    hide ContentsBatch, ContentsPerRun;
    assert cfg.components[..|cfg.components|] == cfg.components;
    ContentsBatchSize(cfg, io, cio, c, a, |cfg.components|);
  }
}
