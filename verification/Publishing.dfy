/** A repository that is published again and again, and what its clients can rely on. */
module Publishing {
  import opened Common
  import opened Filesystem
  import opened ByHashDirectory
  import opened Indices
  import opened ByHashUpdate
  import opened Contents
  import opened Layout
  import opened ContentsGenerator
  import opened R = Release
  import opened Retention
  import opened ContentsRetention
  import opened Fetching
  import Archive
  import AsyncRepository

  /** The first `n` publications succeeded, and are these runs. */
  ghost predicate AreRuns(cfg: Config, trees: seq<Tree>, ios: seq<Inputs>, cios: seq<ContentsInputs>, runs: seq<Publication>)
    requires |ios| == |cios|
  {
    && |trees| == |runs| + 1 && |runs| <= |ios|
    && Series(cfg, trees[0], runs)
    && forall k :: 0 <= k < |runs| ==> runs[k].io == ios[k] && runs[k].cio == cios[k] && runs[k].finished == trees[k + 1]
  }

  /** The last attempt succeeded. */
  ghost predicate Succeeded(cfg: Config, io: Inputs, cio: ContentsInputs, before: Tree, after: Tree) {
    exists generated :: Published(cfg, io, before, generated) && HasClock(generated) && Spliced(cfg, io, cio, generated, after)
  }

  ghost predicate AllFetchable(cfg: Config, t: Tree, hash: (Algorithm, Bytes) -> string) {
    forall f :: f in Archive.ListedFiles(t) ==> EntryFetchable(cfg, t, hash, f)
  }

  /** By-hash files are configured, and enough of them are kept for one publication. */
  ghost predicate KeepsOne(cfg: Config) {
    && NamesApart(cfg) && cfg.acquireByHash && cfg.byHashKeep.Some? && cfg.algorithms != []
    && |cfg.compressions| <= Keep(cfg) && ContentsPerRun(cfg) <= Keep(cfg)
  }

  predicate AllDone(done: seq<bool>) {
    forall k :: 0 <= k < |done| ==> done[k]
  }

  lemma OneMoreDone(done: seq<bool>, ok: bool)
    ensures AllDone(done + [ok]) <==> AllDone(done) && ok
  {
    var more := done + [ok];
    assert more[|done|] == ok && forall k :: 0 <= k < |done| ==> more[k] == done[k];
  }

  /** Publish each of the inputs in turn, whatever becomes of the others. The attempts are
      as the theorems about retention want them; if all succeed, they are a series; and
      whenever the last one has succeeded, everything that Release lists can be fetched
      by hash. */
  method PublishAll(disk: Disk, cfg: Config, ios: seq<Inputs>, cios: seq<ContentsInputs>)
    returns (done: seq<bool>, ghost trees: seq<Tree>, ghost runs: seq<Publication>)
    requires disk.Valid() && NamesApart(cfg) && |ios| == |cios|
    modifies disk
    ensures disk.Valid() && |done| == |ios|
    ensures Tried(cfg, trees, ios) && ContentsTried(cfg, trees, ios, cios)
    ensures trees[0] == old(disk.files) && trees[|ios|] == disk.files
    ensures AllDone(done) ==> |runs| == |ios| && AreRuns(cfg, trees, ios, cios, runs)
    ensures forall k :: 0 <= k < |done| && done[k] && cfg.algorithms != [] ==> Archive.ReleaseAgrees(cfg, ios[k], trees[k + 1])
    ensures forall k :: 0 <= k < |done| && done[k] ==> HasIndices(cfg, ios[k], trees[k + 1]) && HasAllContents(cfg, ios[k], cios[k], trees[k + 1])
    ensures ios != [] && done[|ios| - 1] && KeepsOne(cfg) && NoByHash(cfg, old(disk.files)) ==>
      AllFetchable(cfg, disk.files, ios[|ios| - 1].hash)
  {
    hide NamesApart, Stamped, Archive.ReleaseAgrees, Archive.PublicationOutcome, AsyncRepository.TargetsAttempted, ContentsAttempted,
         Succeeded, AllFetchable, KeepsOne, AreRuns, AllDone, Tried, ContentsTried, NoByHash, AllTargets, AllJobs,
         HasIndices, HasAllContents;
    done, trees, runs := [], [disk.files], [];
    assert HasClock(disk.files);
    NothingTried(cfg, disk.files);
    assert ios[..0] == [] && cios[..0] == [];
    for n := 0 to |ios|
      invariant disk.Valid() && |done| == n && |trees| == n + 1
      invariant trees[0] == old(disk.files) && trees[n] == disk.files
      invariant Tried(cfg, trees, ios[..n]) && ContentsTried(cfg, trees, ios[..n], cios[..n])
      invariant AllDone(done) ==> |runs| == n && AreRuns(cfg, trees, ios[..n], cios[..n], runs)
      invariant forall k :: 0 <= k < n && done[k] && cfg.algorithms != [] ==> Archive.ReleaseAgrees(cfg, ios[k], trees[k + 1])
      invariant forall k :: 0 <= k < n && done[k] ==> HasIndices(cfg, ios[k], trees[k + 1]) && HasAllContents(cfg, ios[k], cios[k], trees[k + 1])
      invariant n > 0 && done[n - 1] ==> Succeeded(cfg, ios[n - 1], cios[n - 1], trees[n - 1], trees[n])
    {
      ghost var before := disk.files;
      var ok;
      ghost var reached;
      ok, reached := Archive.GenerateRepository(disk, cfg, ios[n], cios[n]);
      assert HasClock(disk.files);
      TriedOnce(cfg, trees, ios, cios, n, disk.files);
      if ok {
        assert Succeeded(cfg, ios[n], cios[n], before, disk.files) by { CompleteSucceeds(cfg, ios[n], cios[n], before, disk.files); }
        if AllDone(done) {
          ghost var run := NextRun(cfg, trees, ios, cios, runs, disk.files);
          runs := runs + [run];
        }
      }
      OneMoreDone(done, ok);
      done := done + [ok];
      trees := trees + [disk.files];
    }
    assert ios[..|ios|] == ios && cios[..|cios|] == cios;
    if ios != [] && done[|ios| - 1] && KeepsOne(cfg) && NoByHash(cfg, trees[0]) {
      LastIsFetchable(cfg, trees, ios, cios);
    }
  }

  lemma NothingTried(cfg: Config, t: Tree)
    requires HasClock(t)
    ensures Tried(cfg, [t], []) && ContentsTried(cfg, [t], [], []) && AreRuns(cfg, [t], [], [], [])
  {
    hide HasClock;
  }

  lemma TriedOnce(cfg: Config, trees: seq<Tree>, ios: seq<Inputs>, cios: seq<ContentsInputs>, n: nat, after: Tree)
    requires n < |ios| == |cios| && |trees| == n + 1 && HasClock(after)
    requires Tried(cfg, trees, ios[..n]) && ContentsTried(cfg, trees, ios[..n], cios[..n])
    requires AsyncRepository.TargetsAttempted(cfg, ios[n], AllTargets(cfg, ios[n]), trees[n], after)
    requires ContentsAttempted(cfg, ios[n], cios[n], AllJobs(cfg), trees[n], after)
    ensures Tried(cfg, trees + [after], ios[..n + 1]) && ContentsTried(cfg, trees + [after], ios[..n + 1], cios[..n + 1])
  {
    hide HasClock, AsyncRepository.TargetsAttempted, ContentsAttempted, AllTargets, AllJobs;
    var more, some, csome := trees + [after], ios[..n + 1], cios[..n + 1];
    forall k | 0 <= k < n + 1
      ensures AsyncRepository.TargetsAttempted(cfg, some[k], AllTargets(cfg, some[k]), more[k], more[k + 1])
    {
      if k < n { assert some[k] == ios[..n][k]; }
    }
    forall k | 0 <= k < n + 1
      ensures ContentsAttempted(cfg, some[k], csome[k], AllJobs(cfg), more[k], more[k + 1])
    {
      if k < n { assert some[k] == ios[..n][k] && csome[k] == cios[..n][k]; }
    }
  }

  lemma CompleteSucceeds(cfg: Config, io: Inputs, cio: ContentsInputs, before: Tree, after: Tree)
    requires Archive.PublicationOutcome(cfg, io, cio, before, after, Archive.Complete)
    ensures Succeeded(cfg, io, cio, before, after)
  {
    hide Published, Spliced, HasClock;
  }

  lemma NextRun(cfg: Config, trees: seq<Tree>, ios: seq<Inputs>, cios: seq<ContentsInputs>, runs: seq<Publication>, after: Tree)
    returns (run: Publication)
    requires |runs| < |ios| == |cios| && AreRuns(cfg, trees, ios[..|runs|], cios[..|runs|], runs)
    requires Succeeded(cfg, ios[|runs|], cios[|runs|], trees[|runs|], after) && HasClock(after)
    ensures AreRuns(cfg, trees + [after], ios[..|runs| + 1], cios[..|runs| + 1], runs + [run])
  {
    hide Published, Spliced, HasClock, Series;
    var n := |runs|;
    var generated :| Published(cfg, ios[n], trees[n], generated) && HasClock(generated) && Spliced(cfg, ios[n], cios[n], generated, after);
    run := Publication(ios[n], cios[n], generated, after);
    assert Last(trees[0], runs) == trees[n];
    SeriesExtends(cfg, trees[0], runs, run);
    assert (trees + [after])[0] == trees[0];
    forall k | 0 <= k < n + 1
      ensures (runs + [run])[k].io == ios[..n + 1][k] && (runs + [run])[k].cio == cios[..n + 1][k]
        && (runs + [run])[k].finished == (trees + [after])[k + 1]
    {
      if k < n { assert runs[k].io == ios[..n][k] && runs[k].cio == cios[..n][k]; }
    }
  }

  lemma LastIsFetchable(cfg: Config, trees: seq<Tree>, ios: seq<Inputs>, cios: seq<ContentsInputs>)
    requires Tried(cfg, trees, ios) && ContentsTried(cfg, trees, ios, cios) && |trees| == |ios| + 1 == |cios| + 1 && ios != []
    requires Succeeded(cfg, ios[|ios| - 1], cios[|ios| - 1], trees[|ios| - 1], trees[|ios|])
    requires KeepsOne(cfg) && NoByHash(cfg, trees[0])
    ensures AllFetchable(cfg, trees[|ios|], ios[|ios| - 1].hash)
  {
    hide Published, Spliced, HasClock, Tried, ContentsTried, NoByHash, EntryFetchable, Archive.ListedFiles, NamesApart;
    var n := |ios| - 1;
    var generated :| Published(cfg, ios[n], trees[n], generated) && HasClock(generated) && Spliced(cfg, ios[n], cios[n], generated, trees[n + 1]);
    LatestReleaseFetchable(cfg, trees, ios, cios, generated);
  }
}
