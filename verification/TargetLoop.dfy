/** What a pass of the loops over the targets leaves alone: other targets' by-hash
    directories, and everything that is not among the files being made. */
module TargetLoop {
  import opened Common
  import opened Filesystem
  import opened ByHash
  import opened ByHashDirectory
  import opened Indices
  import opened ByHashUpdate
  import opened R = Release

  /** Everything but the by-hash directories of `dir` and the files `temps` is unchanged. */
  ghost predicate OnlyByHashAnd(cfg: Config, dir: Path, temps: seq<Path>, before: Tree, after: Tree) {
    forall p :: p !in temps && !(cfg.acquireByHash && InByHash(cfg, dir, p)) ==> SameAt(after, before, p)
  }

  /** Everything but by-hash files of `ts` and the files `temps` is unchanged. */
  ghost predicate Untouched(cfg: Config, ts: seq<Target>, temps: seq<Path>, before: Tree, now: Tree) {
    forall p :: p !in temps && !(cfg.acquireByHash && InAnyByHash(cfg, ts, p)) ==> SameAt(now, before, p)
  }

  lemma {:induction false} FileDirs(cfg: Config, io: Inputs, ts: seq<Target>)
    requires forall i :: 0 <= i < |ts| ==> |ts[i].dir| == 2
    ensures forall k :: 0 <= k < |AllFiles(cfg, io, ts)| ==> |AllFiles(cfg, io, ts)[k].dir| == 2
    decreases |ts|
  {
    if ts != [] { FileDirs(cfg, io, ts[..|ts| - 1]); }
  }

  lemma ByHashPathsAreLong(cfg: Config, ts: seq<Target>, p: Path)
    requires forall i :: 0 <= i < |ts| ==> |ts[i].dir| == 2
    requires InAnyByHash(cfg, ts, p)
    ensures |p| == 5
  {
  }

  lemma DirOfByHashFile(cfg: Config, dir: Path, other: Path, p: Path)
    requires |dir| == |other| && InByHash(cfg, dir, p)
    ensures InByHash(cfg, other, p) ==> dir == other
  {
    assert p[..|dir|] == dir;
    if InByHash(cfg, other, p) {
      assert p[..|dir|] == other;
    }
  }

  lemma OtherDirIsFresh(cfg: Config, ts: seq<Target>, t: Target, i: nat, a: Algorithm, p: Path)
    requires NewDir(ts, t) && i < |ts| && IsChild(p, ByHashDir(ts[i].dir, a))
    ensures |p| == 5 && !InByHash(cfg, t.dir, p)
  {
    assert p[..2] == ts[i].dir;
  }

  /** Staging a new target leaves the by-hash directories of the earlier ones alone. */
  lemma EarlierDirsKept(cfg: Config, ts: seq<Target>, t: Target, now: Tree, after: Tree, clock: nat, temps: seq<Path>)
    requires NewDir(ts, t) && Stamped(now, clock) && OnlyByHashAnd(cfg, t.dir, temps, now, after)
    requires forall p :: p in temps ==> |p| == 3
    ensures forall i, a :: 0 <= i < |ts| ==> DirOf(after, ByHashDir(ts[i].dir, a)) == DirOf(now, ByHashDir(ts[i].dir, a))
  {
    hide DirOf, Stamped, InByHash;
    forall i, a | 0 <= i < |ts|
      ensures DirOf(after, ByHashDir(ts[i].dir, a)) == DirOf(now, ByHashDir(ts[i].dir, a))
    {
      forall n ensures SameAt(now, after, Child(ByHashDir(ts[i].dir, a), n)) {
        OtherDirIsFresh(cfg, ts, t, i, a, Child(ByHashDir(ts[i].dir, a), n));
        assert SameAt(after, now, Child(ByHashDir(ts[i].dir, a), n));
      }
      DirUnchanged(now, after, clock, ByHashDir(ts[i].dir, a));
    }
  }

  /** Nothing has touched the by-hash directories of a target that is still to come. */
  lemma LaterDirsKept(cfg: Config, ts: seq<Target>, t: Target, before: Tree, now: Tree, clock: nat, temps: seq<Path>)
    requires NewDir(ts, t) && Stamped(before, clock) && Untouched(cfg, ts, temps, before, now)
    requires forall p :: p in temps ==> |p| == 3
    ensures SameDirs(t.dir, before, now)
  {
    hide DirOf, Stamped, InAnyByHash;
    forall a ensures DirOf(before, ByHashDir(t.dir, a)) == DirOf(now, ByHashDir(t.dir, a)) {
      forall n ensures SameAt(before, now, Child(ByHashDir(t.dir, a), n)) {
        NotOfOtherDirs(cfg, ts, t, a, n);
        assert SameAt(now, before, Child(ByHashDir(t.dir, a), n));
      }
      DirUnchanged(before, now, clock, ByHashDir(t.dir, a));
    }
  }

  lemma NotOfOtherDirs(cfg: Config, ts: seq<Target>, t: Target, a: Algorithm, name: string)
    requires NewDir(ts, t)
    ensures !InAnyByHash(cfg, ts, Child(ByHashDir(t.dir, a), name)) && |Child(ByHashDir(t.dir, a), name)| == 5
  {
    var p := Child(ByHashDir(t.dir, a), name);
    assert p[..2] == t.dir;
    forall i | 0 <= i < |ts| ensures !InByHash(cfg, ts[i].dir, p) {
      OwnerOf(cfg, ts[i].dir, p);
    }
  }

  /** The path of a by-hash file tells whose it is. */
  lemma OwnerOf(cfg: Config, dir: Path, p: Path)
    requires |dir| == 2 && |p| == 5
    ensures InByHash(cfg, dir, p) ==> p[..2] == dir
  {
    if b :| b in cfg.algorithms && IsChild(p, ByHashDir(dir, b)) {
      assert p[..2] == p[..4][..2] == dir;
    }
  }

  lemma NotInAnyByHash(cfg: Config, ts: seq<Target>, p: Path)
    requires |p| != 5 && forall i :: 0 <= i < |ts| ==> |ts[i].dir| == 2
    ensures !InAnyByHash(cfg, ts, p)
  {
    forall i | 0 <= i < |ts| ensures !InByHash(cfg, ts[i].dir, p) {
      NotAmongByHash(cfg, ts[i].dir, p);
    }
  }

  lemma UntouchedTogether(cfg: Config, ts: seq<Target>, t: Target, before: Tree, now: Tree, after: Tree,
                          temps: seq<Path>, moreTemps: seq<Path>)
    requires Untouched(cfg, ts, temps, before, now) && OnlyByHashAnd(cfg, t.dir, moreTemps, now, after)
    ensures Untouched(cfg, ts + [t], temps + moreTemps, before, after)
  {
    forall p | p !in temps + moreTemps && !(cfg.acquireByHash && InAnyByHash(cfg, ts + [t], p))
      ensures SameAt(after, before, p)
    {
      if cfg.acquireByHash {
        assert (ts + [t])[|ts|] == t;
        assert forall i :: 0 <= i < |ts| ==> (ts + [t])[i] == ts[i];
        assert !InByHash(cfg, t.dir, p) && !InAnyByHash(cfg, ts, p);
      }
      assert SameAt(now, before, p) && SameAt(after, now, p);
    }
  }

  lemma ByHashTogether(cfg: Config, io: Inputs, ts: seq<Target>, t: Target, before: Tree, now: Tree, after: Tree)
    requires ByHashUpdated(cfg, io, ts, before, now) && DirsAfter(cfg, io, t.dir, FilesOf(cfg, io, t), now, after)
    requires forall i, a :: 0 <= i < |ts| ==> DirOf(after, ByHashDir(ts[i].dir, a)) == DirOf(now, ByHashDir(ts[i].dir, a))
    requires forall a :: a in cfg.algorithms ==> DirOf(now, ByHashDir(t.dir, a)) == DirOf(before, ByHashDir(t.dir, a))
    ensures ByHashUpdated(cfg, io, ts + [t], before, after)
  {
    hide DirOf, TouchAll, Pruned, FilesOf, ByHashEntries;
  }

  lemma UntouchedMore(cfg: Config, ts: seq<Target>, all: seq<Target>, temps: seq<Path>, before: Tree, now: Tree)
    requires ts <= all && Untouched(cfg, ts, temps, before, now)
    ensures Untouched(cfg, all, temps, before, now)
  {
    hide InByHash;
    forall p | !InAnyByHash(cfg, all, p) ensures !InAnyByHash(cfg, ts, p) {
      assert forall i :: 0 <= i < |ts| ==> ts[i] == all[i];
    }
  }

  lemma PrefixDirs(cfg: Config, io: Inputs, ts: seq<Target>)
    requires ts <= AllTargets(cfg, io)
    ensures forall i :: 0 <= i < |ts| ==> |ts[i].dir| == 2
  {
    forall i | 0 <= i < |ts| ensures |ts[i].dir| == 2 {
      assert ts[i] == AllTargets(cfg, io)[i];
      var _ := TargetShape(cfg, io, |cfg.components|, i);
    }
  }

  lemma OneUnavailable(cfg: Config, io: Inputs, ts: seq<Target>, t: Target)
    requires ts + [t] <= AllTargets(cfg, io)
    ensures AllAvailable(cfg, io, AllTargets(cfg, io)) ==> Available(cfg, io, t)
  {
    hide Available, AllTargets;
    assert AllTargets(cfg, io)[|ts|] == t;
  }
}
