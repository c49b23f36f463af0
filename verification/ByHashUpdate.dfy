/** Copying the files of one index into its by-hash directories, and pruning these.
    Both generators use it; they differ in where they copy from. */
module ByHashUpdate {
  import opened Common
  import opened Filesystem
  import opened ByHash
  import opened ByHashDirectory
  import opened Indices
  import opened R = Release

  /** `sources[k]` holds the bytes of `files[k]`. */
  ghost predicate Holding(t: Tree, files: seq<IndexFile>, sources: seq<Path>) {
    && |files| == |sources|
    && forall k :: 0 <= k < |files| ==> sources[k] in t && t[sources[k]].content == Blob(files[k].bytes)
  }

  function Keep(cfg: Config): nat {
    cfg.byHashKeep.GetOr(0)
  }

  /** Of the copies of `files`, each by-hash directory of `dir` has got the first ones. */
  ghost predicate AllCopied(cfg: Config, io: Inputs, dir: Path, files: seq<IndexFile>, before: Tree, after: Tree) {
    forall a :: a in cfg.algorithms ==>
      Copied(DirOf(before, ByHashDir(dir, a)), DirOf(after, ByHashDir(dir, a)), ByHashEntries(io, files, a))
  }

  /** And when it got all of them, it may have been pruned, if pruning is configured. */
  ghost predicate AllAttempted(cfg: Config, io: Inputs, dir: Path, files: seq<IndexFile>, before: Tree, after: Tree) {
    forall a :: a in cfg.algorithms ==>
      Attempted(DirOf(before, ByHashDir(dir, a)), DirOf(after, ByHashDir(dir, a)), ByHashEntries(io, files, a), cfg.byHashKeep)
  }

  /** The copying has stopped in the directory of algorithm `n`: the ones before it have
      got all copies, it has got the first ones, and the ones after it none. */
  ghost predicate CopiedUpTo(cfg: Config, io: Inputs, dir: Path, files: seq<IndexFile>, before: Tree, after: Tree, n: nat) {
    forall i :: 0 <= i < |cfg.algorithms| ==>
      var a := cfg.algorithms[i];
      var s, t, batch := DirOf(before, ByHashDir(dir, a)), DirOf(after, ByHashDir(dir, a)), ByHashEntries(io, files, a);
      if i < n then t == TouchAll(s, batch) else if i == n then Copied(s, t, batch) else t == s
  }

  /** Everything has been copied, and the pruning has stopped in the directory of algorithm `n`. */
  ghost predicate PrunedInto(cfg: Config, io: Inputs, dir: Path, files: seq<IndexFile>, before: Tree, after: Tree, n: nat) {
    forall i :: 0 <= i < |cfg.algorithms| ==>
      var a := cfg.algorithms[i];
      var s, t := TouchAll(DirOf(before, ByHashDir(dir, a)), ByHashEntries(io, files, a)), DirOf(after, ByHashDir(dir, a));
      if i < n then t == Newest(s, Keep(cfg)) else if i == n then PartlyPruned(s, t, Keep(cfg)) else t == s
  }

  /** What a failed update leaves: at most one directory is between two states. */
  ghost predicate UpdateStopped(cfg: Config, io: Inputs, dir: Path, files: seq<IndexFile>, before: Tree, after: Tree) {
    exists n: nat ::
      || CopiedUpTo(cfg, io, dir, files, before, after, n)
      || (cfg.byHashKeep.Some? && PrunedInto(cfg, io, dir, files, before, after, n))
  }

  lemma CopiedUpToAll(cfg: Config, io: Inputs, dir: Path, files: seq<IndexFile>, before: Tree, after: Tree, n: nat)
    requires CopiedUpTo(cfg, io, dir, files, before, after, n)
    ensures AllCopied(cfg, io, dir, files, before, after)
  {
    hide DirOf, TouchAll, ByHashEntries, Copied;
    forall a | a in cfg.algorithms
      ensures Copied(DirOf(before, ByHashDir(dir, a)), DirOf(after, ByHashDir(dir, a)), ByHashEntries(io, files, a))
    {
      var i :| 0 <= i < |cfg.algorithms| && cfg.algorithms[i] == a;
      CopiedAllOrNothing(DirOf(before, ByHashDir(dir, a)), ByHashEntries(io, files, a));
    }
  }

  ghost predicate AllPartlyPruned(cfg: Config, dir: Path, before: Tree, after: Tree) {
    forall a :: a in cfg.algorithms ==> PartlyPruned(DirOf(before, ByHashDir(dir, a)), DirOf(after, ByHashDir(dir, a)), Keep(cfg))
  }

  /** Nothing but the by-hash directories of `dir` has changed. */
  ghost predicate OnlyByHash(cfg: Config, dir: Path, before: Tree, after: Tree) {
    forall p :: !InByHash(cfg, dir, p) ==> SameAt(after, before, p)
  }

  lemma NotAmongByHash(cfg: Config, dir: Path, p: Path)
    requires |p| != |dir| + 3
    ensures !InByHash(cfg, dir, p)
  {
  }

  /** The by-hash directories of `dir` are the same in both trees. */
  ghost predicate SameDirs(dir: Path, t: Tree, u: Tree) {
    forall a :: DirOf(t, ByHashDir(dir, a)) == DirOf(u, ByHashDir(dir, a))
  }

  lemma SameAsItself(dir: Path, t: Tree)
    ensures SameDirs(dir, t, t)
  {
    hide DirOf;
  }

  lemma SameFilesSameDirs(dir: Path, t: Tree, u: Tree, clock: nat)
    requires Stamped(t, clock)
    requires forall p :: |p| == |dir| + 3 ==> SameAt(u, t, p)
    ensures SameDirs(dir, t, u)
  {
    hide DirOf, Stamped;
    forall a ensures DirOf(t, ByHashDir(dir, a)) == DirOf(u, ByHashDir(dir, a)) {
      forall n ensures SameAt(t, u, Child(ByHashDir(dir, a), n)) {
        assert SameAt(u, t, Child(ByHashDir(dir, a), n));
      }
      DirUnchanged(t, u, clock, ByHashDir(dir, a));
    }
  }

  lemma AttemptedBetween(cfg: Config, io: Inputs, dir: Path, files: seq<IndexFile>, t: Tree, u: Tree, v: Tree, w: Tree)
    requires SameDirs(dir, t, u) && AllAttempted(cfg, io, dir, files, u, v) && SameDirs(dir, v, w)
    ensures AllAttempted(cfg, io, dir, files, t, w)
  {
    hide DirOf, Attempted;
  }

  /** What a generation has done to the by-hash directories of a target: nothing when its
      index cannot be made, or when by-hash files are not wanted. */
  ghost predicate TargetAttempted(cfg: Config, io: Inputs, t: Target, before: Tree, after: Tree) {
    if cfg.acquireByHash && Available(cfg, io, t) then AllAttempted(cfg, io, t.dir, FilesOf(cfg, io, t), before, after)
    else SameDirs(t.dir, before, after)
  }

  lemma TargetAttemptedBetween(cfg: Config, io: Inputs, target: Target, t: Tree, u: Tree, v: Tree, w: Tree)
    requires SameDirs(target.dir, t, u) && TargetAttempted(cfg, io, target, u, v) && SameDirs(target.dir, v, w)
    ensures TargetAttempted(cfg, io, target, t, w)
  {
    hide DirOf, AllAttempted, Available, FilesOf;
    if cfg.acquireByHash && Available(cfg, io, target) {
      AttemptedBetween(cfg, io, target.dir, FilesOf(cfg, io, target), t, u, v, w);
    }
  }

  lemma TargetNotAttempted(cfg: Config, io: Inputs, t: Target, before: Tree, after: Tree)
    requires SameDirs(t.dir, before, after)
    ensures TargetAttempted(cfg, io, t, before, after)
  {
    hide AllAttempted, Available, FilesOf, SameDirs;
    if cfg.acquireByHash && Available(cfg, io, t) {
      var files := FilesOf(cfg, io, t);
      NothingAttempted(cfg, io, t.dir, files, before);
      SameAsItself(t.dir, before);
      AttemptedBetween(cfg, io, t.dir, files, before, before, before, after);
    }
  }

  /** And when its staging failed: nothing, or an update that stopped. */
  ghost predicate TargetStopped(cfg: Config, io: Inputs, t: Target, before: Tree, after: Tree) {
    || SameDirs(t.dir, before, after)
    || (cfg.acquireByHash && Available(cfg, io, t) && UpdateStopped(cfg, io, t.dir, FilesOf(cfg, io, t), before, after))
  }

  lemma StoppedBetween(cfg: Config, io: Inputs, dir: Path, files: seq<IndexFile>, t: Tree, u: Tree, v: Tree, w: Tree)
    requires SameDirs(dir, t, u) && UpdateStopped(cfg, io, dir, files, u, v) && SameDirs(dir, v, w)
    ensures UpdateStopped(cfg, io, dir, files, t, w)
  {
    hide DirOf, TouchAll, ByHashEntries, Copied, Newest, PartlyPruned;
    var n: nat :| CopiedUpTo(cfg, io, dir, files, u, v, n) || (cfg.byHashKeep.Some? && PrunedInto(cfg, io, dir, files, u, v, n));
    if CopiedUpTo(cfg, io, dir, files, u, v, n) {
      assert CopiedUpTo(cfg, io, dir, files, t, w, n);
    } else {
      assert PrunedInto(cfg, io, dir, files, t, w, n);
    }
  }

  lemma TargetStoppedBetween(cfg: Config, io: Inputs, target: Target, t: Tree, u: Tree, v: Tree, w: Tree)
    requires SameDirs(target.dir, t, u) && TargetStopped(cfg, io, target, u, v) && SameDirs(target.dir, v, w)
    ensures TargetStopped(cfg, io, target, t, w)
  {
    hide DirOf, UpdateStopped, Available, FilesOf;
    if !SameDirs(target.dir, u, v) {
      StoppedBetween(cfg, io, target.dir, FilesOf(cfg, io, target), t, u, v, w);
    }
  }

  lemma DirsAfterFrom(cfg: Config, io: Inputs, dir: Path, files: seq<IndexFile>, t: Tree, u: Tree, v: Tree, w: Tree)
    requires SameDirs(dir, t, u) && DirsAfter(cfg, io, dir, files, u, v) && SameDirs(dir, v, w)
    ensures DirsAfter(cfg, io, dir, files, t, w)
  {
    hide DirOf, TouchAll, Pruned, ByHashEntries;
  }

  /** The effect of one copy on its by-hash directory, whether it succeeds or not. */
  lemma CopyEffect(t: Tree, u: Tree, clock: nat, dir: Path, name: string)
    requires Stamped(t, clock)
    requires SameAt(u, t, Child(dir, name)) || (Child(dir, name) in u && u[Child(dir, name)].mtime == clock)
    requires forall q :: q != Child(dir, name) ==> SameAt(u, t, q)
    ensures DirOf(u, dir) ==
      if Child(dir, name) in u && u[Child(dir, name)].mtime == clock
      then Touch(DirOf(t, dir), Entry(name, u[Child(dir, name)].content))
      else DirOf(t, dir)
  {
    if Child(dir, name) in u && u[Child(dir, name)].mtime == clock {
      var e := Entry(name, u[Child(dir, name)].content);
      forall n | n != name ensures SameAt(t, u, Child(dir, n)) {
        assert Child(dir, n)[|dir|] != Child(dir, name)[|dir|];
        assert SameAt(u, t, Child(dir, n));
      }
      DirAfterWrite(t, u, clock, dir, e);
    } else {
      forall n ensures SameAt(t, u, Child(dir, n)) {
        assert SameAt(u, t, Child(dir, n));
      }
      DirUnchanged(t, u, clock, dir);
    }
  }

  /** The effect of copy `k` on a directory that has got the copies before it. */
  lemma CopyOne(t: Tree, u: Tree, clock: nat, dir: Path, before: seq<Entry>, entries: seq<Entry>, k: nat, ok: bool)
    requires Stamped(t, clock) && k < |entries| && DirOf(t, dir) == TouchAll(before, entries[..k])
    requires
      var p := Child(dir, entries[k].name);
      && (ok ==> p in u && u[p] == File(entries[k].content, clock))
      && (SameAt(u, t, p) || (p in u && u[p].mtime == clock))
      && forall q :: q != p ==> SameAt(u, t, q)
    ensures Copied(before, DirOf(u, dir), entries)
    ensures ok ==> DirOf(u, dir) == TouchAll(before, entries[..k + 1])
  {
    hide DirOf, Stamped, Copied;
    CopyEffect(t, u, clock, dir, entries[k].name);
    assert entries[..k + 1][..k] == entries[..k];
    var p := Child(dir, entries[k].name);
    if p in u && u[p].mtime == clock {
      CopiedBroken(before, entries, k, u[p].content);
    } else {
      CopiedSome(before, entries, k);
    }
  }

  /** Copy every file into the by-hash directory of one algorithm. */
  method LinkInto(disk: Disk, cfg: Config, ghost io: Inputs, a: Algorithm, byHash: Path,
                  records: seq<HashedFile>, sources: seq<Path>, ghost files: seq<IndexFile>)
    returns (ok: bool)
    requires disk.Valid() && |records| == |files| && Holding(disk.files, files, sources)
    requires forall k :: 0 <= k < |files| ==> a in records[k].hashes && records[k].hashes[a] == io.hash(a, files[k].bytes)
    requires forall k :: 0 <= k < |sources| ==> !IsChild(sources[k], byHash)
    modifies disk
    ensures disk.Valid()
    ensures !ok ==> disk.failed
    ensures ok ==> DirOf(disk.files, byHash) == TouchAll(DirOf(old(disk.files), byHash), ByHashEntries(io, files, a))
    ensures Copied(DirOf(old(disk.files), byHash), DirOf(disk.files, byHash), ByHashEntries(io, files, a))
    ensures forall p :: !IsChild(p, byHash) ==> SameAt(disk.files, old(disk.files), p)
  {
    hide DirOf, Stamped, Copied, TouchAll;
    ghost var before := DirOf(disk.files, byHash);
    ghost var entries := ByHashEntries(io, files, a);
    assert TouchAll(before, entries[..0]) == before && Copied(before, before, entries) by { hide *; CopiedAllOrNothing(before, entries); }
    for k := 0 to |records|
      invariant disk.Valid() && Holding(disk.files, files, sources)
      invariant DirOf(disk.files, byHash) == TouchAll(before, entries[..k])
      invariant Copied(before, DirOf(disk.files, byHash), entries)
      invariant forall p :: !IsChild(p, byHash) ==> SameAt(disk.files, old(disk.files), p)
    {
      if a in records[k].hashes {
        ghost var now, clock := disk.files, disk.clock;
        var copied := disk.Copy(sources[k], Child(byHash, records[k].hashes[a]));
        CopyOne(now, disk.files, clock, byHash, before, entries, k, copied);
        forall p | !IsChild(p, byHash)
          ensures SameAt(disk.files, now, p) && SameAt(disk.files, old(disk.files), p)
        {
          assert SameAt(now, old(disk.files), p);
        }
        assert forall j :: 0 <= j < |sources| ==> SameAt(disk.files, now, sources[j]);
        if !copied {
          return false;
        }
      }
    }
    assert entries[..|records|] == entries;
    ok := true;
  }

  ghost predicate Linked(cfg: Config, io: Inputs, dir: Path, files: seq<IndexFile>, before: Tree, after: Tree, n: nat)
    requires n <= |cfg.algorithms|
  {
    forall i :: 0 <= i < |cfg.algorithms| ==>
      var d := ByHashDir(dir, cfg.algorithms[i]);
      DirOf(after, d) ==
        if i < n then TouchAll(DirOf(before, d), ByHashEntries(io, files, cfg.algorithms[i])) else DirOf(before, d)
  }

  /** One algorithm's directory has been updated; carry over the facts about the others. */
  lemma LinkedNext(cfg: Config, io: Inputs, dir: Path, files: seq<IndexFile>, before: Tree, now: Tree, after: Tree, clock: nat, n: nat)
    requires NoDup(cfg.algorithms) && n < |cfg.algorithms| && Stamped(now, clock)
    requires Linked(cfg, io, dir, files, before, now, n)
    requires var d := ByHashDir(dir, cfg.algorithms[n]);
      && (forall p :: !IsChild(p, d) ==> SameAt(after, now, p))
      && DirOf(after, d) == TouchAll(DirOf(now, d), ByHashEntries(io, files, cfg.algorithms[n]))
    ensures Linked(cfg, io, dir, files, before, after, n + 1)
  {
    hide DirOf, Stamped, TouchAll, ByHashEntries;
    forall i | 0 <= i < |cfg.algorithms| && i != n
      ensures DirOf(after, ByHashDir(dir, cfg.algorithms[i])) == DirOf(now, ByHashDir(dir, cfg.algorithms[i]))
    {
      ByHashDirsDiffer(dir, cfg.algorithms[n], dir, cfg.algorithms[i]);
      OtherDirUnchanged(now, after, clock, ByHashDir(dir, cfg.algorithms[n]), ByHashDir(dir, cfg.algorithms[i]));
    }
  }

  /** Copying has stopped in the directory of algorithm `n`. */
  lemma LinkedPart(cfg: Config, io: Inputs, dir: Path, files: seq<IndexFile>, before: Tree, now: Tree, after: Tree, clock: nat, n: nat)
    requires NoDup(cfg.algorithms) && n < |cfg.algorithms| && Stamped(now, clock)
    requires Linked(cfg, io, dir, files, before, now, n)
    requires var d := ByHashDir(dir, cfg.algorithms[n]);
      && (forall p :: !IsChild(p, d) ==> SameAt(after, now, p))
      && Copied(DirOf(now, d), DirOf(after, d), ByHashEntries(io, files, cfg.algorithms[n]))
    ensures CopiedUpTo(cfg, io, dir, files, before, after, n) && AllCopied(cfg, io, dir, files, before, after)
  {
    hide DirOf, Stamped, TouchAll, ByHashEntries, Copied;
    forall i | 0 <= i < |cfg.algorithms| && i != n
      ensures DirOf(after, ByHashDir(dir, cfg.algorithms[i])) == DirOf(now, ByHashDir(dir, cfg.algorithms[i]))
    {
      ByHashDirsDiffer(dir, cfg.algorithms[n], dir, cfg.algorithms[i]);
      OtherDirUnchanged(now, after, clock, ByHashDir(dir, cfg.algorithms[n]), ByHashDir(dir, cfg.algorithms[i]));
    }
    CopiedUpToAll(cfg, io, dir, files, before, after, n);
  }

  /** Copying has stopped between two directories, or at the end. */
  lemma LinkedIsCopied(cfg: Config, io: Inputs, dir: Path, files: seq<IndexFile>, before: Tree, now: Tree, n: nat)
    requires n <= |cfg.algorithms| && Linked(cfg, io, dir, files, before, now, n)
    ensures CopiedUpTo(cfg, io, dir, files, before, now, n) && AllCopied(cfg, io, dir, files, before, now)
  {
    hide DirOf, TouchAll, ByHashEntries, Copied;
    forall i | 0 <= i < |cfg.algorithms|
      ensures Copied(DirOf(before, ByHashDir(dir, cfg.algorithms[i])), DirOf(before, ByHashDir(dir, cfg.algorithms[i])),
                     ByHashEntries(io, files, cfg.algorithms[i]))
    {
      CopiedAllOrNothing(DirOf(before, ByHashDir(dir, cfg.algorithms[i])), ByHashEntries(io, files, cfg.algorithms[i]));
    }
    CopiedUpToAll(cfg, io, dir, files, before, now, n);
  }

  lemma NothingAttempted(cfg: Config, io: Inputs, dir: Path, files: seq<IndexFile>, t: Tree)
    ensures AllAttempted(cfg, io, dir, files, t, t)
  {
    hide DirOf, Attempted, ByHashEntries;
    forall a | a in cfg.algorithms
      ensures Attempted(DirOf(t, ByHashDir(dir, a)), DirOf(t, ByHashDir(dir, a)), ByHashEntries(io, files, a), cfg.byHashKeep)
    {
      var s := DirOf(t, ByHashDir(dir, a));
      CopiedAllOrNothing(s, ByHashEntries(io, files, a));
      CopiedIsAttempted(s, s, ByHashEntries(io, files, a), cfg.byHashKeep);
    }
  }

  lemma AllCopiedIsAttempted(cfg: Config, io: Inputs, dir: Path, files: seq<IndexFile>, before: Tree, after: Tree)
    requires AllCopied(cfg, io, dir, files, before, after)
    ensures AllAttempted(cfg, io, dir, files, before, after)
  {
    hide DirOf, Attempted, Copied, ByHashEntries;
    forall a | a in cfg.algorithms
      ensures Attempted(DirOf(before, ByHashDir(dir, a)), DirOf(after, ByHashDir(dir, a)), ByHashEntries(io, files, a), cfg.byHashKeep)
    {
      CopiedIsAttempted(DirOf(before, ByHashDir(dir, a)), DirOf(after, ByHashDir(dir, a)), ByHashEntries(io, files, a), cfg.byHashKeep);
    }
  }

  lemma LinkedThenPartlyPruned(cfg: Config, io: Inputs, dir: Path, files: seq<IndexFile>, before: Tree, now: Tree, after: Tree)
    requires Linked(cfg, io, dir, files, before, now, |cfg.algorithms|) && cfg.byHashKeep.Some?
    requires AllPartlyPruned(cfg, dir, now, after)
    ensures AllAttempted(cfg, io, dir, files, before, after)
  {
    hide DirOf, Attempted, PartlyPruned, TouchAll, ByHashEntries;
    forall a | a in cfg.algorithms
      ensures Attempted(DirOf(before, ByHashDir(dir, a)), DirOf(after, ByHashDir(dir, a)), ByHashEntries(io, files, a), cfg.byHashKeep)
    {
      var i :| 0 <= i < |cfg.algorithms| && cfg.algorithms[i] == a;
      PrunedIsAttempted(DirOf(before, ByHashDir(dir, a)), DirOf(after, ByHashDir(dir, a)), ByHashEntries(io, files, a), Keep(cfg));
    }
  }

  /** An update that was completed. */
  lemma UpdatedIsAttempted(cfg: Config, io: Inputs, dir: Path, files: seq<IndexFile>, before: Tree, after: Tree)
    requires DirsAfter(cfg, io, dir, files, before, after)
    ensures AllAttempted(cfg, io, dir, files, before, after)
  {
    hide DirOf, Attempted, Copied, TouchAll, ByHashEntries, Newest, PartlyPruned;
    forall a | a in cfg.algorithms
      ensures Attempted(DirOf(before, ByHashDir(dir, a)), DirOf(after, ByHashDir(dir, a)), ByHashEntries(io, files, a), cfg.byHashKeep)
    {
      var s, t, batch := DirOf(before, ByHashDir(dir, a)), DirOf(after, ByHashDir(dir, a)), ByHashEntries(io, files, a);
      if cfg.byHashKeep.Some? {
        PrunedOrNot(TouchAll(s, batch), Keep(cfg));
        PrunedIsAttempted(s, t, batch, Keep(cfg));
      } else {
        CopiedAllOrNothing(s, batch);
        CopiedIsAttempted(s, t, batch, cfg.byHashKeep);
      }
    }
  }

  lemma OnlyByHashNext(cfg: Config, dir: Path, before: Tree, now: Tree, after: Tree, n: nat)
    requires n < |cfg.algorithms| && OnlyByHash(cfg, dir, before, now)
    requires forall p :: !IsChild(p, ByHashDir(dir, cfg.algorithms[n])) ==> SameAt(after, now, p)
    ensures OnlyByHash(cfg, dir, before, after)
  {
    forall p | !InByHash(cfg, dir, p) ensures SameAt(after, before, p) {
      assert cfg.algorithms[n] in cfg.algorithms;
      assert SameAt(now, before, p);
    }
  }

  /** Copy every file into the by-hash directory of every algorithm. */
  method CreateByHashLinks(disk: Disk, cfg: Config, ghost io: Inputs, dir: Path,
                           records: seq<HashedFile>, sources: seq<Path>, ghost files: seq<IndexFile>)
    returns (ok: bool)
    requires disk.Valid() && NoDup(cfg.algorithms) && |records| == |files| && Holding(disk.files, files, sources)
    requires forall k :: 0 <= k < |files| ==> records[k].hashes == HashData(cfg, io, files[k].bytes)
    requires forall k :: 0 <= k < |sources| ==> |sources[k]| != |dir| + 3
    modifies disk
    ensures disk.Valid()
    ensures !ok ==> disk.failed
    ensures ok ==> Linked(cfg, io, dir, files, old(disk.files), disk.files, |cfg.algorithms|)
    ensures ok ==> AllThere(cfg, io, dir, files, disk.files)
    ensures !ok ==> exists n: nat :: CopiedUpTo(cfg, io, dir, files, old(disk.files), disk.files, n)
    ensures AllCopied(cfg, io, dir, files, old(disk.files), disk.files)
    ensures OnlyByHash(cfg, dir, old(disk.files), disk.files)
  {
    hide DirOf, Copied, Stamped, TouchAll, AllCopied, CopiedUpTo, OnlyByHash, InByHash, AllThere;
    ghost var before, start := disk.files, disk.clock;
    assert OnlyByHash(cfg, dir, before, before) by { OnlyByHashStart(cfg, dir, before); }
    for n := 0 to |cfg.algorithms|
      invariant disk.Valid() && Holding(disk.files, files, sources)
      invariant Linked(cfg, io, dir, files, before, disk.files, n)
      invariant OnlyByHash(cfg, dir, before, disk.files)
    {
      var byHash := ByHashDir(dir, cfg.algorithms[n]);
      var created := disk.CreateDirAll(byHash);
      if !created {
        LinkedIsCopied(cfg, io, dir, files, before, disk.files, n);
        return false;
      }
      ghost var now, clock := disk.files, disk.clock;
      ok := LinkInto(disk, cfg, io, cfg.algorithms[n], byHash, records, sources, files);
      OnlyByHashNext(cfg, dir, before, now, disk.files, n);
      if !ok {
        LinkedPart(cfg, io, dir, files, before, now, disk.files, clock, n);
        return;
      }
      LinkedNext(cfg, io, dir, files, before, now, disk.files, clock, n);
    }
    LinkedIsCopied(cfg, io, dir, files, before, disk.files, |cfg.algorithms|);
    assert HasClock(before) && HasClock(disk.files);
    LinkedAreThere(cfg, io, dir, files, before, disk.files);
    ok := true;
  }

  /** Every file can be fetched by each of its hashes. */
  ghost predicate AllThere(cfg: Config, io: Inputs, dir: Path, files: seq<IndexFile>, t: Tree) {
    forall a, k :: a in cfg.algorithms && 0 <= k < |files| ==> HasCopy(t, dir, io.hash, a, io.hash(a, files[k].bytes))
  }

  lemma LinkedAreThere(cfg: Config, io: Inputs, dir: Path, files: seq<IndexFile>, before: Tree, after: Tree)
    requires HasClock(before) && HasClock(after) && Linked(cfg, io, dir, files, before, after, |cfg.algorithms|)
    ensures AllThere(cfg, io, dir, files, after)
  {
    hide DirOf, TouchAll, ByHashEntries, HasClock, HasCopy;
    forall a, k | a in cfg.algorithms && 0 <= k < |files| ensures HasCopy(after, dir, io.hash, a, io.hash(a, files[k].bytes)) {
      var i :| 0 <= i < |cfg.algorithms| && cfg.algorithms[i] == a;
      CopyIsThere(cfg.(byHashKeep := None), io, dir, files, before, after, a, k);
    }
  }

  lemma UpdatedAreThere(cfg: Config, io: Inputs, dir: Path, files: seq<IndexFile>, before: Tree, after: Tree)
    requires HasClock(before) && HasClock(after) && DirsAfter(cfg, io, dir, files, before, after)
    requires cfg.byHashKeep.Some? ==> |files| <= cfg.byHashKeep.value
    ensures AllThere(cfg, io, dir, files, after)
  {
    hide DirOf, TouchAll, ByHashEntries, HasClock, HasCopy, Pruned;
    forall a, k | a in cfg.algorithms && 0 <= k < |files| ensures HasCopy(after, dir, io.hash, a, io.hash(a, files[k].bytes)) {
      CopyIsThere(cfg, io, dir, files, before, after, a, k);
    }
  }

  lemma OnlyByHashStart(cfg: Config, dir: Path, t: Tree)
    ensures OnlyByHash(cfg, dir, t, t)
  {
  }

  ghost predicate PrunedUpTo(cfg: Config, dir: Path, before: Tree, after: Tree, n: nat)
    requires n <= |cfg.algorithms|
  {
    forall i :: 0 <= i < |cfg.algorithms| ==>
      var d := ByHashDir(dir, cfg.algorithms[i]);
      DirOf(after, d) == if i < n then Newest(DirOf(before, d), Keep(cfg)) else DirOf(before, d)
  }

  lemma PrunedNext(cfg: Config, dir: Path, before: Tree, now: Tree, after: Tree, clock: nat, n: nat)
    requires NoDup(cfg.algorithms) && n < |cfg.algorithms| && Stamped(now, clock)
    requires PrunedUpTo(cfg, dir, before, now, n)
    requires var d := ByHashDir(dir, cfg.algorithms[n]);
      && (forall p :: !IsChild(p, d) ==> SameAt(after, now, p))
      && DirOf(after, d) == Newest(DirOf(now, d), Keep(cfg))
    ensures PrunedUpTo(cfg, dir, before, after, n + 1)
  {
    hide DirOf, Stamped, Newest;
    forall i | 0 <= i < |cfg.algorithms| && i != n
      ensures DirOf(after, ByHashDir(dir, cfg.algorithms[i])) == DirOf(now, ByHashDir(dir, cfg.algorithms[i]))
    {
      ByHashDirsDiffer(dir, cfg.algorithms[n], dir, cfg.algorithms[i]);
      OtherDirUnchanged(now, after, clock, ByHashDir(dir, cfg.algorithms[n]), ByHashDir(dir, cfg.algorithms[i]));
    }
  }

  /** Pruning has stopped in the directory of algorithm `n`. */
  lemma PrunedPart(cfg: Config, dir: Path, before: Tree, now: Tree, after: Tree, clock: nat, n: nat)
    requires NoDup(cfg.algorithms) && n < |cfg.algorithms| && Stamped(now, clock)
    requires PrunedUpTo(cfg, dir, before, now, n)
    requires var d := ByHashDir(dir, cfg.algorithms[n]);
      && (forall p :: !IsChild(p, d) ==> SameAt(after, now, p))
      && PartlyPruned(DirOf(now, d), DirOf(after, d), Keep(cfg))
    ensures PruningStopped(cfg, dir, before, after, n) && AllPartlyPruned(cfg, dir, before, after)
  {
    hide DirOf, Stamped, Newest, PartlyPruned;
    forall i | 0 <= i < |cfg.algorithms| && i != n
      ensures DirOf(after, ByHashDir(dir, cfg.algorithms[i])) == DirOf(now, ByHashDir(dir, cfg.algorithms[i]))
    {
      ByHashDirsDiffer(dir, cfg.algorithms[n], dir, cfg.algorithms[i]);
      OtherDirUnchanged(now, after, clock, ByHashDir(dir, cfg.algorithms[n]), ByHashDir(dir, cfg.algorithms[i]));
    }
    forall a | a in cfg.algorithms
      ensures PartlyPruned(DirOf(before, ByHashDir(dir, a)), DirOf(after, ByHashDir(dir, a)), Keep(cfg))
    {
      var i :| 0 <= i < |cfg.algorithms| && cfg.algorithms[i] == a;
      PrunedOrNot(DirOf(before, ByHashDir(dir, a)), Keep(cfg));
    }
  }

  ghost predicate PruningStopped(cfg: Config, dir: Path, before: Tree, after: Tree, n: nat) {
    forall i :: 0 <= i < |cfg.algorithms| ==>
      var s, t := DirOf(before, ByHashDir(dir, cfg.algorithms[i])), DirOf(after, ByHashDir(dir, cfg.algorithms[i]));
      if i < n then t == Newest(s, Keep(cfg)) else if i == n then PartlyPruned(s, t, Keep(cfg)) else t == s
  }

  lemma PrunedIsPartly(cfg: Config, dir: Path, before: Tree, after: Tree)
    requires PrunedUpTo(cfg, dir, before, after, |cfg.algorithms|)
    ensures AllPartlyPruned(cfg, dir, before, after)
  {
    hide DirOf, Newest, PartlyPruned;
    forall a | a in cfg.algorithms
      ensures PartlyPruned(DirOf(before, ByHashDir(dir, a)), DirOf(after, ByHashDir(dir, a)), Keep(cfg))
    {
      var i :| 0 <= i < |cfg.algorithms| && cfg.algorithms[i] == a;
      PrunedOrNot(DirOf(before, ByHashDir(dir, a)), Keep(cfg));
    }
  }

  /** Prune the by-hash directory of every algorithm. */
  method CleanupByHashFiles(disk: Disk, cfg: Config, dir: Path) returns (ok: bool)
    requires disk.Valid() && NoDup(cfg.algorithms) && cfg.byHashKeep.Some?
    modifies disk
    ensures disk.Valid()
    ensures !ok ==> disk.failed
    ensures ok ==> PrunedUpTo(cfg, dir, old(disk.files), disk.files, |cfg.algorithms|)
    ensures !ok ==> exists n: nat :: PruningStopped(cfg, dir, old(disk.files), disk.files, n)
    ensures AllPartlyPruned(cfg, dir, old(disk.files), disk.files)
    ensures OnlyByHash(cfg, dir, old(disk.files), disk.files)
  {
    hide DirOf, Stamped, PartlyPruned, AllPartlyPruned, PruningStopped, OnlyByHash, InByHash;
    ghost var before := disk.files;
    OnlyByHashStart(cfg, dir, before);
    for n := 0 to |cfg.algorithms|
      invariant disk.Valid()
      invariant PrunedUpTo(cfg, dir, before, disk.files, n)
      invariant OnlyByHash(cfg, dir, before, disk.files)
    {
      var byHash := ByHashDir(dir, cfg.algorithms[n]);
      ghost var now, clock := disk.files, disk.clock;
      ok := PruneDirectory(disk, byHash, cfg.byHashKeep.value);
      OnlyByHashNext(cfg, dir, before, now, disk.files, n);
      if !ok {
        PrunedPart(cfg, dir, before, now, disk.files, clock, n);
        return;
      }
      PrunedNext(cfg, dir, before, now, disk.files, clock, n);
    }
    PrunedIsPartly(cfg, dir, before, disk.files);
    ok := true;
  }

  ghost predicate DirsAfter(cfg: Config, io: Inputs, dir: Path, files: seq<IndexFile>, before: Tree, after: Tree) {
    forall a :: a in cfg.algorithms ==>
      DirOf(after, ByHashDir(dir, a)) == Pruned(cfg, TouchAll(DirOf(before, ByHashDir(dir, a)), ByHashEntries(io, files, a)))
  }

  lemma LinkedThenPruned(cfg: Config, io: Inputs, dir: Path, files: seq<IndexFile>, before: Tree, now: Tree, after: Tree)
    requires Linked(cfg, io, dir, files, before, now, |cfg.algorithms|)
    requires if cfg.byHashKeep.Some? then PrunedUpTo(cfg, dir, now, after, |cfg.algorithms|) else after == now
    ensures DirsAfter(cfg, io, dir, files, before, after)
  {
    hide DirOf, TouchAll, ByHashEntries, Newest;
    forall a | a in cfg.algorithms
      ensures DirOf(after, ByHashDir(dir, a)) == Pruned(cfg, TouchAll(DirOf(before, ByHashDir(dir, a)), ByHashEntries(io, files, a)))
    {
      var i :| 0 <= i < |cfg.algorithms| && cfg.algorithms[i] == a;
    }
  }

  lemma LinkedThenStopped(cfg: Config, io: Inputs, dir: Path, files: seq<IndexFile>, before: Tree, now: Tree, after: Tree, n: nat)
    requires Linked(cfg, io, dir, files, before, now, |cfg.algorithms|) && cfg.byHashKeep.Some?
    requires PruningStopped(cfg, dir, now, after, n)
    ensures UpdateStopped(cfg, io, dir, files, before, after)
  {
    hide DirOf, TouchAll, ByHashEntries, Newest, PartlyPruned;
    assert PrunedInto(cfg, io, dir, files, before, after, n);
  }

  lemma CopyingStopped(cfg: Config, io: Inputs, dir: Path, files: seq<IndexFile>, before: Tree, after: Tree, n: nat)
    requires CopiedUpTo(cfg, io, dir, files, before, after, n)
    ensures UpdateStopped(cfg, io, dir, files, before, after)
  {
    hide CopiedUpTo, PrunedInto;
  }

  /** A copy that was just made can be fetched, if as many files as were copied are kept. */
  lemma CopyIsThere(cfg: Config, io: Inputs, dir: Path, files: seq<IndexFile>, before: Tree, after: Tree, a: Algorithm, i: nat)
    requires HasClock(before) && HasClock(after) && i < |files| && (cfg.byHashKeep.Some? ==> |files| <= cfg.byHashKeep.value)
    requires DirOf(after, ByHashDir(dir, a)) == Pruned(cfg, TouchAll(DirOf(before, ByHashDir(dir, a)), ByHashEntries(io, files, a)))
    ensures HasCopy(after, dir, io.hash, a, io.hash(a, files[i].bytes))
  {
    hide DirOf, TouchAll, Stamped, DistinctNames;
    var clock :| Stamped(before, clock);
    DirDistinct(before, clock, ByHashDir(dir, a));
    var s, t := DirOf(before, ByHashDir(dir, a)), DirOf(after, ByHashDir(dir, a));
    var j := WrittenComesFirst(s, ByHashEntries(io, files, a), i);
    assert t[j] == TouchAll(s, ByHashEntries(io, files, a))[j];
    var k :| 0 <= k < |files| && ByHashEntry(io, a, files[k].bytes) == t[j];
    var later :| Stamped(after, later);
    DirExists(after, later, ByHashDir(dir, a));
    PathOfCopy(dir, a, t[j].name);
  }

  lemma PathOfCopy(dir: Path, a: Algorithm, name: string)
    ensures Child(ByHashDir(dir, a), name) ==
      match a
      case Md5 => dir + ["by-hash", "MD5Sum", name]
      case Sha1 => dir + ["by-hash", "SHA1", name]
      case Sha256 => dir + ["by-hash", "SHA256", name]
      case Sha512 => dir + ["by-hash", "SHA512", name]
  {
  }

  /** What both generators do with by-hash directories: copy, then prune if configured. */
  method UpdateByHash(disk: Disk, cfg: Config, ghost io: Inputs, dir: Path,
                      records: seq<HashedFile>, sources: seq<Path>, ghost files: seq<IndexFile>)
    returns (ok: bool)
    requires disk.Valid() && NoDup(cfg.algorithms) && |records| == |files| && Holding(disk.files, files, sources)
    requires forall k :: 0 <= k < |files| ==> records[k].hashes == HashData(cfg, io, files[k].bytes)
    requires forall k :: 0 <= k < |sources| ==> |sources[k]| != |dir| + 3
    modifies disk
    ensures disk.Valid()
    ensures !ok ==> disk.failed
    ensures ok ==> DirsAfter(cfg, io, dir, files, old(disk.files), disk.files)
    ensures ok && (cfg.byHashKeep.Some? ==> |files| <= cfg.byHashKeep.value) ==> AllThere(cfg, io, dir, files, disk.files)
    ensures !ok ==> UpdateStopped(cfg, io, dir, files, old(disk.files), disk.files)
    ensures AllAttempted(cfg, io, dir, files, old(disk.files), disk.files)
    ensures OnlyByHash(cfg, dir, old(disk.files), disk.files)
  {
    hide DirOf, Stamped, AllCopied, AllPartlyPruned, AllAttempted, InByHash, Linked, PrunedUpTo, DirsAfter, CopiedUpTo, PruningStopped,
         UpdateStopped, AllThere;
    ghost var before := disk.files;
    assert HasClock(before);
    ok := CreateByHashLinks(disk, cfg, io, dir, records, sources, files);
    AllCopiedIsAttempted(cfg, io, dir, files, before, disk.files);
    if !ok {
      ghost var n: nat :| CopiedUpTo(cfg, io, dir, files, before, disk.files, n);
      CopyingStopped(cfg, io, dir, files, before, disk.files, n);
      return;
    }
    ghost var now := disk.files;
    if cfg.byHashKeep.Some? {
      ok := CleanupByHashFiles(disk, cfg, dir);
      LinkedThenPartlyPruned(cfg, io, dir, files, before, now, disk.files);
      if !ok {
        ghost var n: nat :| PruningStopped(cfg, dir, now, disk.files, n);
        LinkedThenStopped(cfg, io, dir, files, before, now, disk.files, n);
      }
    }
    if ok {
      LinkedThenPruned(cfg, io, dir, files, before, now, disk.files);
      assert HasClock(disk.files);
      if cfg.byHashKeep.Some? ==> |files| <= cfg.byHashKeep.value { UpdatedAreThere(cfg, io, dir, files, before, disk.files); }
    }
  }
}
