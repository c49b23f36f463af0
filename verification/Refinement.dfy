/** The asynchronous generator refines the synchronous one: a successful generation
    determines everything a client can see. */
module Refinement {
  import opened Common
  import opened Filesystem
  import opened ByHash
  import opened ByHashDirectory
  import opened Indices
  import opened R = Release

  ghost predicate SameContentAt(t: Tree, u: Tree, p: Path) {
    (p in t <==> p in u) && (p in t ==> t[p].content == u[p].content)
  }

  /** Same files with the same contents; and the by-hash directories hold the same
      files in the same order of age, so that later prunings will agree too. */
  ghost predicate SameView(cfg: Config, ts: seq<Target>, t: Tree, u: Tree) {
    && (forall p :: !(cfg.acquireByHash && InAnyByHash(cfg, ts, p)) ==> SameContentAt(t, u, p))
    && (cfg.acquireByHash ==> forall i, a :: 0 <= i < |ts| && a in cfg.algorithms ==>
          DirOf(t, ByHashDir(ts[i].dir, a)) == DirOf(u, ByHashDir(ts[i].dir, a)))
  }

  /** Both generators end in `Published`; from trees that look the same, it leads to
      trees that look the same: indices, by-hash directories, and the Release text. */
  lemma GenerationIsDetermined(cfg: Config, io: Inputs, before: Tree, after: Tree, before': Tree, after': Tree)
    requires Published(cfg, io, before, after) && Published(cfg, io, before', after')
    requires SameView(cfg, AllTargets(cfg, io), before, before')
    ensures SameView(cfg, AllTargets(cfg, io), after, after')
  {
    hide AllTargets, AllFiles, InAnyByHash, DirOf, ByHashAfter;
    var ts := AllTargets(cfg, io);
    var files := AllFiles(cfg, io, ts);
    forall p | !(cfg.acquireByHash && InAnyByHash(cfg, ts, p)) ensures SameContentAt(after, after', p) {
      if p == RELEASE {
      } else if IsIndex(files, |files|, p) {
        var k :| 0 <= k < |files| && files[k].Path() == p;
      } else {
        assert SameAt(after, before, p) && SameAt(after', before', p) && SameContentAt(before, before', p);
      }
    }
  }

  /** In particular, with files of a by-hash directory seen through their names. */
  lemma SameByHashFiles(cfg: Config, ts: seq<Target>, t: Tree, u: Tree, clock: nat, clock': nat, i: nat, a: Algorithm, name: string)
    requires Stamped(t, clock) && Stamped(u, clock')
    requires SameView(cfg, ts, t, u) && cfg.acquireByHash && i < |ts| && a in cfg.algorithms
    ensures SameContentAt(t, u, Child(ByHashDir(ts[i].dir, a), name))
  {
    hide DirOf, Stamped;
    var d := ByHashDir(ts[i].dir, a);
    DirExists(t, clock, d);
    DirExists(u, clock', d);
    FileInList(t, d, name);
    FileInList(u, d, name);
  }

  lemma FileInList(t: Tree, dir: Path, name: string)
    requires Lists(t, dir, DirOf(t, dir))
    ensures Child(dir, name) in t <==> Listed(DirOf(t, dir), name)
    ensures forall i :: 0 <= i < |DirOf(t, dir)| && DirOf(t, dir)[i].name == name ==>
      t[Child(dir, name)].content == DirOf(t, dir)[i].content
  {
    hide DirOf;
    assert Child(dir, name) in t ==> Listed(DirOf(t, dir), name);
  }
}
