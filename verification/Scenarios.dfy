/** That the publications which the contracts describe exist: for any inputs that are
    available there are trees that a publication leads to, and so any series of them; and
    some concrete scenarios. */
module Scenarios {
  import opened Common
  import opened Filesystem
  import opened Attempts
  import opened ByHash
  import opened ByHashDirectory
  import opened Indices
  import opened ByHashUpdate
  import opened TargetLoop
  import opened Contents
  import opened ContentsGenerator
  import opened Retention
  import opened R = Release
  import Archive

  // ----- Trees with given files

  /** A directory can hold any list of files. */
  lemma {:induction false} DirCanBe(t: Tree, clock: nat, dir: Path, s: seq<Entry>) returns (u: Tree, later: nat)
    requires Stamped(t, clock) && DistinctNames(s)
    ensures Stamped(u, later) && DirOf(u, dir) == s
    ensures forall p :: !IsChild(p, dir) ==> SameAt(u, t, p)
    decreases |s|
  {
    hide DirOf;
    if s == [] {
      u, later := map p | p in t && !IsChild(p, dir) :: t[p], clock;
      ListsOnce(u, dir, []);
    } else {
      var e, v, c := s[0], map[], 0;
      v, c := DirCanBe(t, clock, dir, s[1..]);
      u, later := v[Child(dir, e.name) := File(e.content, c)], c + 1;
      forall n | n != e.name ensures SameAt(v, u, Child(dir, n)) {
        assert Child(dir, n)[|dir|] != Child(dir, e.name)[|dir|];
      }
      DirAfterWrite(v, u, c, dir, e);
      assert !Listed(s[1..], e.name);
      WithoutAbsent(s[1..], e.name);
      forall p | !IsChild(p, dir) ensures SameAt(u, t, p) {
        assert SameAt(v, t, p);
      }
    }
  }

  /** And so can several directories. */
  lemma {:induction false} DirsCanBe(t: Tree, clock: nat, dirs: set<Path>, content: Path -> seq<Entry>) returns (u: Tree, later: nat)
    requires Stamped(t, clock) && forall d :: d in dirs ==> DistinctNames(content(d))
    ensures Stamped(u, later) && forall d :: d in dirs ==> DirOf(u, d) == content(d)
    ensures forall p :: (forall d :: d in dirs ==> !IsChild(p, d)) ==> SameAt(u, t, p)
    decreases dirs
  {
    hide DirOf, Stamped, DistinctNames;
    if dirs == {} {
      u, later := t, clock;
    } else {
      var d :| d in dirs;
      var v, c := DirsCanBe(t, clock, dirs - {d}, content);
      u, later := DirCanBe(v, c, d, content(d));
      forall e | e in dirs ensures DirOf(u, e) == content(e) {
        if e != d { OtherDirUnchanged(v, u, c, d, e); }
      }
      forall p | forall e :: e in dirs ==> !IsChild(p, e) ensures SameAt(u, t, p) {
        assert SameAt(v, t, p) && SameAt(u, v, p);
      }
    }
  }

  lemma {:induction false} FilesCanBe(t: Tree, clock: nat, files: seq<IndexFile>, n: nat) returns (u: Tree, later: nat)
    requires Stamped(t, clock) && DistinctFiles(files) && n <= |files|
    ensures Stamped(u, later) && IndicesInPlace(u, files, n)
    ensures forall p :: !IsIndex(files, n, p) ==> SameAt(u, t, p)
  {
    if n == 0 {
      u, later := t, clock;
    } else {
      var v, c := FilesCanBe(t, clock, files, n - 1);
      var p := files[n - 1].Path();
      u, later := v[p := File(Blob(files[n - 1].bytes), c)], c + 1;
      forall q | !IsIndex(files, n, q) ensures SameAt(u, t, q) {
        assert !IsIndex(files, n - 1, q);
        assert q != p;
        assert SameAt(v, t, q);
      }
    }
  }

  lemma ReleaseCanBe(t: Tree, clock: nat, content: Content) returns (u: Tree, later: nat)
    requires Stamped(t, clock)
    ensures Stamped(u, later) && RELEASE in u && u[RELEASE].content == content
    ensures forall p :: p != RELEASE ==> SameAt(u, t, p)
  {
    u, later := t[RELEASE := File(content, clock)], clock + 1;
  }

  // ----- Lists stay free of repetitions

  lemma AfterDistinct(cfg: Config, s: seq<Entry>, batch: seq<Entry>)
    requires DistinctNames(s)
    ensures DistinctNames(Pruned(cfg, TouchAll(s, batch)))
  {
    TouchAllDistinct(s, batch);
  }

  // ----- A generation

  ghost predicate IsDirOf(cfg: Config, ts: seq<Target>, i: nat, a: Algorithm, d: Path) {
    i < |ts| && a in cfg.algorithms && ByHashDir(ts[i].dir, a) == d
  }

  /** What a by-hash directory is to hold after the generation. */
  ghost function Wanted(cfg: Config, io: Inputs, ts: seq<Target>, before: Tree, d: Path): seq<Entry> {
    if exists i: nat, a :: IsDirOf(cfg, ts, i, a, d) then
      var i: nat, a :| IsDirOf(cfg, ts, i, a, d);
      ByHashAfter(cfg, io, ts[i], a, DirOf(before, d))
    else []
  }

  lemma WantedIs(cfg: Config, io: Inputs, before: Tree, i: nat, a: Algorithm)
    requires WellNamed(cfg) && i < |AllTargets(cfg, io)| && a in cfg.algorithms
    ensures
      var ts := AllTargets(cfg, io);
      var d := ByHashDir(ts[i].dir, a);
      Wanted(cfg, io, ts, before, d) == ByHashAfter(cfg, io, ts[i], a, DirOf(before, d))
  {
    hide DirOf, AllTargets, ByHashAfter;
    var ts := AllTargets(cfg, io);
    var d := ByHashDir(ts[i].dir, a);
    PrefixDirs(cfg, io, ts);
    AllTargetsAre(cfg, io);
    assert IsDirOf(cfg, ts, i, a, d);
    forall j: nat, b | IsDirOf(cfg, ts, j, b, d) ensures i == j && a == b {
      ByHashDirsDiffer(ts[i].dir, a, ts[j].dir, b);
      if i < j { TargetDirsDiffer(cfg, io, |cfg.components|, i, j); }
      if j < i { TargetDirsDiffer(cfg, io, |cfg.components|, j, i); }
    }
  }

  lemma ByHashPossible(cfg: Config, io: Inputs, before: Tree, clock: nat) returns (u: Tree, later: nat)
    requires WellNamed(cfg) && Stamped(before, clock)
    ensures Stamped(u, later) && ByHashUpdated(cfg, io, AllTargets(cfg, io), before, u)
    ensures forall p :: !InAnyByHash(cfg, AllTargets(cfg, io), p) ==> SameAt(u, before, p)
  {
    hide DirOf, AllTargets, ByHashAfter, Wanted, Stamped, DistinctNames, WellNamed, FilesOf;
    var ts := AllTargets(cfg, io);
    var dirs := set i, a | 0 <= i < |ts| && a in cfg.algorithms :: ByHashDir(ts[i].dir, a);
    var content := d => Wanted(cfg, io, ts, before, d);
    forall d | d in dirs ensures DistinctNames(content(d)) {
      var i, a :| 0 <= i < |ts| && a in cfg.algorithms && ByHashDir(ts[i].dir, a) == d;
      WantedIs(cfg, io, before, i, a);
      DirDistinct(before, clock, d);
      assert DistinctNames(ByHashAfter(cfg, io, ts[i], a, DirOf(before, d))) by {
        AfterDistinct(cfg, DirOf(before, d), ByHashEntries(io, FilesOf(cfg, io, ts[i]), a));
        ByHashAfterIs(cfg, io, ts[i], a, DirOf(before, d));
      }
    }
    u, later := DirsCanBe(before, clock, dirs, content);
    forall i, a | 0 <= i < |ts| && a in cfg.algorithms
      ensures DirOf(u, ByHashDir(ts[i].dir, a)) == ByHashAfter(cfg, io, ts[i], a, DirOf(before, ByHashDir(ts[i].dir, a)))
    {
      assert ByHashDir(ts[i].dir, a) in dirs;
      WantedIs(cfg, io, before, i, a);
    }
    forall p | !InAnyByHash(cfg, ts, p) ensures SameAt(u, before, p) {
      forall d | d in dirs ensures !IsChild(p, d) {
        var i, a :| 0 <= i < |ts| && a in cfg.algorithms && ByHashDir(ts[i].dir, a) == d;
        assert !InByHash(cfg, ts[i].dir, p);
      }
    }
  }

  lemma ByHashAfterIs(cfg: Config, io: Inputs, t: Target, a: Algorithm, before: seq<Entry>)
    ensures ByHashAfter(cfg, io, t, a, before) == Pruned(cfg, TouchAll(before, ByHashEntries(io, FilesOf(cfg, io, t), a)))
  {
  }

  /** From any tree, any inputs that are available can be published. */
  lemma GenerationPossible(cfg: Config, io: Inputs, before: Tree) returns (after: Tree)
    requires WellNamed(cfg) && AllAvailable(cfg, io, AllTargets(cfg, io)) && HasClock(before)
    ensures Published(cfg, io, before, after) && HasClock(after)
  {
    hide DirOf, AllTargets, AllFiles, ByHashAfter, Stamped, WellNamed, InAnyByHash, IsIndex, AllAvailable;
    var ts := AllTargets(cfg, io);
    var files := AllFiles(cfg, io, ts);
    var clock :| Stamped(before, clock);
    var u, c := before, clock;
    if cfg.acquireByHash { u, c := ByHashPossible(cfg, io, before, clock); }
    FilesAreDistinct(cfg, io, ts);
    var v, d := FilesCanBe(u, c, files, |files|);
    var w, e := ReleaseCanBe(v, d, ReleaseText(ReleaseOf(cfg, Records(cfg, io, files)).ToParagraph()));
    after := w;
    PrefixDirs(cfg, io, ts);
    FileDirs(cfg, io, ts);
    forall p | p != RELEASE && !IsIndex(files, |files|, p) && !(cfg.acquireByHash && InAnyByHash(cfg, ts, p))
      ensures SameAt(after, before, p)
    {
      assert SameAt(u, before, p) by { if !cfg.acquireByHash { SameWithItself(before); } }
      assert SameAt(v, u, p) && SameAt(after, v, p);
    }
    forall k | 0 <= k < |files| ensures SameAt(after, v, files[k].Path()) {
      assert |files[k].Path()| == 3;
    }
    if cfg.acquireByHash { LongPathsKept(cfg, io, files, before, u, c, v, after); }
    assert Stamped(after, e);
  }

  lemma NoShortPath(files: seq<IndexFile>, n: nat, p: Path)
    requires (forall k :: 0 <= k < |files| ==> |files[k].Path()| == n) && |p| != n
    ensures !IsIndex(files, |files|, p)
  {
  }

  /** By-hash directories are the same after index files and Release are written. */
  lemma LongPathsKept(cfg: Config, io: Inputs, files: seq<IndexFile>, before: Tree, u: Tree, clock: nat, v: Tree, after: Tree)
    requires Stamped(u, clock) && ByHashUpdated(cfg, io, AllTargets(cfg, io), before, u)
    requires forall k :: 0 <= k < |files| ==> |files[k].dir| == 2
    requires forall p :: !IsIndex(files, |files|, p) ==> SameAt(v, u, p)
    requires forall p :: p != RELEASE ==> SameAt(after, v, p)
    ensures ByHashUpdated(cfg, io, AllTargets(cfg, io), before, after)
  {
    hide DirOf, AllTargets, ByHashAfter, Stamped;
    var ts := AllTargets(cfg, io);
    PrefixDirs(cfg, io, ts);
    forall k | 0 <= k < |files| ensures |files[k].Path()| == 3 {
      assert |files[k].dir| == 2;
    }
    forall i, a | 0 <= i < |ts| && a in cfg.algorithms
      ensures DirOf(after, ByHashDir(ts[i].dir, a)) == DirOf(u, ByHashDir(ts[i].dir, a))
    {
      forall p: Path | |p| == |ts[i].dir| + 3 ensures SameAt(after, u, p) {
        NoShortPath(files, 3, p);
        assert |RELEASE| == 1;
        assert SameAt(v, u, p) && SameAt(after, v, p);
      }
      SameFilesSameDirs(ts[i].dir, u, after, clock);
    }
  }

  // ----- A Contents pass

  ghost predicate IsComponentDir(cfg: Config, c: string, a: Algorithm, d: Path) {
    c in cfg.components && a in cfg.algorithms && ByHashDir([c], a) == d
  }

  ghost function WantedContents(cfg: Config, io: Inputs, cio: ContentsInputs, before: Tree, d: Path): seq<Entry> {
    if exists c, a :: IsComponentDir(cfg, c, a, d) then
      var c, a :| IsComponentDir(cfg, c, a, d);
      ContentsByHash(cfg, io, cio, AllJobs(cfg), c, a, DirOf(before, d))
    else []
  }

  lemma WantedContentsIs(cfg: Config, io: Inputs, cio: ContentsInputs, before: Tree, c: string, a: Algorithm)
    requires c in cfg.components && a in cfg.algorithms
    ensures
      var d := ByHashDir([c], a);
      WantedContents(cfg, io, cio, before, d) == ContentsByHash(cfg, io, cio, AllJobs(cfg), c, a, DirOf(before, d))
  {
    hide DirOf, AllJobs, ContentsByHash;
    var d := ByHashDir([c], a);
    assert IsComponentDir(cfg, c, a, d);
    forall e, b | IsComponentDir(cfg, e, b, d) ensures e == c && b == a {
      ByHashDirsDiffer([c], a, [e], b);
      assert [c][0] == [e][0];
    }
  }

  lemma {:induction false} ContentsDistinct(cfg: Config, io: Inputs, cio: ContentsInputs, jobs: seq<Job>, c: string, a: Algorithm, s: seq<Entry>)
    requires DistinctNames(s)
    ensures DistinctNames(ContentsByHash(cfg, io, cio, jobs, c, a, s))
    decreases |jobs|
  {
    hide DistinctNames, FilesOfJob, Pruned, TouchAll;
    if jobs != [] {
      var j, before := jobs[|jobs| - 1], jobs[..|jobs| - 1];
      ContentsDistinct(cfg, io, cio, before, c, a, s);
      AfterDistinct(cfg, ContentsByHash(cfg, io, cio, before, c, a, s), ByHashEntries(io, FilesOfJob(cio, j), a));
    }
  }

  lemma {:induction false} NoContents(cfg: Config, io: Inputs, cio: ContentsInputs, jobs: seq<Job>, c: string, a: Algorithm, s: seq<Entry>)
    requires forall i :: 0 <= i < |jobs| ==> jobs[i].component != c
    ensures ContentsByHash(cfg, io, cio, jobs, c, a, s) == s
    decreases |jobs|
  {
    if jobs != [] { NoContents(cfg, io, cio, jobs[..|jobs| - 1], c, a, s); }
  }

  lemma ContentsByHashPossible(cfg: Config, io: Inputs, cio: ContentsInputs, before: Tree, clock: nat) returns (u: Tree, later: nat)
    requires Stamped(before, clock)
    ensures Stamped(u, later) && ContentsDirs(cfg, io, cio, AllJobs(cfg), before, u)
    ensures forall p :: !InComponentByHash(cfg, p) ==> SameAt(u, before, p)
  {
    hide DirOf, AllJobs, ContentsByHash, WantedContents, Stamped, DistinctNames;
    var dirs := set c, a | c in cfg.components && a in cfg.algorithms :: ByHashDir([c], a);
    var content := d => WantedContents(cfg, io, cio, before, d);
    forall d | d in dirs ensures DistinctNames(content(d)) {
      var c, a :| c in cfg.components && a in cfg.algorithms && ByHashDir([c], a) == d;
      WantedContentsIs(cfg, io, cio, before, c, a);
      DirDistinct(before, clock, d);
      ContentsDistinct(cfg, io, cio, AllJobs(cfg), c, a, DirOf(before, d));
    }
    u, later := DirsCanBe(before, clock, dirs, content);
    forall c, a | a in cfg.algorithms
      ensures DirOf(u, ByHashDir([c], a)) == ContentsByHash(cfg, io, cio, AllJobs(cfg), c, a, DirOf(before, ByHashDir([c], a)))
    {
      if c in cfg.components {
        assert ByHashDir([c], a) in dirs;
        WantedContentsIs(cfg, io, cio, before, c, a);
      } else {
        JobsAreJobs(cfg, AllJobs(cfg));
        NoContents(cfg, io, cio, AllJobs(cfg), c, a, DirOf(before, ByHashDir([c], a)));
        forall d | d in dirs ensures exists e, b :: IsComponentDir(cfg, e, b, d) {
          var e, b :| e in cfg.components && b in cfg.algorithms && ByHashDir([e], b) == d;
          assert IsComponentDir(cfg, e, b, d);
        }
        OtherComponentSame(cfg, before, u, clock, dirs, c, a);
      }
    }
    forall p | !InComponentByHash(cfg, p) ensures SameAt(u, before, p) {
      forall d | d in dirs ensures !IsChild(p, d) {
        var c, a :| c in cfg.components && a in cfg.algorithms && ByHashDir([c], a) == d;
        assert !InByHash(cfg, [c], p);
      }
    }
  }

  lemma OtherComponentSame(cfg: Config, before: Tree, u: Tree, clock: nat, dirs: set<Path>, c: string, a: Algorithm)
    requires Stamped(before, clock) && c !in cfg.components
    requires forall d :: d in dirs ==> exists e, b :: IsComponentDir(cfg, e, b, d)
    requires forall p :: (forall d :: d in dirs ==> !IsChild(p, d)) ==> SameAt(u, before, p)
    ensures DirOf(u, ByHashDir([c], a)) == DirOf(before, ByHashDir([c], a))
  {
    hide DirOf, Stamped;
    forall n ensures SameAt(before, u, Child(ByHashDir([c], a), n)) {
      var p := Child(ByHashDir([c], a), n);
      forall d | d in dirs ensures !IsChild(p, d) {
        var e, b :| IsComponentDir(cfg, e, b, d);
        assert d[0] == e && p[0] == c;
        if IsChild(p, d) { SameHead(p, d); }
      }
      assert SameAt(u, before, p);
    }
    DirUnchanged(before, u, clock, ByHashDir([c], a));
  }

  lemma SameHead(p: Path, d: Path)
    requires d != [] && IsChild(p, d)
    ensures p[0] == d[0]
  {
    assert p[..|d|][0] == p[0];
  }

  /** To any tree with a Release, Contents that are available can be added. */
  lemma SplicePossible(cfg: Config, io: Inputs, cio: ContentsInputs, before: Tree) returns (after: Tree)
    requires NamesApart(cfg) && JobsAvailable(cio, AllJobs(cfg)) && HasClock(before)
    requires RELEASE in before && before[RELEASE].content.ReleaseText?
    ensures Spliced(cfg, io, cio, before, after) && HasClock(after)
  {
    hide DirOf, AllJobs, ContentsFiles, ContentsByHash, Stamped, NamesApart, InComponentByHash, IsIndex, JobsAvailable;
    var files := ContentsFiles(cio, AllJobs(cfg));
    var clock :| Stamped(before, clock);
    var u, c := before, clock;
    if cfg.acquireByHash { u, c := ContentsByHashPossible(cfg, io, cio, before, clock); }
    ContentsFilesDistinct(cfg, cio, AllJobs(cfg));
    var v, d := FilesCanBe(u, c, files, |files|);
    var text := ReleaseText(AddFiles(FromParagraph(before[RELEASE].content.para), Records(cfg, io, files)).ToParagraph());
    var w, e := ReleaseCanBe(v, d, text);
    after := w;
    ContentsPathsAreShort(cio, AllJobs(cfg));
    forall p | p != RELEASE && !IsIndex(files, |files|, p) && !(cfg.acquireByHash && InComponentByHash(cfg, p))
      ensures SameAt(after, before, p)
    {
      assert SameAt(u, before, p) by { if !cfg.acquireByHash { SameWithItself(before); } }
      assert SameAt(v, u, p) && SameAt(after, v, p);
    }
    forall k | 0 <= k < |files| ensures SameAt(after, v, files[k].Path()) {
      assert |files[k].Path()| == 2;
    }
    if cfg.acquireByHash { ComponentDirsKept(cfg, io, cio, files, before, u, c, v, after); }
    assert Stamped(after, e);
  }

  lemma ComponentDirsKept(cfg: Config, io: Inputs, cio: ContentsInputs, files: seq<IndexFile>, before: Tree, u: Tree, clock: nat, v: Tree, after: Tree)
    requires Stamped(u, clock) && ContentsDirs(cfg, io, cio, AllJobs(cfg), before, u)
    requires forall k :: 0 <= k < |files| ==> |files[k].Path()| == 2
    requires forall p :: !IsIndex(files, |files|, p) ==> SameAt(v, u, p)
    requires forall p :: p != RELEASE ==> SameAt(after, v, p)
    ensures ContentsDirs(cfg, io, cio, AllJobs(cfg), before, after)
  {
    hide DirOf, AllJobs, ContentsByHash, Stamped;
    forall c, a ensures DirOf(after, ByHashDir([c], a)) == DirOf(u, ByHashDir([c], a)) {
      forall p: Path | |p| == |[c]| + 3 ensures SameAt(after, u, p) {
        NoShortPath(files, 2, p);
        assert |RELEASE| == 1;
        assert SameAt(v, u, p) && SameAt(after, v, p);
      }
      SameFilesSameDirs([c], u, after, clock);
    }
  }

  /** So there is a series of publications for any inputs that are available. */
  lemma {:induction false} SeriesPossible(cfg: Config, start: Tree, ios: seq<Inputs>, cios: seq<ContentsInputs>) returns (runs: seq<Publication>)
    requires NamesApart(cfg) && HasClock(start) && |ios| == |cios|
    requires forall k :: 0 <= k < |ios| ==> AllAvailable(cfg, ios[k], AllTargets(cfg, ios[k])) && JobsAvailable(cios[k], AllJobs(cfg))
    ensures Series(cfg, start, runs) && |runs| == |ios|
    ensures forall k :: 0 <= k < |runs| ==> runs[k].io == ios[k] && runs[k].cio == cios[k]
    decreases |ios|
  {
    hide AllTargets, AllJobs, AllAvailable, JobsAvailable, Published, Spliced, HasClock, NamesApart;
    if ios == [] {
      runs := [];
    } else {
      var n := |ios| - 1;
      var before := SeriesPossible(cfg, start, ios[..n], cios[..n]);
      var run := NextPossible(cfg, start, before, ios[n], cios[n]);
      runs := before + [run];
      SeriesExtends(cfg, start, before, run);
    }
  }

  lemma NextPossible(cfg: Config, start: Tree, runs: seq<Publication>, io: Inputs, cio: ContentsInputs) returns (run: Publication)
    requires NamesApart(cfg) && Series(cfg, start, runs)
    requires AllAvailable(cfg, io, AllTargets(cfg, io)) && JobsAvailable(cio, AllJobs(cfg))
    ensures Follows(cfg, Last(start, runs), run) && run.io == io && run.cio == cio
  {
    hide AllTargets, AllJobs, AllAvailable, JobsAvailable, Published, Spliced, HasClock, NamesApart, Series, Last;
    SeriesEnds(cfg, start, runs);
    assert WellNamed(cfg) by { hide *; Archive.NamesApartIsWellNamed(cfg); }
    var mid := GenerationPossible(cfg, io, Last(start, runs));
    assert RELEASE in mid && mid[RELEASE].content.ReleaseText? by { hide *; Archive.HasReleaseText(cfg, io, Last(start, runs), mid); }
    var after := SplicePossible(cfg, io, cio, mid);
    run := Publication(io, cio, mid, after);
  }
}
