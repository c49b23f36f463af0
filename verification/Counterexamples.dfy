/** Concrete publications in which files that a client may look for cannot be fetched. */
module Counterexamples {
  import opened Common
  import opened Filesystem
  import opened Attempts
  import opened ByHash
  import opened ByHashDirectory
  import opened Indices
  import opened ByHashUpdate
  import opened Contents
  import opened ContentsGenerator
  import opened Retention
  import opened Scenarios
  import opened R = Release
  import AsyncRepository

  // ----- A small repository

  /** One component, no compression, one hash algorithm, and the archive's keep count. */
  function Small(architectures: seq<string>): Config {
    Config(map[], ["main"], architectures, true, [Uncompressed], [Sha256], Some(ArchiveKeep([Uncompressed])))
  }

  /** A hash without collisions. */
  function NameOf(b: Bytes): string {
    seq(|b|, i requires 0 <= i < |b| => (b[i] as int) as char)
  }

  lemma NamesDiffer(a: Bytes, b: Bytes)
    ensures NameOf(a) == NameOf(b) <==> a == b
  {
    if NameOf(a) == NameOf(b) {
      assert |a| == |NameOf(a)| == |b|;
      forall i | 0 <= i < |a| ensures a[i] == b[i] {
        assert (a[i] as int) as char == NameOf(a)[i] == NameOf(b)[i] == (b[i] as int) as char;
      }
    }
  }

  function Providing(packages: Option<Bytes>, sources: Option<Bytes>): Inputs {
    Inputs((c, a) => packages, c => sources, (c, b) => Some(b), (a, b) => NameOf(b))
  }

  /** Contents that differ between architectures and between publications. */
  function Shipping(version: byte): ContentsInputs {
    ContentsInputs((c, a) => Some([version, if a == "amd64" then 0 else 1]), b => Some([2] + b))
  }

  lemma SmallIsWellNamed()
    ensures NamesApart(Small(["amd64", "arm64"])) && WellNamed(Small(["amd64"]))
  {
    assert '/' !in "main" && '/' !in "amd64" && '/' !in "arm64";
    assert |"amd64" + ".gz"| == 8 && |"arm64" + ".gz"| == 8;
    assert "amd64"[1] == 'm' && "arm64"[1] == 'r';
  }

  lemma AllProvided(cfg: Config, packages: Bytes, sources: Bytes)
    ensures var io := Providing(Some(packages), Some(sources)); AllAvailable(cfg, io, AllTargets(cfg, io))
  {
    var io := Providing(Some(packages), Some(sources));
    var ts := AllTargets(cfg, io);
    forall k | 0 <= k < |ts| ensures Available(cfg, io, ts[k]) {
      var i := TargetShape(cfg, io, |cfg.components|, k);
    }
  }

  lemma NothingInEmpty(dir: Path)
    ensures DirOf(map[], dir) == [] && HasClock(map[])
  {
    hide DirOf;
    ListsOnce(map[], dir, []);
    assert Stamped(map[], 0);
  }

  // ----- Contents of the publication before

  lemma TwoJobs()
    ensures AllJobs(Small(["amd64", "arm64"])) == [Job("main", "amd64"), Job("main", "arm64")]
  {
    var cfg := Small(["amd64", "arm64"]);
    assert ArchJobs(cfg, "main", 1) == [Job("main", "amd64")];
    assert ArchJobs(cfg, "main", 2) == [Job("main", "amd64"), Job("main", "arm64")];
    assert Jobs(cfg, 1) == Jobs(cfg, 0) + ArchJobs(cfg, "main", 2);
  }

  function Shipped(version: byte): seq<Bytes> {
    [[version, 0], [2, version, 0], [version, 1], [2, version, 1]]
  }

  lemma TwoEntries(io: Inputs, version: byte, arch: string)
    requires io == Providing(Some([]), Some([]))
    ensures
      var b: byte := if arch == "amd64" then 0 else 1;
      ByHashEntries(io, FilesOfJob(Shipping(version), Job("main", arch)), Sha256)
        == [Entry(NameOf([version, b]), Blob([version, b])), Entry(NameOf([2, version, b]), Blob([2, version, b]))]
  {
    hide NameOf;
    var b: byte := if arch == "amd64" then 0 else 1;
    var files := FilesOfJob(Shipping(version), Job("main", arch));
    assert files[0].bytes == [version, b] && files[1].bytes == [2] + [version, b] == [2, version, b];
  }

  lemma FourEntries(version: byte)
    ensures
      var batch := ContentsBatch(Providing(Some([]), Some([])), Shipping(version), AllJobs(Small(["amd64", "arm64"])), "main", Sha256);
      |batch| == 4 && forall i :: 0 <= i < 4 ==> batch[i] == Entry(NameOf(Shipped(version)[i]), Blob(Shipped(version)[i]))
  {
    hide NameOf, AllJobs, FilesOfJob, ByHashEntries;
    TwoJobs();
    var io, cio := Providing(Some([]), Some([])), Shipping(version);
    TwoEntries(io, version, "amd64");
    TwoEntries(io, version, "arm64");
    TwoBatches(io, cio, Job("main", "amd64"), Job("main", "arm64"));
    assert "amd64"[1] == 'm' && "arm64"[1] == 'r';
  }

  lemma TwoBatches(io: Inputs, cio: ContentsInputs, j: Job, k: Job)
    requires j.component == k.component
    ensures ContentsBatch(io, cio, [j, k], j.component, Sha256)
      == ByHashEntries(io, FilesOfJob(cio, j), Sha256) + ByHashEntries(io, FilesOfJob(cio, k), Sha256)
  {
    hide FilesOfJob, ByHashEntries;
    assert [j, k][..1] == [j] && [j][..0] == [];
    assert ContentsBatch(io, cio, [j], j.component, Sha256) == ByHashEntries(io, FilesOfJob(cio, j), Sha256);
  }

  /** With two architectures, a second publication takes the first one's Contents out of
      the by-hash directory. */
  lemma ContentsAreLost() returns (runs: seq<Publication>)
    ensures
      var cfg := Small(["amd64", "arm64"]);
      && Series(cfg, map[], runs) && |runs| == 2 && Keep(cfg) == ArchiveKeep(cfg.compressions)
      && DistinctNames(Concat(ContentsBatches(cfg, runs, "main", Sha256)))
      && var first := ContentsBatch(runs[0].io, runs[0].cio, AllJobs(cfg), "main", Sha256);
         first != [] && !Listed(DirOf(Last(map[], runs), ByHashDir(["main"], Sha256)), first[0].name)
  {
    hide DirOf, Series, ContentsBatch, AllJobs, NamesApart, AllAvailable, AllTargets, NameOf, Last, ContentsPerRun;
    var cfg := Small(["amd64", "arm64"]);
    var io := Providing(Some([]), Some([]));
    var cios := [Shipping(0), Shipping(1)];
    SmallIsWellNamed();
    AllProvided(cfg, [], []);
    NothingInEmpty(ByHashDir(["main"], Sha256));
    forall k | 0 <= k < 2 ensures JobsAvailable(cios[k], AllJobs(cfg)) {
    }
    runs := SeriesPossible(cfg, map[], [io, io], cios);
    EightNames(runs);
    assert NoDup(cfg.components);
    assert ContentsPerRun(cfg) == 4 by { hide *; TwoBinary(); }
    ContentsLost(cfg, map[], runs, "main", Sha256, 2);
  }

  lemma TwoBinary()
    ensures ContentsPerRun(Small(["amd64", "arm64"])) == 4
  {
    var cfg := Small(["amd64", "arm64"]);
    assert BinaryArchitectures(cfg, 0) == 0 && BinaryArchitectures(cfg, 1) == 1 && BinaryArchitectures(cfg, 2) == 2;
  }

  lemma EightNames(runs: seq<Publication>)
    requires |runs| == 2 && runs[0].io == runs[1].io == Providing(Some([]), Some([]))
    requires runs[0].cio == Shipping(0) && runs[1].cio == Shipping(1)
    ensures DistinctNames(Concat(ContentsBatches(Small(["amd64", "arm64"]), runs, "main", Sha256)))
  {
    hide ContentsBatch, AllJobs, NameOf;
    var batches := ContentsBatches(Small(["amd64", "arm64"]), runs, "main", Sha256);
    FourEntries(0);
    FourEntries(1);
    assert batches[..1] == [batches[0]] && [batches[0]][..0] == [];
    assert Concat(batches[..1]) == Concat([]) + batches[0] == batches[0];
    assert Concat(batches) == batches[0] + batches[1];
    var bytes := Shipped(0) + Shipped(1);
    forall i, j | 0 <= i < j < 8 ensures Concat(batches)[i].name != Concat(batches)[j].name {
      NamesDiffer(bytes[i], bytes[j]);
      assert bytes[i] != bytes[j];
      assert Concat(batches)[i].name == NameOf(bytes[i]) && Concat(batches)[j].name == NameOf(bytes[j]);
    }
  }

  // ----- Failed attempts

  const BINARY: Path := ["main", "binary-amd64"]

  lemma SmallTargets(io: Inputs)
    ensures AllTargets(Small(["amd64"]), io) == [PackagesTarget(io, "main", "amd64"), SourcesTarget(io, "main")]
    ensures PackagesTarget(io, "main", "amd64").dir == BINARY
  {
    var cfg := Small(["amd64"]);
    assert ArchTargets(cfg, io, "main", 1) == ArchTargets(cfg, io, "main", 0) + [PackagesTarget(io, "main", "amd64")];
    assert Targets(cfg, io, 1) == Targets(cfg, io, 0) + ArchTargets(cfg, io, "main", 1) + [SourcesTarget(io, "main")];
    assert "binary-" + "amd64" == "binary-amd64";
  }

  function Hashed(packages: Bytes): Entry {
    Entry(NameOf(packages), Blob(packages))
  }

  function AllHashed(packages: seq<Bytes>): seq<Entry> {
    seq(|packages|, i requires 0 <= i < |packages| => Hashed(packages[i]))
  }

  lemma HashedAmong(all: seq<Bytes>, packages: Bytes)
    ensures Listed(AllHashed(all), NameOf(packages)) <==> packages in all
  {
    hide NameOf;
    forall i | 0 <= i < |all| ensures AllHashed(all)[i].name == NameOf(packages) <==> all[i] == packages {
      NamesDiffer(all[i], packages);
    }
    if packages in all {
      var i :| 0 <= i < |all| && all[i] == packages;
      assert AllHashed(all)[i].name == NameOf(packages);
    }
  }

  /** The by-hash directory of the one Packages index. */
  ghost function PackagesDir(t: Tree): seq<Entry> {
    DirOf(t, ByHashDir(BINARY, Sha256))
  }

  lemma PackagesEntries(io: Inputs, packages: Bytes)
    requires io.packages == Providing(Some(packages), None).packages && io.compress == Providing(Some(packages), None).compress
    requires io.hash == Providing(Some(packages), None).hash
    ensures ByHashEntries(io, FilesOf(Small(["amd64"]), io, PackagesTarget(io, "main", "amd64")), Sha256) == [Hashed(packages)]
  {
    hide NameOf;
  }

  /** What an attempt that failed at target `n` leaves, as the generator's contract says it. */
  ghost predicate FailedAttempt(cfg: Config, io: Inputs, n: nat, before: Tree, after: Tree) {
    && AsyncRepository.Outcome(cfg, io, before, after, AsyncRepository.Staging(n))
    && AsyncRepository.TargetsAttempted(cfg, io, AllTargets(cfg, io), before, after)
    && HasClock(after)
  }

  /** A tree in which only the Packages by-hash directory differs. */
  lemma AttemptLeaves(io: Inputs, before: Tree, s: seq<Entry>, n: nat) returns (after: Tree)
    requires HasClock(before) && DistinctNames(s) && PackagesLeft(io, PackagesDir(before), s, n)
    requires
      var cfg := Small(["amd64"]);
      var t := PackagesTarget(io, "main", "amd64");
      Available(cfg, io, t) && Attempted(PackagesDir(before), s, ByHashEntries(io, FilesOf(cfg, io, t), Sha256), cfg.byHashKeep)
    ensures FailedAttempt(Small(["amd64"]), io, n, before, after) && PackagesDir(after) == s
    ensures forall p :: !IsChild(p, ByHashDir(BINARY, Sha256)) ==> SameAt(after, before, p)
  {
    hide DirOf, DistinctNames, Attempted, Available, FilesOf, ByHashEntries, Stamped, PackagesLeft;
    var cfg := Small(["amd64"]);
    var clock :| Stamped(before, clock);
    var d := ByHashDir(BINARY, Sha256);
    var u, later := DirCanBe(before, clock, d, s);
    after := u;
    SmallTargets(io);
    var t, source := PackagesTarget(io, "main", "amd64"), SourcesTarget(io, "main");
    assert AllAttempted(cfg, io, t.dir, FilesOf(cfg, io, t), before, after);
    forall a ensures DirOf(before, ByHashDir(source.dir, a)) == DirOf(after, ByHashDir(source.dir, a)) {
      ByHashDirsDiffer(BINARY, Sha256, source.dir, a);
      assert BINARY[1][0] == 'b' && source.dir[1][0] == 's';
      OtherDirUnchanged(before, after, clock, d, ByHashDir(source.dir, a));
    }
    TargetNotAttempted(cfg, io, source, before, after);
    StoppedThere(io, before, after, n);
    forall p | !InAnyByHash(cfg, AllTargets(cfg, io), p) ensures SameAt(after, before, p) {
      assert !InByHash(cfg, AllTargets(cfg, io)[0].dir, p);
      assert Sha256 in cfg.algorithms;
    }
  }

  /** The Packages directory when the generation stops there, or at the Sources after it. */
  ghost predicate PackagesLeft(io: Inputs, s: seq<Entry>, t: seq<Entry>, n: nat) {
    var cfg := Small(["amd64"]);
    var entries := ByHashEntries(io, FilesOf(cfg, io, PackagesTarget(io, "main", "amd64")), Sha256);
    if n == 0 then Copied(s, t, entries) else n == 1 && t == Pruned(cfg, TouchAll(s, entries))
  }

  lemma StoppedThere(io: Inputs, before: Tree, after: Tree, n: nat)
    requires PackagesLeft(io, PackagesDir(before), PackagesDir(after), n)
    requires Available(Small(["amd64"]), io, PackagesTarget(io, "main", "amd64"))
    requires SameDirs(SourcesTarget(io, "main").dir, before, after)
    ensures AsyncRepository.StoppedAt(Small(["amd64"]), io, AllTargets(Small(["amd64"]), io), n, before, after)
  {
    hide DirOf, Available, FilesOf, ByHashEntries, Copied, TouchAll, AllTargets, SameDirs;
    var cfg := Small(["amd64"]);
    SmallTargets(io);
    var t := PackagesTarget(io, "main", "amd64");
    var ts := AllTargets(cfg, io);
    if n == 0 {
      assert CopiedUpTo(cfg, io, t.dir, FilesOf(cfg, io, t), before, after, 0);
    } else {
      assert ts[..1] == [t];
    }
  }

  lemma TouchNew(s: seq<Entry>, e: Entry)
    requires !Listed(s, e.name)
    ensures TouchAll(s, [e]) == [e] + s
  {
    assert [e][..0] == [];
    assert TouchAll(s, []) == s;
    WithoutAbsent(s, e.name);
  }

  /** An attempt with new Packages that fails afterwards, for want of Sources. */
  lemma FailingStep(packages: Bytes, before: Tree, all: seq<Bytes>) returns (after: Tree)
    requires HasClock(before) && PackagesDir(before) == AllHashed(all) && packages !in all
    ensures FailedAttempt(Small(["amd64"]), Providing(Some(packages), None), 1, before, after)
    ensures PackagesDir(after) == Newest(AllHashed([packages] + all), 4)
    ensures forall p :: !IsChild(p, ByHashDir(BINARY, Sha256)) ==> SameAt(after, before, p)
  {
    hide DirOf, NameOf, FailedAttempt, FilesOf, Stamped, Newest;
    var io := Providing(Some(packages), None);
    var e, s := Hashed(packages), PackagesDir(before);
    var clock :| Stamped(before, clock);
    PackagesEntries(io, packages);
    HashedAmong(all, packages);
    TouchNew(s, e);
    PrunedOrNot([e] + s, 4);
    PrunedIsAttempted(s, Newest([e] + s, 4), [e], 4);
    assert DistinctNames(Newest([e] + s, 4)) by {
      DirDistinct(before, clock, ByHashDir(BINARY, Sha256));
      TouchAllDistinct(s, [e]);
      NewestDistinct([e] + s, 4);
    }
    assert Available(Small(["amd64"]), io, PackagesTarget(io, "main", "amd64"));
    after := AttemptLeaves(io, before, Newest([e] + s, 4), 1);
    assert AllHashed([packages] + all) == [e] + AllHashed(all);
  }

  lemma NewestDistinct(s: seq<Entry>, keep: nat)
    requires DistinctNames(s)
    ensures DistinctNames(Newest(s, keep))
  {
  }

  /** The first publication. */
  lemma FirstPublished(packages: Bytes) returns (after: Tree)
    ensures
      var cfg, io := Small(["amd64"]), Providing(Some(packages), Some([]));
      Published(cfg, io, map[], after) && HasClock(after) && PackagesDir(after) == AllHashed([packages])
  {
    hide DirOf, NameOf, Published, WellNamed, AllAvailable, AllTargets;
    var cfg, io := Small(["amd64"]), Providing(Some(packages), Some([]));
    SmallIsWellNamed();
    AllProvided(cfg, packages, []);
    NothingInEmpty(ByHashDir(BINARY, Sha256));
    after := GenerationPossible(cfg, io, map[]);
    SmallTargets(io);
    PackagesEntries(io, packages);
    TouchNew([], Hashed(packages));
    assert Sha256 in cfg.algorithms;
    LastGeneration(cfg, io, map[], after, io, 0, Sha256);
    assert [Hashed(packages)] + [] == [Hashed(packages)] == AllHashed([packages]);
  }

  /** After a publication, four attempts with new Packages that fail leave Release and the
      published index alone, but not the copy of that index that clients fetch by hash. */
  lemma FailuresEvict() returns (trees: seq<Tree>, ios: seq<Inputs>)
    ensures
      var cfg := Small(["amd64"]);
      && Keep(cfg) == ArchiveKeep(cfg.compressions) && |ios| == 5 && |trees| == 6 && trees[0] == map[]
      && Published(cfg, ios[0], trees[0], trees[1])
      && (forall k :: 1 <= k < 5 ==> FailedAttempt(cfg, ios[k], 1, trees[k], trees[k + 1]))
      && SameAt(trees[5], trees[1], RELEASE) && SameAt(trees[5], trees[1], Child(BINARY, "Packages"))
      && Child(BINARY, "Packages") in trees[1] && trees[1][Child(BINARY, "Packages")].content == Blob([0])
      && !Fetchable(trees[5], ByHashDir(BINARY, Sha256), ios[0].hash, Sha256, [0])
  {
    hide DirOf, NameOf, Published, FailedAttempt, Fetchable, HasClock, AllHashed;
    var cfg := Small(["amd64"]);
    var t1 := FirstPublished([0]);
    assert HasClock(t1);
    var t2 := FailingStep([1], t1, [[0]]);
    assert PackagesDir(t2) == AllHashed([[1], [0]]) by {
      assert [[1]] + [[0]] == [[1], [0]];
      FewHashed([[1], [0]]);
    }
    assert HasClock(t2) by { hide *; FailedHasClock(cfg, Providing(Some([1]), None), t1, t2); }
    var t3 := FailingStep([2], t2, [[1], [0]]);
    assert PackagesDir(t3) == AllHashed([[2], [1], [0]]) by {
      assert [[2]] + [[1], [0]] == [[2], [1], [0]];
      FewHashed([[2], [1], [0]]);
    }
    assert HasClock(t3) by { hide *; FailedHasClock(cfg, Providing(Some([2]), None), t2, t3); }
    var t4 := FailingStep([3], t3, [[2], [1], [0]]);
    assert PackagesDir(t4) == AllHashed([[3], [2], [1], [0]]) by {
      assert [[3]] + [[2], [1], [0]] == [[3], [2], [1], [0]];
      FewHashed([[3], [2], [1], [0]]);
    }
    assert HasClock(t4) by { hide *; FailedHasClock(cfg, Providing(Some([3]), None), t3, t4); }
    var t5 := FailingStep([4], t4, [[3], [2], [1], [0]]);
    assert PackagesDir(t5) == AllHashed([[4], [3], [2], [1]]) by { FiveHashed(); }
    assert HasClock(t5) by { hide *; FailedHasClock(cfg, Providing(Some([4]), None), t4, t5); }
    trees := [map[], t1, t2, t3, t4, t5];
    ios := [Providing(Some([0]), Some([])), Providing(Some([1]), None), Providing(Some([2]), None), Providing(Some([3]), None),
            Providing(Some([4]), None)];
    NotFetchable(t5, [[4], [3], [2], [1]], [0]);
    SameLater(t1, t2, t3, t4, t5);
    PackagesInPlace([0], map[], t1);
  }

  lemma FailedHasClock(cfg: Config, io: Inputs, before: Tree, after: Tree)
    requires FailedAttempt(cfg, io, 1, before, after)
    ensures HasClock(after)
  {
  }

  lemma FewHashed(all: seq<Bytes>)
    requires |all| <= 4
    ensures Newest(AllHashed(all), 4) == AllHashed(all)
  {
  }

  lemma FiveHashed()
    ensures Newest(AllHashed([[4]] + [[3], [2], [1], [0]]), 4) == AllHashed([[4], [3], [2], [1]])
  {
    hide NameOf;
  }

  lemma NotFetchable(t: Tree, all: seq<Bytes>, packages: Bytes)
    requires HasClock(t) && PackagesDir(t) == AllHashed(all) && packages !in all
    ensures !Fetchable(t, ByHashDir(BINARY, Sha256), Providing(None, None).hash, Sha256, packages)
    ensures Providing(None, None).hash == Providing(Some([0]), Some([])).hash
  {
    hide DirOf, NameOf, Stamped, AllHashed;
    var clock :| Stamped(t, clock);
    DirExists(t, clock, ByHashDir(BINARY, Sha256));
    HashedAmong(all, packages);
  }

  lemma SameLater(t1: Tree, t2: Tree, t3: Tree, t4: Tree, t5: Tree)
    requires forall p :: !IsChild(p, ByHashDir(BINARY, Sha256)) ==> SameAt(t2, t1, p) && SameAt(t3, t2, p) && SameAt(t4, t3, p) && SameAt(t5, t4, p)
    ensures SameAt(t5, t1, RELEASE) && SameAt(t5, t1, Child(BINARY, "Packages"))
  {
    var p, d := Child(BINARY, "Packages"), ByHashDir(BINARY, Sha256);
    assert |p| == 3 && |RELEASE| == 1 && |d| == 4;
    assert SameAt(t2, t1, p) && SameAt(t3, t2, p) && SameAt(t4, t3, p) && SameAt(t5, t4, p);
    assert SameAt(t2, t1, RELEASE) && SameAt(t3, t2, RELEASE) && SameAt(t4, t3, RELEASE) && SameAt(t5, t4, RELEASE);
  }

  lemma PackagesInPlace(packages: Bytes, before: Tree, after: Tree)
    requires Published(Small(["amd64"]), Providing(Some(packages), Some([])), before, after)
    ensures Child(BINARY, "Packages") in after && after[Child(BINARY, "Packages")].content == Blob(packages)
  {
    hide ByHashUpdated, InAnyByHash, AllTargets;
    var cfg, io := Small(["amd64"]), Providing(Some(packages), Some([]));
    SmallTargets(io);
    var ts := AllTargets(cfg, io);
    var files := AllFiles(cfg, io, ts);
    assert ts[..1] == [ts[0]] && [ts[0]][..0] == [];
    assert AllFiles(cfg, io, [ts[0]]) == FilesOf(cfg, io, ts[0]);
    assert files == FilesOf(cfg, io, ts[0]) + FilesOf(cfg, io, ts[1]);
    assert "Packages" + "" == "Packages";
    assert files[0] == IndexFile(BINARY, "Packages", packages);
    assert files[0].Path() in after;
  }

  /** And a copy that breaks off damages a published file when it has the same hash. */
  lemma BrokenCopyDamages() returns (published: Tree, after: Tree)
    ensures
      var cfg, io := Small(["amd64"]), Providing(Some([0]), Some([]));
      && Published(cfg, io, map[], published) && FailedAttempt(cfg, io, 0, published, after)
      && SameAt(after, published, RELEASE)
      && !Fetchable(after, ByHashDir(BINARY, Sha256), io.hash, Sha256, [0])
  {
    hide DirOf, NameOf, Published, FailedAttempt, HasClock, Attempted;
    var cfg, io := Small(["amd64"]), Providing(Some([0]), Some([]));
    published := FirstPublished([0]);
    var broken := Entry(NameOf([0]), Blob([]));
    assert TouchAll([Hashed([0])], [broken]) == [broken] by { TouchSame(Hashed([0]), broken); }
    assert Attempted([Hashed([0])], [broken], [Hashed([0])], cfg.byHashKeep) by { BrokenIsAttempted(Hashed([0]), broken, cfg.byHashKeep); }
    PackagesEntries(io, [0]);
    assert Available(cfg, io, PackagesTarget(io, "main", "amd64"));
    assert AllHashed([[0]]) == [Hashed([0])];
    assert Copied([Hashed([0])], [broken], [Hashed([0])]) by { BrokenIsCopied(Hashed([0]), broken); }
    after := AttemptLeaves(io, published, [broken], 0);
    assert |RELEASE| == 1;
    DamagedFile(cfg, io, published, after, broken);
  }

  lemma TouchSame(e: Entry, f: Entry)
    requires e.name == f.name
    ensures TouchAll([e], [f]) == [f]
  {
    assert [f][..0] == [];
    assert TouchAll([e], []) == [e];
    assert Without([e], f.name) == Without([e][1..], f.name) == [];
    assert [f] + [] == [f];
  }

  lemma BrokenIsCopied(e: Entry, f: Entry)
    requires e.name == f.name
    ensures Copied([e], [f], [e])
  {
    TouchSame(e, f);
    assert PartOf([f], [e]);
  }

  lemma BrokenIsAttempted(e: Entry, f: Entry, keep: Option<nat>)
    requires e.name == f.name
    ensures Attempted([e], [f], [e], keep)
  {
    TouchSame(e, f);
    assert AttemptedWith([e], [f], [e], keep, [f]);
  }

  lemma DamagedFile(cfg: Config, io: Inputs, before: Tree, after: Tree, broken: Entry)
    requires FailedAttempt(cfg, io, 0, before, after) && io == Providing(Some([0]), Some([]))
    requires broken == Entry(NameOf([0]), Blob([])) && PackagesDir(after) == [broken]
    ensures !Fetchable(after, ByHashDir(BINARY, Sha256), io.hash, Sha256, [0])
  {
    hide DirOf, NameOf, Stamped, AsyncRepository.Outcome, AsyncRepository.TargetsAttempted;
    var clock :| Stamped(after, clock);
    DirExists(after, clock, ByHashDir(BINARY, Sha256));
    assert [broken][0] == broken;
    assert after[Child(ByHashDir(BINARY, Sha256), broken.name)].content == Blob([]);
    var none: Bytes, zero: Bytes := [], [0];
    NamesDiffer(none, zero);
    assert |none| != |zero|;
    assert io.hash(Sha256, none) == NameOf(none) && io.hash(Sha256, zero) == NameOf(zero);
  }
}
