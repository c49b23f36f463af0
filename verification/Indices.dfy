/** What publishing a repository should leave behind: its index files, its Release
    records and its by-hash files, as functions of the configuration and the inputs. */
module Indices {
  import opened Common
  import opened Filesystem
  import opened ByHash
  import opened ByHashDirectory
  import opened Paths
  import opened R = Release

  datatype Compression = Uncompressed | Gzip | Bzip2 {
    function Extension(): string {
      match this
      case Uncompressed => ""
      case Gzip => ".gz"
      case Bzip2 => ".bz2"
    }
  }

  function AlgorithmName(a: Algorithm): string {
    match a
    case Md5 => "MD5Sum"
    case Sha1 => "SHA1"
    case Sha256 => "SHA256"
    case Sha512 => "SHA512"
  }

  datatype Config = Config(
    fields: map<string, string>,
    components: seq<string>,
    architectures: seq<string>,
    acquireByHash: bool,
    compressions: seq<Compression>,
    algorithms: seq<Algorithm>,
    byHashKeep: Option<nat>)

  /** What the generator is given: the providers, which may fail, the compressors,
      which may fail, and the hash functions. */
  datatype Inputs = Inputs(
    packages: (string, string) -> Option<Bytes>,
    sources: string -> Option<Bytes>,
    compress: (Compression, Bytes) -> Option<Bytes>,
    hash: (Algorithm, Bytes) -> string)

  /** Names are distinct and are single path segments. */
  ghost predicate WellNamed(cfg: Config) {
    && NoDup(cfg.components) && NoDup(cfg.architectures) && NoDup(cfg.compressions) && NoDup(cfg.algorithms)
    && NoSlashes(cfg.components) && NoSlashes(cfg.architectures)
  }

  /** One index: a directory, the name of its files, and what the provider said. */
  datatype Target = Target(dir: Path, basename: string, content: Option<Bytes>)

  function PackagesTarget(io: Inputs, component: string, arch: string): Target {
    Target([component, "binary-" + arch], "Packages", io.packages(component, arch))
  }

  function SourcesTarget(io: Inputs, component: string): Target {
    Target([component, "source"], "Sources", io.sources(component))
  }

  function ArchTargets(cfg: Config, io: Inputs, component: string, n: nat): seq<Target>
    requires n <= |cfg.architectures|
  {
    if n == 0 then []
    else ArchTargets(cfg, io, component, n - 1) + [PackagesTarget(io, component, cfg.architectures[n - 1])]
  }

  /** The targets of the first `n` components, in the order in which they are generated. */
  function Targets(cfg: Config, io: Inputs, n: nat): seq<Target>
    requires n <= |cfg.components|
  {
    if n == 0 then []
    else
      var c := cfg.components[n - 1];
      Targets(cfg, io, n - 1) + ArchTargets(cfg, io, c, |cfg.architectures|) + [SourcesTarget(io, c)]
  }

  function AllTargets(cfg: Config, io: Inputs): seq<Target> {
    Targets(cfg, io, |cfg.components|)
  }

  /** One file of an index. */
  datatype IndexFile = IndexFile(dir: Path, name: string, bytes: Bytes) {
    function Path(): Path {
      Child(dir, name)
    }
  }

  function PathsOf(files: seq<IndexFile>): seq<Path> {
    seq(|files|, k requires 0 <= k < |files| => files[k].Path())
  }

  function FileOf(io: Inputs, t: Target, c: Compression): IndexFile {
    IndexFile(t.dir, t.basename + c.Extension(), io.compress(c, t.content.GetOr([])).GetOr([]))
  }

  function FilesOf(cfg: Config, io: Inputs, t: Target): seq<IndexFile> {
    seq(|cfg.compressions|, i requires 0 <= i < |cfg.compressions| => FileOf(io, t, cfg.compressions[i]))
  }

  function AllFiles(cfg: Config, io: Inputs, ts: seq<Target>): seq<IndexFile>
    decreases |ts|
  {
    if ts == [] then []
    else AllFiles(cfg, io, ts[..|ts| - 1]) + FilesOf(cfg, io, ts[|ts| - 1])
  }

  /** The provider and the compressors succeed for this target. */
  ghost predicate Available(cfg: Config, io: Inputs, t: Target) {
    t.content.Some? && forall c :: c in cfg.compressions ==> io.compress(c, t.content.value).Some?
  }

  ghost predicate AllAvailable(cfg: Config, io: Inputs, ts: seq<Target>) {
    forall i :: 0 <= i < |ts| ==> Available(cfg, io, ts[i])
  }

  function HashData(cfg: Config, io: Inputs, bytes: Bytes): map<Algorithm, string> {
    map a | a in cfg.algorithms :: io.hash(a, bytes)
  }

  function RecordOf(cfg: Config, io: Inputs, path: Path, bytes: Bytes): HashedFile {
    HashedFile(Render(path), |bytes|, HashData(cfg, io, bytes))
  }

  function Records(cfg: Config, io: Inputs, files: seq<IndexFile>): seq<HashedFile> {
    seq(|files|, i requires 0 <= i < |files| => RecordOf(cfg, io, files[i].Path(), files[i].bytes))
  }

  // ----- By-hash directories

  function ByHashDir(dir: Path, a: Algorithm): Path {
    dir + ["by-hash", AlgorithmName(a)]
  }

  ghost predicate HasHash(t: Tree, p: Path, hash: (Algorithm, Bytes) -> string, a: Algorithm, name: string) {
    p in t && t[p].content.Blob? && hash(a, t[p].content.bytes) == name
  }

  /** The file that a client asks for when it has read `name` in the list of algorithm `a`. */
  ghost predicate HasCopy(t: Tree, dir: Path, hash: (Algorithm, Bytes) -> string, a: Algorithm, name: string) {
    match a
    case Md5 => HasHash(t, dir + ["by-hash", "MD5Sum", name], hash, Md5, name)
    case Sha1 => HasHash(t, dir + ["by-hash", "SHA1", name], hash, Sha1, name)
    case Sha256 => HasHash(t, dir + ["by-hash", "SHA256", name], hash, Sha256, name)
    case Sha512 => HasHash(t, dir + ["by-hash", "SHA512", name], hash, Sha512, name)
  }

  function ByHashEntry(io: Inputs, a: Algorithm, bytes: Bytes): Entry {
    Entry(io.hash(a, bytes), Blob(bytes))
  }

  function ByHashEntries(io: Inputs, files: seq<IndexFile>, a: Algorithm): seq<Entry> {
    seq(|files|, i requires 0 <= i < |files| => ByHashEntry(io, a, files[i].bytes))
  }

  function Pruned(cfg: Config, s: seq<Entry>): seq<Entry> {
    if cfg.byHashKeep.Some? then Newest(s, cfg.byHashKeep.value) else s
  }

  /** The by-hash directory of an index after it has been generated. */
  function ByHashAfter(cfg: Config, io: Inputs, t: Target, a: Algorithm, before: seq<Entry>): seq<Entry> {
    Pruned(cfg, TouchAll(before, ByHashEntries(io, FilesOf(cfg, io, t), a)))
  }

  /** `p` is a file of one of the by-hash directories of `dir`. */
  ghost predicate InByHash(cfg: Config, dir: Path, p: Path) {
    exists a :: a in cfg.algorithms && IsChild(p, ByHashDir(dir, a))
  }

  ghost predicate InAnyByHash(cfg: Config, ts: seq<Target>, p: Path) {
    exists i :: 0 <= i < |ts| && InByHash(cfg, ts[i].dir, p)
  }

  const RELEASE: Path := ["Release"]

  function ReleaseOf(cfg: Config, records: seq<HashedFile>): Release {
    Release(Paragraph(cfg.fields, map[]), records)
  }

  /** The tree after a successful generation, as a relation to the tree before. */
  ghost predicate Published(cfg: Config, io: Inputs, before: Tree, after: Tree) {
    var ts := AllTargets(cfg, io);
    var files := AllFiles(cfg, io, ts);
    && AllAvailable(cfg, io, ts)
    && IndicesInPlace(after, files, |files|)
    && RELEASE in after
    && after[RELEASE].content == ReleaseText(ReleaseOf(cfg, Records(cfg, io, files)).ToParagraph())
    && (cfg.acquireByHash ==> ByHashUpdated(cfg, io, ts, before, after))
    && forall p :: p != RELEASE && !IsIndex(files, |files|, p) && !(cfg.acquireByHash && InAnyByHash(cfg, ts, p))
                   ==> SameAt(after, before, p)
  }

  ghost predicate IndicesInPlace(t: Tree, files: seq<IndexFile>, n: nat)
    requires n <= |files|
  {
    forall k :: 0 <= k < n ==> files[k].Path() in t && t[files[k].Path()].content == Blob(files[k].bytes)
  }

  ghost predicate IsIndex(files: seq<IndexFile>, n: nat, p: Path)
    requires n <= |files|
  {
    exists k :: 0 <= k < n && files[k].Path() == p
  }

  ghost predicate ByHashUpdated(cfg: Config, io: Inputs, ts: seq<Target>, before: Tree, after: Tree) {
    forall i, a :: 0 <= i < |ts| && a in cfg.algorithms ==>
      DirOf(after, ByHashDir(ts[i].dir, a)) == ByHashAfter(cfg, io, ts[i], a, DirOf(before, ByHashDir(ts[i].dir, a)))
  }

  // ----- The names do not collide

  lemma AlgorithmNamesDiffer(a: Algorithm, b: Algorithm)
    ensures AlgorithmName(a) == AlgorithmName(b) <==> a == b
  {
    assert AlgorithmName(a)[|AlgorithmName(a)| - 1] == (match a case Md5 => 'm' case Sha1 => '1' case Sha256 => '6' case Sha512 => '2');
    assert AlgorithmName(b)[|AlgorithmName(b)| - 1] == (match b case Md5 => 'm' case Sha1 => '1' case Sha256 => '6' case Sha512 => '2');
  }

  lemma ByHashDirsDiffer(dir: Path, a: Algorithm, dir': Path, b: Algorithm)
    requires |dir| == |dir'|
    ensures ByHashDir(dir, a) == ByHashDir(dir', b) <==> dir == dir' && a == b
  {
    AlgorithmNamesDiffer(a, b);
    var p, q := ByHashDir(dir, a), ByHashDir(dir', b);
    assert p[..|dir|] == dir && q[..|dir|] == dir';
    assert p[|dir| + 1] == AlgorithmName(a) && q[|dir| + 1] == AlgorithmName(b);
  }

  lemma {:induction false} ArchTargetAt(cfg: Config, io: Inputs, c: string, n: nat, j: nat)
    requires j < n <= |cfg.architectures|
    ensures |ArchTargets(cfg, io, c, n)| == n
    ensures ArchTargets(cfg, io, c, n)[j] == PackagesTarget(io, c, cfg.architectures[j])
  {
    if n > 1 { ArchTargetAt(cfg, io, c, n - 1, if j < n - 1 then j else 0); }
  }

  /** What a target of the configuration looks like. */
  ghost predicate IsTargetOf(cfg: Config, io: Inputs, t: Target, i: nat) {
    i < |cfg.components| &&
    (t == SourcesTarget(io, cfg.components[i])
     || exists j :: 0 <= j < |cfg.architectures| && t == PackagesTarget(io, cfg.components[i], cfg.architectures[j]))
  }

  lemma {:induction false} TargetShape(cfg: Config, io: Inputs, n: nat, k: nat) returns (i: nat)
    requires n <= |cfg.components| && k < |Targets(cfg, io, n)|
    ensures i < n && IsTargetOf(cfg, io, Targets(cfg, io, n)[k], i)
  {
    var archs := ArchTargets(cfg, io, cfg.components[n - 1], |cfg.architectures|);
    var before := Targets(cfg, io, n - 1);
    ArchTargetsLength(cfg, io, cfg.components[n - 1], |cfg.architectures|);
    if k < |before| {
      i := TargetShape(cfg, io, n - 1, k);
    } else {
      i := n - 1;
      if k < |before| + |archs| {
        ArchTargetAt(cfg, io, cfg.components[n - 1], |cfg.architectures|, k - |before|);
      }
    }
  }

  lemma {:induction false} ArchTargetsLength(cfg: Config, io: Inputs, c: string, n: nat)
    requires n <= |cfg.architectures|
    ensures |ArchTargets(cfg, io, c, n)| == n
  {
    if n > 0 { ArchTargetsLength(cfg, io, c, n - 1); }
  }

  lemma BinaryDirsDiffer(a: string, b: string)
    ensures "binary-" + a == "binary-" + b <==> a == b
    ensures "binary-" + a != "source"
  {
    assert ("binary-" + a)[7..] == a && ("binary-" + b)[7..] == b;
    assert ("binary-" + a)[0] == 'b';
  }

  lemma {:induction false} TargetDirsDiffer(cfg: Config, io: Inputs, n: nat, k: nat, l: nat)
    requires WellNamed(cfg) && n <= |cfg.components| && k < l < |Targets(cfg, io, n)|
    ensures Targets(cfg, io, n)[k].dir != Targets(cfg, io, n)[l].dir
  {
    hide ArchTargets;
    var c := cfg.components[n - 1];
    var before, archs := Targets(cfg, io, n - 1), ArchTargets(cfg, io, c, |cfg.architectures|);
    ArchTargetsLength(cfg, io, c, |cfg.architectures|);
    if l < |before| {
      TargetDirsDiffer(cfg, io, n - 1, k, l);
    } else if k < |before| {
      var i := TargetShape(cfg, io, n - 1, k);
      if l < |before| + |archs| { ArchTargetAt(cfg, io, c, |cfg.architectures|, l - |before|); }
      assert Targets(cfg, io, n)[k].dir[0] == cfg.components[i] && Targets(cfg, io, n)[l].dir[0] == c;
    } else {
      ArchTargetAt(cfg, io, c, |cfg.architectures|, k - |before|);
      var a := cfg.architectures[k - |before|];
      assert Targets(cfg, io, n)[k].dir[1] == "binary-" + a;
      if l < |before| + |archs| {
        ArchTargetAt(cfg, io, c, |cfg.architectures|, l - |before|);
        BinaryDirsDiffer(a, cfg.architectures[l - |before|]);
        assert Targets(cfg, io, n)[l].dir[1] == "binary-" + cfg.architectures[l - |before|];
      } else {
        BinaryDirsDiffer(a, a);
        assert Targets(cfg, io, n)[l].dir[1] == "source";
      }
    }
  }

  // ----- The targets in the order of the loops

  lemma {:induction false} ArchTargetsPrefix(cfg: Config, io: Inputs, c: string, n: nat, m: nat)
    requires n <= m <= |cfg.architectures|
    ensures ArchTargets(cfg, io, c, n) <= ArchTargets(cfg, io, c, m)
  {
    if n < m { ArchTargetsPrefix(cfg, io, c, n, m - 1); }
  }

  lemma {:induction false} TargetsPrefix(cfg: Config, io: Inputs, n: nat, m: nat)
    requires n <= m <= |cfg.components|
    ensures Targets(cfg, io, n) <= Targets(cfg, io, m)
  {
    if n < m { TargetsPrefix(cfg, io, n, m - 1); }
  }

  /** After `i` components and `j` architectures of the next one, the loops have been
      through a prefix of all targets, and the next one follows it. */
  lemma LoopPosition(cfg: Config, io: Inputs, i: nat, j: nat)
    requires i < |cfg.components| && j <= |cfg.architectures|
    ensures
      var c := cfg.components[i];
      var ts := Targets(cfg, io, i) + ArchTargets(cfg, io, c, j);
      var next := if j < |cfg.architectures| then PackagesTarget(io, c, cfg.architectures[j]) else SourcesTarget(io, c);
      && ts + [next] <= AllTargets(cfg, io)
      && ts + [next] == if j < |cfg.architectures| then Targets(cfg, io, i) + ArchTargets(cfg, io, c, j + 1) else Targets(cfg, io, i + 1)
  {
    TargetsPrefix(cfg, io, i + 1, |cfg.components|);
    if j < |cfg.architectures| {
      ArchTargetsPrefix(cfg, io, cfg.components[i], j + 1, |cfg.architectures|);
    }
  }

  lemma NoTargets(cfg: Config, io: Inputs)
    ensures Targets(cfg, io, 0) == []
  {
  }

  lemma NoArchTargets(cfg: Config, io: Inputs, c: string)
    ensures ArchTargets(cfg, io, c, 0) == []
  {
  }

  lemma AllTargetsAre(cfg: Config, io: Inputs)
    ensures AllTargets(cfg, io) == Targets(cfg, io, |cfg.components|)
  {
  }

  lemma NamesAreDistinct(cfg: Config)
    requires WellNamed(cfg)
    ensures NoDup(cfg.algorithms)
  {
  }

  ghost predicate NewDir(ts: seq<Target>, t: Target) {
    |t.dir| == 2 && forall i :: 0 <= i < |ts| ==> |ts[i].dir| == 2 && ts[i].dir != t.dir
  }

  lemma NextIsNew(cfg: Config, io: Inputs, ts: seq<Target>, t: Target)
    requires WellNamed(cfg) && ts + [t] <= AllTargets(cfg, io)
    ensures NewDir(ts, t)
  {
    var all := AllTargets(cfg, io);
    assert all[|ts|] == t;
    var _ := TargetShape(cfg, io, |cfg.components|, |ts|);
    forall i | 0 <= i < |ts| ensures |ts[i].dir| == 2 && ts[i].dir != t.dir {
      assert all[i] == (ts + [t])[i] == ts[i];
      var _ := TargetShape(cfg, io, |cfg.components|, i);
      TargetDirsDiffer(cfg, io, |cfg.components|, i, |ts|);
    }
  }

  // ----- The index files

  lemma {:induction false} FileOrigin(cfg: Config, io: Inputs, ts: seq<Target>, k: nat) returns (i: nat, c: nat)
    requires k < |AllFiles(cfg, io, ts)|
    ensures i < |ts| && c < |cfg.compressions|
    ensures AllFiles(cfg, io, ts)[k] == FileOf(io, ts[i], cfg.compressions[c])
    decreases |ts|
  {
    var before := ts[..|ts| - 1];
    if k < |AllFiles(cfg, io, before)| {
      i, c := FileOrigin(cfg, io, before, k);
    } else {
      i, c := |ts| - 1, k - |AllFiles(cfg, io, before)|;
    }
  }

  lemma ExtensionsDiffer(base: string, c: Compression, d: Compression)
    ensures base + c.Extension() == base + d.Extension() <==> c == d
    ensures |c.Extension()| <= 4
  {
    assert (base + c.Extension())[|base|..] == c.Extension();
    assert (base + d.Extension())[|base|..] == d.Extension();
  }

  ghost predicate DistinctFiles(files: seq<IndexFile>) {
    forall k, l :: 0 <= k < l < |files| ==> files[k].Path() != files[l].Path()
  }

  lemma {:induction false} FilesAreDistinct(cfg: Config, io: Inputs, ts: seq<Target>)
    requires WellNamed(cfg) && ts <= AllTargets(cfg, io)
    ensures DistinctFiles(AllFiles(cfg, io, ts))
    decreases |ts|
  {
    if ts != [] {
      var before, t := ts[..|ts| - 1], ts[|ts| - 1];
      assert before + [t] == ts;
      FilesAreDistinct(cfg, io, before);
      NextIsNew(cfg, io, before, t);
      var old', new' := AllFiles(cfg, io, before), FilesOf(cfg, io, t);
      forall k, l | 0 <= k < |old'| && 0 <= l < |new'| ensures old'[k].Path() != new'[l].Path() {
        var i, _ := FileOrigin(cfg, io, before, k);
        assert old'[k].Path()[..2] == before[i].dir && new'[l].Path()[..2] == t.dir;
      }
      forall k, l | 0 <= k < l < |new'| ensures new'[k].Path() != new'[l].Path() {
        ExtensionsDiffer(t.basename, cfg.compressions[k], cfg.compressions[l]);
        assert new'[k].Path()[2] == new'[k].name && new'[l].Path()[2] == new'[l].name;
      }
    }
  }

  /** Index names have 7 to 12 characters, so the six characters that a temporary
      name adds tell them apart. */
  lemma IndexNameLength(cfg: Config, io: Inputs, ts: seq<Target>, k: nat)
    requires ts <= AllTargets(cfg, io) && k < |AllFiles(cfg, io, ts)|
    ensures 7 <= |AllFiles(cfg, io, ts)[k].name| <= 12 && |AllFiles(cfg, io, ts)[k].dir| == 2
  {
    var i, c := FileOrigin(cfg, io, ts, k);
    assert ts[i] == AllTargets(cfg, io)[i];
    var _ := TargetShape(cfg, io, |cfg.components|, i);
    ExtensionsDiffer("", cfg.compressions[c], cfg.compressions[c]);
  }
}
