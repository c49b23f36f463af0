/** Contents indices: they are written in place after the repository has been
    generated, and their records are spliced into the Release file. */
module Contents {
  import opened Common
  import opened Filesystem
  import opened ByHash
  import opened ByHashDirectory
  import opened Indices
  import opened ByHashUpdate
  import opened TargetLoop
  import opened Paths
  import opened R = Release

  /** The text of a Contents index, which is not there when scanning a build fails, and
      the compressor. */
  datatype ContentsInputs = ContentsInputs(
    text: (string, string) -> Option<Bytes>,
    gzip: Bytes -> Option<Bytes>)

  /** A component and an architecture. */
  datatype Job = Job(component: string, arch: string)

  function ArchJobs(cfg: Config, c: string, n: nat): seq<Job>
    requires n <= |cfg.architectures|
  {
    if n == 0 then []
    else ArchJobs(cfg, c, n - 1) + if cfg.architectures[n - 1] == "source" then [] else [Job(c, cfg.architectures[n - 1])]
  }

  /** `source` has no Contents index. */
  function Jobs(cfg: Config, n: nat): seq<Job>
    requires n <= |cfg.components|
  {
    if n == 0 then [] else Jobs(cfg, n - 1) + ArchJobs(cfg, cfg.components[n - 1], |cfg.architectures|)
  }

  function AllJobs(cfg: Config): seq<Job> {
    Jobs(cfg, |cfg.components|)
  }

  function PlainFile(cio: ContentsInputs, j: Job): IndexFile {
    IndexFile([j.component], "Contents-" + j.arch, cio.text(j.component, j.arch).GetOr([]))
  }

  function GzippedFile(cio: ContentsInputs, j: Job): IndexFile {
    IndexFile([j.component], "Contents-" + j.arch + ".gz", cio.gzip(cio.text(j.component, j.arch).GetOr([])).GetOr([]))
  }

  function FilesOfJob(cio: ContentsInputs, j: Job): seq<IndexFile> {
    [PlainFile(cio, j), GzippedFile(cio, j)]
  }

  function ContentsFiles(cio: ContentsInputs, jobs: seq<Job>): seq<IndexFile>
    decreases |jobs|
  {
    if jobs == [] then [] else ContentsFiles(cio, jobs[..|jobs| - 1]) + FilesOfJob(cio, jobs[|jobs| - 1])
  }

  ghost predicate JobAvailable(cio: ContentsInputs, j: Job) {
    cio.text(j.component, j.arch).Some? && cio.gzip(cio.text(j.component, j.arch).value).Some?
  }

  ghost predicate JobsAvailable(cio: ContentsInputs, jobs: seq<Job>) {
    forall i :: 0 <= i < |jobs| ==> JobAvailable(cio, jobs[i])
  }

  /** A component has one by-hash directory for the Contents of all architectures, and
      it is pruned after each of them. */
  function ContentsByHash(cfg: Config, io: Inputs, cio: ContentsInputs, jobs: seq<Job>, c: string, a: Algorithm, before: seq<Entry>): seq<Entry>
    decreases |jobs|
  {
    if jobs == [] then before
    else
      var last, s := jobs[|jobs| - 1], ContentsByHash(cfg, io, cio, jobs[..|jobs| - 1], c, a, before);
      if last.component == c then Pruned(cfg, TouchAll(s, ByHashEntries(io, FilesOfJob(cio, last), a))) else s
  }

  ghost predicate ContentsDirs(cfg: Config, io: Inputs, cio: ContentsInputs, jobs: seq<Job>, before: Tree, now: Tree) {
    forall c, a :: a in cfg.algorithms ==>
      DirOf(now, ByHashDir([c], a)) == ContentsByHash(cfg, io, cio, jobs, c, a, DirOf(before, ByHashDir([c], a)))
  }

  /** A file of the by-hash directory of a component. */
  ghost predicate InComponentByHash(cfg: Config, p: Path) {
    exists c :: InByHash(cfg, [c], p)
  }

  ghost predicate NamesApart(cfg: Config) {
    && WellNamed(cfg)
    && forall i, j :: 0 <= i < |cfg.architectures| && 0 <= j < |cfg.architectures| ==>
        cfg.architectures[i] != cfg.architectures[j] + ".gz"
  }

  // ----- The names do not collide

  lemma {:induction false} ArchJobShape(cfg: Config, c: string, n: nat, k: nat) returns (j: nat)
    requires n <= |cfg.architectures| && k < |ArchJobs(cfg, c, n)|
    ensures j < n && ArchJobs(cfg, c, n)[k] == Job(c, cfg.architectures[j]) && cfg.architectures[j] != "source"
  {
    if k < |ArchJobs(cfg, c, n - 1)| { j := ArchJobShape(cfg, c, n - 1, k); } else { j := n - 1; }
  }

  lemma {:induction false} ArchJobsDiffer(cfg: Config, c: string, n: nat, k: nat, l: nat)
    requires NoDup(cfg.architectures) && n <= |cfg.architectures| && k < l < |ArchJobs(cfg, c, n)|
    ensures ArchJobs(cfg, c, n)[k] != ArchJobs(cfg, c, n)[l]
  {
    if l < |ArchJobs(cfg, c, n - 1)| {
      ArchJobsDiffer(cfg, c, n - 1, k, l);
    } else {
      var j := ArchJobShape(cfg, c, n - 1, k);
    }
  }

  lemma {:induction false} JobShape(cfg: Config, n: nat, k: nat) returns (i: nat, j: nat)
    requires n <= |cfg.components| && k < |Jobs(cfg, n)|
    ensures i < n && j < |cfg.architectures| && cfg.architectures[j] != "source"
    ensures Jobs(cfg, n)[k] == Job(cfg.components[i], cfg.architectures[j])
  {
    var before := Jobs(cfg, n - 1);
    if k < |before| {
      i, j := JobShape(cfg, n - 1, k);
    } else {
      i := n - 1;
      j := ArchJobShape(cfg, cfg.components[i], |cfg.architectures|, k - |before|);
    }
  }

  lemma {:induction false} JobsDiffer(cfg: Config, n: nat, k: nat, l: nat)
    requires WellNamed(cfg) && n <= |cfg.components| && k < l < |Jobs(cfg, n)|
    ensures Jobs(cfg, n)[k] != Jobs(cfg, n)[l]
  {
    var before, c := Jobs(cfg, n - 1), cfg.components[n - 1];
    if l < |before| {
      JobsDiffer(cfg, n - 1, k, l);
    } else if k < |before| {
      var i, _ := JobShape(cfg, n - 1, k);
      var _ := ArchJobShape(cfg, c, |cfg.architectures|, l - |before|);
    } else {
      ArchJobsDiffer(cfg, c, |cfg.architectures|, k - |before|, l - |before|);
    }
  }

  lemma ContentsNames(a: string, b: string)
    ensures "Contents-" + a == "Contents-" + b <==> a == b
    ensures "Contents-" + a == "Contents-" + b + ".gz" <==> a == b + ".gz"
    ensures "Contents-" + a + ".gz" == "Contents-" + b + ".gz" <==> a == b
  {
    assert ("Contents-" + a)[9..] == a && ("Contents-" + b)[9..] == b;
    assert ("Contents-" + b + ".gz")[9..] == b + ".gz" && ("Contents-" + a + ".gz")[9..] == a + ".gz";
    assert (a + ".gz")[..|a + ".gz"| - 3] == a && (b + ".gz")[..|b + ".gz"| - 3] == b;
  }

  ghost predicate JobOf(cfg: Config, j: Job) {
    j.component in cfg.components && j.arch in cfg.architectures
  }

  lemma JobFilesApart(cfg: Config, cio: ContentsInputs, j: Job, k: Job)
    requires NamesApart(cfg) && JobOf(cfg, j) && JobOf(cfg, k)
    ensures PlainFile(cio, j).Path() != GzippedFile(cio, k).Path()
    ensures j != k ==> PlainFile(cio, j).Path() != PlainFile(cio, k).Path()
    ensures j != k ==> GzippedFile(cio, j).Path() != GzippedFile(cio, k).Path()
  {
    ContentsNames(j.arch, k.arch);
    var i :| 0 <= i < |cfg.architectures| && cfg.architectures[i] == j.arch;
    var l :| 0 <= l < |cfg.architectures| && cfg.architectures[l] == k.arch;
    assert PlainFile(cio, j).Path()[1] == PlainFile(cio, j).name && GzippedFile(cio, j).Path()[1] == GzippedFile(cio, j).name;
    assert PlainFile(cio, k).Path()[1] == PlainFile(cio, k).name && GzippedFile(cio, k).Path()[1] == GzippedFile(cio, k).name;
    assert PlainFile(cio, j).Path()[0] == j.component && GzippedFile(cio, j).Path()[0] == j.component;
    assert PlainFile(cio, k).Path()[0] == k.component && GzippedFile(cio, k).Path()[0] == k.component;
  }

  lemma {:induction false} ContentsFileOrigin(cio: ContentsInputs, jobs: seq<Job>, k: nat) returns (i: nat)
    requires k < |ContentsFiles(cio, jobs)|
    ensures i < |jobs| && ContentsFiles(cio, jobs)[k] in FilesOfJob(cio, jobs[i])
    decreases |jobs|
  {
    var before := jobs[..|jobs| - 1];
    if k < |ContentsFiles(cio, before)| {
      i := ContentsFileOrigin(cio, before, k);
    } else {
      i := |jobs| - 1;
    }
  }

  lemma JobsAreJobs(cfg: Config, jobs: seq<Job>)
    requires jobs <= AllJobs(cfg)
    ensures forall i :: 0 <= i < |jobs| ==> JobOf(cfg, jobs[i])
  {
    forall i | 0 <= i < |jobs| ensures JobOf(cfg, jobs[i]) {
      assert jobs[i] == AllJobs(cfg)[i];
      var _, _ := JobShape(cfg, |cfg.components|, i);
    }
  }

  lemma {:induction false} ContentsFilesDistinct(cfg: Config, cio: ContentsInputs, jobs: seq<Job>)
    requires NamesApart(cfg) && jobs <= AllJobs(cfg)
    ensures DistinctFiles(ContentsFiles(cio, jobs))
    decreases |jobs|
  {
    if jobs != [] {
      var before, j := jobs[..|jobs| - 1], jobs[|jobs| - 1];
      ContentsFilesDistinct(cfg, cio, before);
      JobsAreJobs(cfg, jobs);
      JobFilesApart(cfg, cio, j, j);
      var files := ContentsFiles(cio, before);
      forall k | 0 <= k < |files|
        ensures files[k].Path() != PlainFile(cio, j).Path() && files[k].Path() != GzippedFile(cio, j).Path()
      {
        var i := ContentsFileOrigin(cio, before, k);
        JobsDiffer(cfg, |cfg.components|, i, |jobs| - 1);
        assert before[i] == jobs[i] == AllJobs(cfg)[i];
        JobFilesApart(cfg, cio, jobs[i], j);
        JobFilesApart(cfg, cio, j, jobs[i]);
      }
    }
  }

  lemma {:induction false} ContentsPathsAreShort(cio: ContentsInputs, jobs: seq<Job>)
    ensures forall k :: 0 <= k < |ContentsFiles(cio, jobs)| ==> |ContentsFiles(cio, jobs)[k].Path()| == 2
    decreases |jobs|
  {
    if jobs != [] { ContentsPathsAreShort(cio, jobs[..|jobs| - 1]); }
  }

  // ----- The jobs in the order of the loops

  lemma JobPosition(cfg: Config, i: nat, n: nat)
    requires i < |cfg.components| && n <= |cfg.architectures|
    ensures Jobs(cfg, i) + ArchJobs(cfg, cfg.components[i], n) <= AllJobs(cfg)
  {
    JobsPrefix(cfg, i + 1, |cfg.components|);
    ArchJobsPrefix(cfg, cfg.components[i], n, |cfg.architectures|);
  }

  lemma {:induction false} JobsPrefix(cfg: Config, n: nat, m: nat)
    requires n <= m <= |cfg.components|
    ensures Jobs(cfg, n) <= Jobs(cfg, m)
  {
    if n < m { JobsPrefix(cfg, n, m - 1); }
  }

  lemma {:induction false} ArchJobsPrefix(cfg: Config, c: string, n: nat, m: nat)
    requires n <= m <= |cfg.architectures|
    ensures ArchJobs(cfg, c, n) <= ArchJobs(cfg, c, m)
  {
    if n < m { ArchJobsPrefix(cfg, c, n, m - 1); }
  }
}
