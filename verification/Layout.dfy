/** What a client of a published repository relies on, path by path, written out for each
    kind of file, each compression and each algorithm. */
module Layout {
  import opened Common
  import opened Filesystem
  import opened ByHash
  import opened ByHashDirectory
  import opened Indices
  import opened ByHashUpdate
  import opened TargetLoop
  import opened Contents
  import opened Paths
  import opened R = Release

  // ----- Files and lines

  ghost predicate HasBytes(t: Tree, p: Path, bytes: Bytes) {
    p in t && t[p].content == Blob(bytes)
  }

  ghost predicate HasRelease(t: Tree) {
    ["Release"] in t && t[["Release"]].content.ReleaseText?
  }

  /** Every configured algorithm has a line for `listed` in Release, with that size and hash. */
  ghost predicate HasLine(cfg: Config, io: Inputs, t: Tree, listed: string, bytes: Bytes) {
    HasRelease(t) && forall a :: a in cfg.algorithms ==>
      && a in t[["Release"]].content.para.checksums
      && Checksum(io.hash(a, bytes), |bytes|, listed) in t[["Release"]].content.para.checksums[a]
  }

  /** If compression `k` is configured, what it makes of `bytes` is in the file, and listed. */
  ghost predicate HasForm(cfg: Config, io: Inputs, t: Tree, k: Compression, bytes: Bytes, p: Path, listed: string) {
    k in cfg.compressions ==>
      && io.compress(k, bytes).Some?
      && HasBytes(t, p, io.compress(k, bytes).value)
      && HasLine(cfg, io, t, listed, io.compress(k, bytes).value)
  }

  ghost predicate HasPackages(cfg: Config, io: Inputs, t: Tree, c: string, a: string) {
    io.packages(c, a).Some? &&
    var bytes := io.packages(c, a).value;
    && HasForm(cfg, io, t, Uncompressed, bytes, [c, "binary-" + a, "Packages"], c + "/binary-" + a + "/Packages")
    && HasForm(cfg, io, t, Gzip, bytes, [c, "binary-" + a, "Packages.gz"], c + "/binary-" + a + "/Packages.gz")
    && HasForm(cfg, io, t, Bzip2, bytes, [c, "binary-" + a, "Packages.bz2"], c + "/binary-" + a + "/Packages.bz2")
  }

  ghost predicate HasSources(cfg: Config, io: Inputs, t: Tree, c: string) {
    io.sources(c).Some? &&
    var bytes := io.sources(c).value;
    && HasForm(cfg, io, t, Uncompressed, bytes, [c, "source", "Sources"], c + "/source/Sources")
    && HasForm(cfg, io, t, Gzip, bytes, [c, "source", "Sources.gz"], c + "/source/Sources.gz")
    && HasForm(cfg, io, t, Bzip2, bytes, [c, "source", "Sources.bz2"], c + "/source/Sources.bz2")
  }

  ghost predicate HasFields(t: Tree, fields: map<string, string>) {
    HasRelease(t) && t[["Release"]].content.para.fields == fields
  }

  /** All indices of all components, and the plain fields of Release. */
  ghost predicate HasIndices(cfg: Config, io: Inputs, t: Tree) {
    && (forall c, a :: c in cfg.components && a in cfg.architectures ==> HasPackages(cfg, io, t, c, a))
    && (forall c :: c in cfg.components ==> HasSources(cfg, io, t, c))
    && HasFields(t, cfg.fields)
  }

  ghost predicate HasContents(cfg: Config, io: Inputs, cio: ContentsInputs, t: Tree, c: string, a: string) {
    cio.text(c, a).Some? &&
    var text := cio.text(c, a).value;
    && HasBytes(t, [c, "Contents-" + a], text) && HasLine(cfg, io, t, c + "/Contents-" + a, text)
    && cio.gzip(text).Some?
    && HasBytes(t, [c, "Contents-" + a + ".gz"], cio.gzip(text).value)
    && HasLine(cfg, io, t, c + "/Contents-" + a + ".gz", cio.gzip(text).value)
  }

  ghost predicate HasAllContents(cfg: Config, io: Inputs, cio: ContentsInputs, t: Tree) {
    forall c, a :: c in cfg.components && a in cfg.architectures && a != "source" ==> HasContents(cfg, io, cio, t, c, a)
  }

  // ----- Copies by hash

  ghost predicate HasCopies(cfg: Config, io: Inputs, t: Tree, dir: Path, bytes: Bytes) {
    forall a, k :: a in cfg.algorithms && k in cfg.compressions && io.compress(k, bytes).Some? ==>
      HasCopy(t, dir, io.hash, a, io.hash(a, io.compress(k, bytes).value))
  }

  ghost predicate HasAllCopies(cfg: Config, io: Inputs, t: Tree) {
    && (forall c, a :: c in cfg.components && a in cfg.architectures && io.packages(c, a).Some? ==>
         HasCopies(cfg, io, t, [c, "binary-" + a], io.packages(c, a).value))
    && forall c :: c in cfg.components && io.sources(c).Some? ==> HasCopies(cfg, io, t, [c, "source"], io.sources(c).value)
  }

  /** By-hash files are wanted, and all forms of an index are kept. */
  ghost predicate KeepsForms(cfg: Config) {
    cfg.acquireByHash && (cfg.byHashKeep.Some? ==> |cfg.compressions| <= cfg.byHashKeep.value)
  }

  // ----- Where the targets and jobs are

  lemma {:induction false} FilePosition(cfg: Config, io: Inputs, ts: seq<Target>, i: nat, c: nat) returns (k: nat)
    requires i < |ts| && c < |cfg.compressions|
    ensures k < |AllFiles(cfg, io, ts)| && AllFiles(cfg, io, ts)[k] == FileOf(io, ts[i], cfg.compressions[c])
    decreases |ts|
  {
    var before := ts[..|ts| - 1];
    if i < |before| {
      k := FilePosition(cfg, io, before, i, c);
    } else {
      k := |AllFiles(cfg, io, before)| + c;
    }
  }

  lemma TargetPosition(cfg: Config, io: Inputs, i: nat, j: nat) returns (k: nat)
    requires i < |cfg.components| && j <= |cfg.architectures|
    ensures k < |AllTargets(cfg, io)|
    ensures AllTargets(cfg, io)[k] ==
      if j < |cfg.architectures| then PackagesTarget(io, cfg.components[i], cfg.architectures[j]) else SourcesTarget(io, cfg.components[i])
  {
    var ts := Targets(cfg, io, i) + ArchTargets(cfg, io, cfg.components[i], j);
    LoopPosition(cfg, io, i, j);
    k := |ts|;
    var next := if j < |cfg.architectures| then PackagesTarget(io, cfg.components[i], cfg.architectures[j]) else SourcesTarget(io, cfg.components[i]);
    assert (ts + [next])[k] == next;
  }

  lemma {:induction false} ContentsFilePosition(cio: ContentsInputs, jobs: seq<Job>, i: nat) returns (k: nat)
    requires i < |jobs|
    ensures k + 1 < |ContentsFiles(cio, jobs)|
    ensures ContentsFiles(cio, jobs)[k] == PlainFile(cio, jobs[i]) && ContentsFiles(cio, jobs)[k + 1] == GzippedFile(cio, jobs[i])
    decreases |jobs|
  {
    var before := jobs[..|jobs| - 1];
    if i < |before| {
      k := ContentsFilePosition(cio, before, i);
    } else {
      k := |ContentsFiles(cio, before)|;
    }
  }

  lemma JobPlace(cfg: Config, i: nat, j: nat) returns (k: nat)
    requires i < |cfg.components| && j < |cfg.architectures| && cfg.architectures[j] != "source"
    ensures k < |AllJobs(cfg)| && AllJobs(cfg)[k] == Job(cfg.components[i], cfg.architectures[j])
  {
    var jobs := Jobs(cfg, i) + ArchJobs(cfg, cfg.components[i], j);
    JobPosition(cfg, i, j + 1);
    k := |jobs|;
    assert ArchJobs(cfg, cfg.components[i], j + 1) == ArchJobs(cfg, cfg.components[i], j) + [Job(cfg.components[i], cfg.architectures[j])];
    assert Jobs(cfg, i) + ArchJobs(cfg, cfg.components[i], j + 1) == jobs + [Job(cfg.components[i], cfg.architectures[j])];
  }

  // ----- What a generation leaves

  lemma RenderTwo(c: string, name: string)
    ensures Render([c, name]) == c + "/" + name
  {
    assert [c, name][1..] == [name];
  }

  lemma RenderThree(c: string, d: string, name: string)
    ensures Render([c, d, name]) == c + "/" + d + "/" + name
  {
    assert [c, d, name][1..] == [d, name];
    RenderTwo(d, name);
    assert c + "/" + (d + "/" + name) == c + "/" + d + "/" + name;
  }

  lemma LineOf(cfg: Config, io: Inputs, t: Tree, r: Release, p: Path, bytes: Bytes)
    requires RELEASE in t && t[RELEASE].content == ReleaseText(r.ToParagraph())
    requires RecordOf(cfg, io, p, bytes) in r.files
    ensures HasLine(cfg, io, t, Render(p), bytes)
  {
    forall a | a in cfg.algorithms
      ensures a in r.ToParagraph().checksums && Checksum(io.hash(a, bytes), |bytes|, Render(p)) in r.ToParagraph().checksums[a]
    {
      WrittenLines(r, RecordOf(cfg, io, p, bytes), a);
    }
  }

  /** The tree and the records that Release was made from hold the files. */
  ghost predicate Made(cfg: Config, io: Inputs, t: Tree, r: Release, files: seq<IndexFile>) {
    && IndicesInPlace(t, files, |files|)
    && RELEASE in t && t[RELEASE].content == ReleaseText(r.ToParagraph())
    && forall k :: 0 <= k < |files| ==> RecordOf(cfg, io, files[k].Path(), files[k].bytes) in r.files
  }

  lemma MadeFile(cfg: Config, io: Inputs, t: Tree, r: Release, files: seq<IndexFile>, k: nat)
    requires Made(cfg, io, t, r, files) && k < |files|
    ensures HasBytes(t, files[k].Path(), files[k].bytes) && HasLine(cfg, io, t, Render(files[k].Path()), files[k].bytes)
  {
    LineOf(cfg, io, t, r, files[k].Path(), files[k].bytes);
  }

  lemma MadeForm(cfg: Config, io: Inputs, t: Tree, r: Release, i: nat, j: nat, k: Compression)
    requires Made(cfg, io, t, r, AllFiles(cfg, io, AllTargets(cfg, io))) && AllAvailable(cfg, io, AllTargets(cfg, io))
    requires i < |cfg.components| && j <= |cfg.architectures| && k in cfg.compressions
    ensures
      var c := cfg.components[i];
      var d := if j < |cfg.architectures| then "binary-" + cfg.architectures[j] else "source";
      var name := (if j < |cfg.architectures| then "Packages" else "Sources") + k.Extension();
      var content := if j < |cfg.architectures| then io.packages(c, cfg.architectures[j]) else io.sources(c);
      && content.Some? && io.compress(k, content.value).Some?
      && HasBytes(t, [c, d, name], io.compress(k, content.value).value)
      && HasLine(cfg, io, t, c + "/" + d + "/" + name, io.compress(k, content.value).value)
  {
    hide Made, AllTargets, AllFiles, HasBytes, HasLine;
    var files, ts := AllFiles(cfg, io, AllTargets(cfg, io)), AllTargets(cfg, io);
    var i' := TargetPosition(cfg, io, i, j);
    var n :| 0 <= n < |cfg.compressions| && cfg.compressions[n] == k;
    var l := FilePosition(cfg, io, ts, i', n);
    assert Available(cfg, io, ts[i']);
    MadeFile(cfg, io, t, r, files, l);
    var f := files[l];
    assert f.Path() == [f.dir[0], f.dir[1], f.name];
    RenderThree(f.dir[0], f.dir[1], f.name);
  }

  lemma MadeContents(cfg: Config, io: Inputs, cio: ContentsInputs, t: Tree, r: Release)
    requires Made(cfg, io, t, r, ContentsFiles(cio, AllJobs(cfg))) && JobsAvailable(cio, AllJobs(cfg))
    ensures HasAllContents(cfg, io, cio, t)
  {
    hide Made, AllJobs, ContentsFiles, HasBytes, HasLine;
    var files := ContentsFiles(cio, AllJobs(cfg));
    forall c, a | c in cfg.components && a in cfg.architectures && a != "source" ensures HasContents(cfg, io, cio, t, c, a) {
      var i :| 0 <= i < |cfg.components| && cfg.components[i] == c;
      var j :| 0 <= j < |cfg.architectures| && cfg.architectures[j] == a;
      var l := JobPlace(cfg, i, j);
      assert JobAvailable(cio, AllJobs(cfg)[l]);
      var k := ContentsFilePosition(cio, AllJobs(cfg), l);
      MadeFile(cfg, io, t, r, files, k);
      MadeFile(cfg, io, t, r, files, k + 1);
      ContentsNames(cio, c, a);
    }
  }

  lemma ContentsNames(cio: ContentsInputs, c: string, a: string)
    ensures PlainFile(cio, Job(c, a)).Path() == [c, "Contents-" + a] && GzippedFile(cio, Job(c, a)).Path() == [c, "Contents-" + a + ".gz"]
    ensures Render([c, "Contents-" + a]) == c + "/Contents-" + a && Render([c, "Contents-" + a + ".gz"]) == c + "/Contents-" + a + ".gz"
  {
    RenderTwo(c, "Contents-" + a);
    RenderTwo(c, "Contents-" + a + ".gz");
    assert "/" + "Contents-" == "/Contents-";
    assert c + "/" + ("Contents-" + a) == c + ("/" + "Contents-") + a;
    assert c + "/" + ("Contents-" + a + ".gz") == c + ("/" + "Contents-") + a + ".gz";
  }

  lemma Suffixes()
    ensures "Packages" + Uncompressed.Extension() == "Packages" && "Sources" + Uncompressed.Extension() == "Sources"
    ensures "Packages" + Gzip.Extension() == "Packages.gz" && "Sources" + Gzip.Extension() == "Sources.gz"
    ensures "Packages" + Bzip2.Extension() == "Packages.bz2" && "Sources" + Bzip2.Extension() == "Sources.bz2"
  {
  }

  lemma ListedNames(c: string, d: string, name: string, binary: string, a: string)
    requires d == binary + a
    ensures c + "/" + d + "/" + name == c + ("/" + binary) + a + ("/" + name)
  {
  }

  lemma MadePackages(cfg: Config, io: Inputs, t: Tree, r: Release, i: nat, j: nat)
    requires Made(cfg, io, t, r, AllFiles(cfg, io, AllTargets(cfg, io))) && AllAvailable(cfg, io, AllTargets(cfg, io))
    requires i < |cfg.components| && j < |cfg.architectures|
    ensures HasPackages(cfg, io, t, cfg.components[i], cfg.architectures[j])
  {
    hide Made, AllTargets, AllFiles, HasBytes, HasLine;
    Suffixes();
    var c, a := cfg.components[i], cfg.architectures[j];
    assert io.packages(c, a).Some? by {
      hide *;
      TargetsHaveContent(cfg, io, i, j);
    }
    assert "/" + "binary-" == "/binary-" && "/" + "Packages" == "/Packages" && "/" + "Packages.gz" == "/Packages.gz" && "/" + "Packages.bz2" == "/Packages.bz2";
    ListedNames(c, "binary-" + a, "Packages", "binary-", a);
    ListedNames(c, "binary-" + a, "Packages.gz", "binary-", a);
    ListedNames(c, "binary-" + a, "Packages.bz2", "binary-", a);
    if Uncompressed in cfg.compressions { MadeForm(cfg, io, t, r, i, j, Uncompressed); }
    if Gzip in cfg.compressions { MadeForm(cfg, io, t, r, i, j, Gzip); }
    if Bzip2 in cfg.compressions { MadeForm(cfg, io, t, r, i, j, Bzip2); }
  }

  lemma MadeSources(cfg: Config, io: Inputs, t: Tree, r: Release, i: nat)
    requires Made(cfg, io, t, r, AllFiles(cfg, io, AllTargets(cfg, io))) && AllAvailable(cfg, io, AllTargets(cfg, io))
    requires i < |cfg.components|
    ensures HasSources(cfg, io, t, cfg.components[i])
  {
    hide Made, AllTargets, AllFiles, HasBytes, HasLine;
    Suffixes();
    var c := cfg.components[i];
    assert io.sources(c).Some? by {
      hide *;
      TargetsHaveContent(cfg, io, i, |cfg.architectures|);
    }
    assert "/" + "source" == "/source" && "/source" + "/Sources" == "/source/Sources" && "/" + "Sources" == "/Sources";
    ListedSources(c, "Sources");
    ListedSources(c, "Sources.gz");
    ListedSources(c, "Sources.bz2");
    if Uncompressed in cfg.compressions { MadeForm(cfg, io, t, r, i, |cfg.architectures|, Uncompressed); }
    if Gzip in cfg.compressions { MadeForm(cfg, io, t, r, i, |cfg.architectures|, Gzip); }
    if Bzip2 in cfg.compressions { MadeForm(cfg, io, t, r, i, |cfg.architectures|, Bzip2); }
  }

  lemma ListedSources(c: string, name: string)
    ensures c + "/" + "source" + "/" + name == c + ("/source/" + name)
    ensures "/source/" + "Sources" == "/source/Sources" && "/source/" + "Sources.gz" == "/source/Sources.gz"
    ensures "/source/" + "Sources.bz2" == "/source/Sources.bz2"
  {
  }

  lemma TargetsHaveContent(cfg: Config, io: Inputs, i: nat, j: nat)
    requires AllAvailable(cfg, io, AllTargets(cfg, io)) && i < |cfg.components| && j <= |cfg.architectures|
    ensures if j < |cfg.architectures| then io.packages(cfg.components[i], cfg.architectures[j]).Some? else io.sources(cfg.components[i]).Some?
  {
    hide AllTargets;
    var k := TargetPosition(cfg, io, i, j);
    assert Available(cfg, io, AllTargets(cfg, io)[k]);
  }

  /** A Release that was made from the records of all indices. */
  lemma MadeIndices(cfg: Config, io: Inputs, t: Tree, r: Release)
    requires Made(cfg, io, t, r, AllFiles(cfg, io, AllTargets(cfg, io))) && AllAvailable(cfg, io, AllTargets(cfg, io))
    requires r.inner.fields == cfg.fields
    ensures HasIndices(cfg, io, t)
  {
    hide AllTargets, AllFiles, HasPackages, HasSources, IndicesInPlace;
    forall c, a | c in cfg.components && a in cfg.architectures ensures HasPackages(cfg, io, t, c, a) {
      var i :| 0 <= i < |cfg.components| && cfg.components[i] == c;
      var j :| 0 <= j < |cfg.architectures| && cfg.architectures[j] == a;
      MadePackages(cfg, io, t, r, i, j);
    }
    forall c | c in cfg.components ensures HasSources(cfg, io, t, c) {
      var i :| 0 <= i < |cfg.components| && cfg.components[i] == c;
      MadeSources(cfg, io, t, r, i);
    }
  }

  /** So a generation leaves all indices, with what the providers and compressors give. */
  lemma PublishedHasIndices(cfg: Config, io: Inputs, before: Tree, after: Tree)
    requires Published(cfg, io, before, after)
    ensures HasIndices(cfg, io, after)
  {
    hide AllTargets, AllFiles, InAnyByHash, ByHashUpdated, IsIndex, HasIndices, RecordOf, IndicesInPlace, AllAvailable;
    var files := AllFiles(cfg, io, AllTargets(cfg, io));
    var records := Records(cfg, io, files);
    var r := ReleaseOf(cfg, records);
    forall k | 0 <= k < |files| ensures RecordOf(cfg, io, files[k].Path(), files[k].bytes) in r.files {
      assert records[k] == RecordOf(cfg, io, files[k].Path(), files[k].bytes);
    }
    MadeIndices(cfg, io, after, r);
  }

  /** And, when all forms are kept, a copy of each of them under every hash. */
  lemma PublishedHasCopies(cfg: Config, io: Inputs, before: Tree, after: Tree)
    requires Published(cfg, io, before, after) && HasClock(before) && HasClock(after) && KeepsForms(cfg)
    ensures HasAllCopies(cfg, io, after)
  {
    hide AllTargets, AllFiles, InAnyByHash, ByHashUpdated, IsIndex, HasCopies, HasClock, IndicesInPlace, AllAvailable;
    forall c, a | c in cfg.components && a in cfg.architectures && io.packages(c, a).Some?
      ensures HasCopies(cfg, io, after, [c, "binary-" + a], io.packages(c, a).value)
    {
      var i :| 0 <= i < |cfg.components| && cfg.components[i] == c;
      var j :| 0 <= j < |cfg.architectures| && cfg.architectures[j] == a;
      var k := TargetPosition(cfg, io, i, j);
      TargetHasCopies(cfg, io, before, after, k);
    }
    forall c | c in cfg.components && io.sources(c).Some? ensures HasCopies(cfg, io, after, [c, "source"], io.sources(c).value) {
      var i :| 0 <= i < |cfg.components| && cfg.components[i] == c;
      var k := TargetPosition(cfg, io, i, |cfg.architectures|);
      TargetHasCopies(cfg, io, before, after, k);
    }
  }

  lemma TargetHasCopies(cfg: Config, io: Inputs, before: Tree, after: Tree, i: nat)
    requires ByHashUpdated(cfg, io, AllTargets(cfg, io), before, after) && i < |AllTargets(cfg, io)|
    requires HasClock(before) && HasClock(after) && KeepsForms(cfg) && AllTargets(cfg, io)[i].content.Some?
    ensures HasCopies(cfg, io, after, AllTargets(cfg, io)[i].dir, AllTargets(cfg, io)[i].content.value)
  {
    hide AllTargets, DirOf, HasClock, HasCopy, TouchAll, Pruned;
    var t := AllTargets(cfg, io)[i];
    forall a, k | a in cfg.algorithms && k in cfg.compressions && io.compress(k, t.content.value).Some?
      ensures HasCopy(after, t.dir, io.hash, a, io.hash(a, io.compress(k, t.content.value).value))
    {
      var n :| 0 <= n < |cfg.compressions| && cfg.compressions[n] == k;
      CopyIsThere(cfg, io, t.dir, FilesOf(cfg, io, t), before, after, a, n);
    }
  }
}
