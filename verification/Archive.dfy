/** Publishing a repository: the asynchronous generator, then the Contents pass. The
    Release file that is left agrees with the files on disk. */
module Archive {
  import opened Common
  import opened Filesystem
  import opened Indices
  import opened ByHash
  import opened ByHashDirectory
  import opened ByHashUpdate
  import opened TargetLoop
  import opened Contents
  import opened ContentsGenerator
  import opened Paths
  import opened R = Release
  import opened Layout
  import AsyncRepository

  // ----- What should be listed, from the configuration alone

  ghost predicate IsPackages(cfg: Config, p: Path) {
    exists c, a, k :: c in cfg.components && a in cfg.architectures && k in cfg.compressions && p == PackagesPath(c, a, k)
  }

  ghost predicate IsSources(cfg: Config, p: Path) {
    exists c, k :: c in cfg.components && k in cfg.compressions && p == SourcesPath(c, k)
  }

  ghost predicate IsContents(cfg: Config, p: Path) {
    exists c, a, suffix :: c in cfg.components && a in cfg.architectures && a != "source" && (suffix == "" || suffix == ".gz")
                           && p == ContentsPath(c, a, suffix)
  }

  function PackagesPath(c: string, a: string, k: Compression): Path {
    [c, "binary-" + a, match k case Uncompressed => "Packages" case Gzip => "Packages.gz" case Bzip2 => "Packages.bz2"]
  }

  function SourcesPath(c: string, k: Compression): Path {
    [c, "source", match k case Uncompressed => "Sources" case Gzip => "Sources.gz" case Bzip2 => "Sources.bz2"]
  }

  lemma PathNames(c: string, a: string, k: Compression)
    ensures PackagesPath(c, a, k) == [c, "binary-" + a, "Packages" + k.Extension()]
    ensures SourcesPath(c, k) == [c, "source", "Sources" + k.Extension()]
  {
    Suffixes();
  }

  function ContentsPath(c: string, a: string, suffix: string): Path {
    [c, "Contents-" + a + suffix]
  }

  ghost predicate IsPublished(cfg: Config, p: Path) {
    IsPackages(cfg, p) || IsSources(cfg, p) || IsContents(cfg, p)
  }

  function AlgorithmSet(cfg: Config): set<Algorithm> {
    set a | a in cfg.algorithms
  }

  /** The record gives the size and all hashes of what is on disk at `p`. */
  ghost predicate Matches(cfg: Config, io: Inputs, t: Tree, f: HashedFile, p: Path) {
    && f.path == Render(p)
    && p in t && t[p].content.Blob?
    && f.size == |t[p].content.bytes|
    && f.hashes.Keys == AlgorithmSet(cfg)
    && forall a :: a in cfg.algorithms ==> f.hashes[a] == io.hash(a, t[p].content.bytes)
  }

  /** What a client reads in the Release file. */
  function ListedFiles(t: Tree): seq<HashedFile> {
    if RELEASE in t && t[RELEASE].content.ReleaseText? then FromParagraph(t[RELEASE].content.para).files else []
  }

  /** Release lists exactly the published files, each once, and each as it is on disk. */
  ghost predicate ReleaseAgrees(cfg: Config, io: Inputs, t: Tree) {
    var listed := ListedFiles(t);
    && (forall k :: 0 <= k < |listed| ==> IsTrueEntry(cfg, io, t, listed[k]))
    && (forall p :: IsPublished(cfg, p) ==> ListsPath(listed, p))
    && DistinctPaths(listed)
  }

  ghost predicate IsTrueEntry(cfg: Config, io: Inputs, t: Tree, f: HashedFile) {
    exists p :: IsPublished(cfg, p) && Matches(cfg, io, t, f, p)
  }

  ghost predicate ListsPath(listed: seq<HashedFile>, p: Path) {
    exists k :: 0 <= k < |listed| && listed[k].path == Render(p)
  }

  // ----- The files of the targets and jobs are the published ones

  lemma IndexIsPublished(cfg: Config, io: Inputs, k: nat)
    requires k < |AllFiles(cfg, io, AllTargets(cfg, io))|
    ensures IsPublished(cfg, AllFiles(cfg, io, AllTargets(cfg, io))[k].Path())
  {
    hide AllFiles, Targets, PackagesPath, SourcesPath;
    var ts := AllTargets(cfg, io);
    var i, c := FileOrigin(cfg, io, ts, k);
    var n := TargetShape(cfg, io, |cfg.components|, i);
    var p := AllFiles(cfg, io, ts)[k].Path();
    if ts[i] == SourcesTarget(io, cfg.components[n]) {
      PathNames(cfg.components[n], "", cfg.compressions[c]);
      assert p == SourcesPath(cfg.components[n], cfg.compressions[c]);
    } else {
      var j :| 0 <= j < |cfg.architectures| && ts[i] == PackagesTarget(io, cfg.components[n], cfg.architectures[j]);
      PathNames(cfg.components[n], cfg.architectures[j], cfg.compressions[c]);
      assert p == PackagesPath(cfg.components[n], cfg.architectures[j], cfg.compressions[c]);
    }
  }

  lemma ContentsIsPublished(cfg: Config, cio: ContentsInputs, k: nat)
    requires k < |ContentsFiles(cio, AllJobs(cfg))|
    ensures IsPublished(cfg, ContentsFiles(cio, AllJobs(cfg))[k].Path())
  {
    var jobs := AllJobs(cfg);
    var i := ContentsFileOrigin(cio, jobs, k);
    var n, j := JobShape(cfg, |cfg.components|, i);
    var p := ContentsFiles(cio, jobs)[k].Path();
    var c, a := cfg.components[n], cfg.architectures[j];
    assert "Contents-" + a + "" == "Contents-" + a;
    assert p == ContentsPath(c, a, "") || p == ContentsPath(c, a, ".gz");
  }

  ghost predicate Among(files: seq<IndexFile>, p: Path) {
    exists k :: 0 <= k < |files| && files[k].Path() == p
  }

  lemma PublishedIsIndex(cfg: Config, io: Inputs, p: Path)
    requires IsPackages(cfg, p) || IsSources(cfg, p)
    ensures Among(AllFiles(cfg, io, AllTargets(cfg, io)), p)
  {
    hide AllFiles, AllTargets;
    if IsPackages(cfg, p) {
      var c, a, k :| c in cfg.components && a in cfg.architectures && k in cfg.compressions && p == PackagesPath(c, a, k);
      var j :| 0 <= j < |cfg.architectures| && cfg.architectures[j] == a;
      TargetFile(cfg, io, c, j, k, p);
    } else {
      var c, k :| c in cfg.components && k in cfg.compressions && p == SourcesPath(c, k);
      TargetFile(cfg, io, c, |cfg.architectures|, k, p);
    }
  }

  lemma TargetFile(cfg: Config, io: Inputs, c: string, j: nat, k: Compression, p: Path)
    requires c in cfg.components && j <= |cfg.architectures| && k in cfg.compressions
    requires p == if j < |cfg.architectures| then PackagesPath(c, cfg.architectures[j], k) else SourcesPath(c, k)
    ensures Among(AllFiles(cfg, io, AllTargets(cfg, io)), p)
  {
    hide AllFiles, AllTargets;
    var i :| 0 <= i < |cfg.components| && cfg.components[i] == c;
    var n :| 0 <= n < |cfg.compressions| && cfg.compressions[n] == k;
    var t := TargetPosition(cfg, io, i, j);
    var f := FilePosition(cfg, io, AllTargets(cfg, io), t, n);
    PathNames(c, if j < |cfg.architectures| then cfg.architectures[j] else "", k);
    assert AllFiles(cfg, io, AllTargets(cfg, io))[f].Path() == p;
  }

  lemma PublishedIsContents(cfg: Config, cio: ContentsInputs, p: Path)
    requires IsContents(cfg, p)
    ensures Among(ContentsFiles(cio, AllJobs(cfg)), p)
  {
    var c, a, suffix :| c in cfg.components && a in cfg.architectures && a != "source" && (suffix == "" || suffix == ".gz")
                        && p == ContentsPath(c, a, suffix);
    var i :| 0 <= i < |cfg.components| && cfg.components[i] == c;
    var j :| 0 <= j < |cfg.architectures| && cfg.architectures[j] == a;
    var n := JobPlace(cfg, i, j);
    var k := ContentsFilePosition(cio, AllJobs(cfg), n);
    assert "Contents-" + a + "" == "Contents-" + a;
    assert p == ContentsFiles(cio, AllJobs(cfg))[k].Path() || p == ContentsFiles(cio, AllJobs(cfg))[k + 1].Path();
  }

  // ----- The records

  lemma ConcatNoSlash(a: string, b: string)
    requires NoSlash(a) && NoSlash(b)
    ensures NoSlash(a + b)
  {
  }

  lemma PublishedNoSlashes(cfg: Config, p: Path)
    requires WellNamed(cfg) && IsPublished(cfg, p)
    ensures NoSlashes(p) && p != []
  {
    forall s: string | s in cfg.components || s in cfg.architectures ensures NoSlash(s) {
    }
    forall k: Compression ensures NoSlash(k.Extension()) {
    }
    if IsPackages(cfg, p) {
      var c, a, k :| c in cfg.components && a in cfg.architectures && k in cfg.compressions && p == PackagesPath(c, a, k);
      ConcatNoSlash("binary-", a);
      ConcatNoSlash("Packages", k.Extension());
    } else if IsSources(cfg, p) {
      var c, k :| c in cfg.components && k in cfg.compressions && p == SourcesPath(c, k);
      ConcatNoSlash("Sources", k.Extension());
    } else {
      var c, a, suffix :| c in cfg.components && a in cfg.architectures && a != "source" && (suffix == "" || suffix == ".gz")
                          && p == ContentsPath(c, a, suffix);
      ConcatNoSlash("Contents-", a);
      ConcatNoSlash("Contents-" + a, suffix);
    }
  }

  /** All the files of a publication: the indices, then the Contents. */
  function PublishedFiles(cfg: Config, io: Inputs, cio: ContentsInputs): seq<IndexFile> {
    AllFiles(cfg, io, AllTargets(cfg, io)) + ContentsFiles(cio, AllJobs(cfg))
  }

  lemma PublishedFilesArePublished(cfg: Config, io: Inputs, cio: ContentsInputs)
    requires NamesApart(cfg)
    ensures forall k :: 0 <= k < |PublishedFiles(cfg, io, cio)| ==> IsPublished(cfg, PublishedFiles(cfg, io, cio)[k].Path())
    ensures forall p :: IsPublished(cfg, p) ==> Among(PublishedFiles(cfg, io, cio), p)
    ensures DistinctFiles(PublishedFiles(cfg, io, cio))
  {
    hide AllFiles, AllTargets, ContentsFiles, AllJobs, NamesApart, IsPackages, IsSources, IsContents;
    var ts := AllTargets(cfg, io);
    var files: seq<IndexFile>, more: seq<IndexFile> := AllFiles(cfg, io, ts), ContentsFiles(cio, AllJobs(cfg));
    forall k | 0 <= k < |files + more| ensures IsPublished(cfg, (files + more)[k].Path()) {
      if k < |files| { IndexIsPublished(cfg, io, k); } else { ContentsIsPublished(cfg, cio, k - |files|); }
    }
    forall p | IsPublished(cfg, p) ensures Among(files + more, p) {
      if IsContents(cfg, p) {
        PublishedIsContents(cfg, cio, p);
        var k :| 0 <= k < |more| && more[k].Path() == p;
        assert (files + more)[|files| + k].Path() == p;
      } else {
        PublishedIsIndex(cfg, io, p);
        var k :| 0 <= k < |files| && files[k].Path() == p;
        assert (files + more)[k].Path() == p;
      }
    }
    PrefixDirs(cfg, io, ts);
    FileDirs(cfg, io, ts);
    ContentsPathsAreShort(cio, AllJobs(cfg));
    FilesAreDistinct(cfg, io, ts) by { NamesApartIsWellNamed(cfg); }
    ContentsFilesDistinct(cfg, cio, AllJobs(cfg));
  }

  lemma NamesApartIsWellNamed(cfg: Config)
    requires NamesApart(cfg)
    ensures WellNamed(cfg)
  {
  }

  lemma RecordsAreDistinct(cfg: Config, io: Inputs, files: seq<IndexFile>)
    requires WellNamed(cfg) && DistinctFiles(files)
    requires forall k :: 0 <= k < |files| ==> IsPublished(cfg, files[k].Path())
    ensures DistinctPaths(Records(cfg, io, files))
  {
    hide WellNamed, IsPublished, HashData;
    forall i, j | 0 <= i < j < |files| ensures Render(files[i].Path()) != Render(files[j].Path()) {
      PublishedNoSlashes(cfg, files[i].Path());
      PublishedNoSlashes(cfg, files[j].Path());
      RenderInjective(files[i].Path(), files[j].Path());
    }
  }

  lemma RecordsAlgorithms(cfg: Config, io: Inputs, files: seq<IndexFile>)
    ensures forall k :: 0 <= k < |files| ==> Records(cfg, io, files)[k].hashes.Keys == AlgorithmSet(cfg)
  {
  }

  /** Writing the records, reading them back, adding more and writing again loses nothing. */
  lemma SplicedRecords(cfg: Config, io: Inputs, files: seq<IndexFile>, more: seq<IndexFile>)
    requires cfg.algorithms != [] && DistinctPaths(Records(cfg, io, files + more))
    ensures
      var written := ReleaseOf(cfg, Records(cfg, io, files)).ToParagraph();
      var spliced := AddFiles(FromParagraph(written), Records(cfg, io, more));
      FromParagraph(spliced.ToParagraph()).files == Records(cfg, io, files + more)
  {
    hide RecordOf;
    var first, all := Records(cfg, io, files), Records(cfg, io, files + more);
    assert all == first + Records(cfg, io, more);
    RecordsAlgorithms(cfg, io, files);
    RecordsAlgorithms(cfg, io, files + more);
    assert cfg.algorithms[0] in AlgorithmSet(cfg);
    assert DistinctPaths(first) by {
      assert forall i :: 0 <= i < |first| ==> first[i] == all[i];
    }
    RoundTripSameAlgorithms(ReleaseOf(cfg, first), AlgorithmSet(cfg));
    ParsedIsCovered(ReleaseOf(cfg, first), Records(cfg, io, more));
    RoundTripSameAlgorithms(Release(ReleaseOf(cfg, first).ToParagraph(), all), AlgorithmSet(cfg));
  }

  /** What the second writing writes is what all records together are written as. */
  lemma SplicedParagraph(cfg: Config, io: Inputs, files: seq<IndexFile>, more: seq<IndexFile>)
    requires DistinctPaths(Records(cfg, io, files + more))
    ensures
      var written := ReleaseOf(cfg, Records(cfg, io, files)).ToParagraph();
      AddFiles(FromParagraph(written), Records(cfg, io, more)).ToParagraph()
        == R.Release(written, Records(cfg, io, files) + Records(cfg, io, more)).ToParagraph()
  {
    hide RecordOf, ChecksumList, Merged;
    var first, all, rest := Records(cfg, io, files), Records(cfg, io, files + more), Records(cfg, io, more);
    assert all == first + rest;
    RecordsAlgorithms(cfg, io, files);
    RecordsAlgorithms(cfg, io, more);
    assert DistinctPaths(first) by {
      assert forall i :: 0 <= i < |first| ==> first[i] == all[i];
    }
    if cfg.algorithms != [] {
      assert cfg.algorithms[0] in AlgorithmSet(cfg);
      assert FromParagraph(ReleaseOf(cfg, first).ToParagraph()).files == first by {
        RoundTripSameAlgorithms(ReleaseOf(cfg, first), AlgorithmSet(cfg));
      }
    } else {
      NothingListed(ReleaseOf(cfg, first), rest);
    }
  }

  /** Without hashes, nothing is listed, and so nothing read back. */
  lemma NothingListed(r: Release, rest: seq<HashedFile>)
    requires r.inner.checksums == map[]
    requires (forall k :: 0 <= k < |r.files| ==> r.files[k].hashes.Keys == {}) && forall k :: 0 <= k < |rest| ==> rest[k].hashes.Keys == {}
    ensures
      var written := r.ToParagraph();
      AddFiles(FromParagraph(written), rest).ToParagraph() == R.Release(written, r.files + rest).ToParagraph()
  {
    hide ChecksumList, Merged;
    forall a: R.Algorithm ensures ChecksumList(r.files, a) == ChecksumList(r.files + rest, a) == ChecksumList(rest, a) == [] {
      NoLines(r.files, a);
      NoLines(rest, a);
      NoLines(r.files + rest, a);
    }
    var written := r.ToParagraph();
    assert written.checksums == map[];
    NothingParsed(written);
    assert AddFiles(FromParagraph(written), rest) == R.Release(written, [] + rest) && [] + rest == rest;
  }

  lemma {:induction false} NoLines(files: seq<HashedFile>, a: R.Algorithm)
    requires forall k :: 0 <= k < |files| ==> files[k].hashes.Keys == {}
    ensures ChecksumList(files, a) == []
    decreases |files|
  {
    if files != [] { NoLines(files[..|files| - 1], a); }
  }

  lemma NothingParsed(p: Paragraph)
    requires forall a: R.Algorithm :: a in p.checksums ==> p.checksums[a] == []
    ensures FromParagraph(p).files == []
  {
    assert Merged(p, 0) == [] && Merged(p, 1) == [] && Merged(p, 2) == [] && Merged(p, 3) == [] && Merged(p, 4) == [];
  }

  /** Release lists the indices if and only if at least one hash algorithm is configured
      (or there are none to list). */
  lemma ListedIffHashed(cfg: Config, io: Inputs, files: seq<IndexFile>)
    requires DistinctPaths(Records(cfg, io, files))
    ensures FromParagraph(ReleaseOf(cfg, Records(cfg, io, files)).ToParagraph()).files == Records(cfg, io, files)
            <==> cfg.algorithms != [] || files == []
  {
    hide RecordOf;
    var r := ReleaseOf(cfg, Records(cfg, io, files));
    RecordsAlgorithms(cfg, io, files);
    if cfg.algorithms != [] {
      assert cfg.algorithms[0] in AlgorithmSet(cfg);
      RoundTripSameAlgorithms(r, AlgorithmSet(cfg));
    } else {
      RoundTripExact(r);
      if files != [] {
        assert r.files[0].hashes.Keys == {};
        assert !KeepsOrder(r.files);
      }
    }
  }

  // ----- Agreement

  lemma AgreementFrom(cfg: Config, io: Inputs, files: seq<IndexFile>, t: Tree)
    requires WellNamed(cfg) && DistinctFiles(files)
    requires forall k :: 0 <= k < |files| ==> IsPublished(cfg, files[k].Path())
    requires forall p :: IsPublished(cfg, p) ==> Among(files, p)
    requires IndicesInPlace(t, files, |files|)
    requires ListedFiles(t) == Records(cfg, io, files)
    ensures ReleaseAgrees(cfg, io, t)
  {
    hide WellNamed, IsPublished, ListedFiles;
    var listed := ListedFiles(t);
    RecordsAreDistinct(cfg, io, files);
    RecordsAlgorithms(cfg, io, files);
    forall k | 0 <= k < |listed| ensures IsTrueEntry(cfg, io, t, listed[k]) {
      assert Matches(cfg, io, t, listed[k], files[k].Path());
    }
    forall p | IsPublished(cfg, p) ensures ListsPath(listed, p) {
      var k :| 0 <= k < |files| && files[k].Path() == p;
      assert listed[k].path == Render(p);
    }
  }

  lemma BothInPlace(cfg: Config, io: Inputs, cio: ContentsInputs, start: Tree, mid: Tree, after: Tree)
    requires Published(cfg, io, start, mid) && Spliced(cfg, io, cio, mid, after)
    ensures IndicesInPlace(after, PublishedFiles(cfg, io, cio), |PublishedFiles(cfg, io, cio)|)
  {
    hide AllFiles, AllTargets, ContentsFiles, AllJobs, ByHashUpdated, ContentsDirs, AllAvailable, JobsAvailable;
    var files: seq<IndexFile> := AllFiles(cfg, io, AllTargets(cfg, io));
    var more: seq<IndexFile> := ContentsFiles(cio, AllJobs(cfg));
    PrefixDirs(cfg, io, AllTargets(cfg, io));
    FileDirs(cfg, io, AllTargets(cfg, io));
    ContentsPathsAreShort(cio, AllJobs(cfg));
    IndicesKept(cfg, io, cio, mid, after);
    forall k | 0 <= k < |files + more| ensures
      (files + more)[k].Path() in after && after[(files + more)[k].Path()].content == Blob((files + more)[k].bytes)
    {
      if k < |files| { assert SameAt(after, mid, files[k].Path()); }
    }
  }

  lemma IndicesKept(cfg: Config, io: Inputs, cio: ContentsInputs, mid: Tree, after: Tree)
    requires Spliced(cfg, io, cio, mid, after)
    ensures forall p :: |p| == 3 ==> SameAt(after, mid, p)
  {
    hide ContentsFiles, AllJobs, ContentsDirs, JobsAvailable, IndicesInPlace;
    var more := ContentsFiles(cio, AllJobs(cfg));
    ContentsPathsAreShort(cio, AllJobs(cfg));
    forall p: Path | |p| == 3 ensures SameAt(after, mid, p) {
      NotOfComponent(cfg, p);
      assert |RELEASE| == 1;
      assert !IsIndex(more, |more|, p);
    }
  }

  lemma NotOfComponent(cfg: Config, p: Path)
    requires |p| != 4
    ensures !InComponentByHash(cfg, p)
  {
  }

  lemma ListedAreRecords(cfg: Config, io: Inputs, cio: ContentsInputs, start: Tree, mid: Tree, after: Tree)
    requires NamesApart(cfg) && cfg.algorithms != []
    requires Published(cfg, io, start, mid) && Spliced(cfg, io, cio, mid, after)
    ensures ListedFiles(after) == Records(cfg, io, PublishedFiles(cfg, io, cio))
  {
    hide AllFiles, AllTargets, ContentsFiles, AllJobs, NamesApart, IsPublished, RecordOf, ByHashUpdated, ContentsDirs;
    var files: seq<IndexFile> := AllFiles(cfg, io, AllTargets(cfg, io));
    var more: seq<IndexFile> := ContentsFiles(cio, AllJobs(cfg));
    PublishedFilesArePublished(cfg, io, cio);
    NamesApartIsWellNamed(cfg);
    RecordsAreDistinct(cfg, io, files + more);
    SplicedRecords(cfg, io, files, more);
  }

  /** Generation and splice together. */
  lemma PublicationAgrees(cfg: Config, io: Inputs, cio: ContentsInputs, start: Tree, mid: Tree, after: Tree)
    requires NamesApart(cfg) && cfg.algorithms != []
    requires Published(cfg, io, start, mid) && Spliced(cfg, io, cio, mid, after)
    ensures ReleaseAgrees(cfg, io, after)
  {
    hide AllFiles, AllTargets, ContentsFiles, AllJobs, NamesApart, ReleaseAgrees, IsPublished, RecordOf, ListedFiles, Published, Spliced;
    PublishedFilesArePublished(cfg, io, cio);
    NamesApartIsWellNamed(cfg);
    ListedAreRecords(cfg, io, cio, start, mid, after);
    BothInPlace(cfg, io, cio, start, mid, after);
    AgreementFrom(cfg, io, PublishedFiles(cfg, io, cio), after);
  }

  /** After the splice, the indices are still there, and listed. */
  lemma SplicedHasIndices(cfg: Config, io: Inputs, cio: ContentsInputs, start: Tree, mid: Tree, after: Tree)
    requires NamesApart(cfg) && Published(cfg, io, start, mid) && Spliced(cfg, io, cio, mid, after)
    ensures HasIndices(cfg, io, after)
  {
    hide AllTargets, AllFiles, ContentsFiles, AllJobs, NamesApart, RecordOf, ByHashUpdated, ContentsDirs, HasIndices, JobsAvailable,
         InAnyByHash, InComponentByHash, IsIndex, AllAvailable, IsPublished, PublishedFiles;
    var files: seq<IndexFile> := AllFiles(cfg, io, AllTargets(cfg, io));
    var more: seq<IndexFile> := ContentsFiles(cio, AllJobs(cfg));
    assert DistinctPaths(Records(cfg, io, files + more)) by { PublishedRecords(cfg, io, cio); }
    SplicedParagraph(cfg, io, files, more);
    var first := Records(cfg, io, files);
    var r := R.Release(ReleaseOf(cfg, first).ToParagraph(), first + Records(cfg, io, more));
    assert IndicesInPlace(after, files, |files|) by { IndicesStay(cfg, io, cio, start, mid, after); }
    forall k | 0 <= k < |files| ensures RecordOf(cfg, io, files[k].Path(), files[k].bytes) in r.files {
      assert r.files[k] == first[k] == RecordOf(cfg, io, files[k].Path(), files[k].bytes);
    }
    MadeIndices(cfg, io, after, r);
  }

  lemma PublishedRecords(cfg: Config, io: Inputs, cio: ContentsInputs)
    requires NamesApart(cfg)
    ensures DistinctPaths(Records(cfg, io, AllFiles(cfg, io, AllTargets(cfg, io)) + ContentsFiles(cio, AllJobs(cfg))))
  {
    hide AllTargets, AllFiles, ContentsFiles, AllJobs, NamesApart, IsPublished, RecordOf;
    PublishedFilesArePublished(cfg, io, cio);
    NamesApartIsWellNamed(cfg);
    RecordsAreDistinct(cfg, io, PublishedFiles(cfg, io, cio));
  }

  lemma IndicesStay(cfg: Config, io: Inputs, cio: ContentsInputs, start: Tree, mid: Tree, after: Tree)
    requires Published(cfg, io, start, mid) && Spliced(cfg, io, cio, mid, after)
    ensures var files := AllFiles(cfg, io, AllTargets(cfg, io)); IndicesInPlace(after, files, |files|)
  {
    hide AllTargets, AllFiles, Spliced, ByHashUpdated, InAnyByHash;
    var ts := AllTargets(cfg, io);
    IndicesKept(cfg, io, cio, mid, after);
    PrefixDirs(cfg, io, ts);
    FileDirs(cfg, io, ts);
    var files := AllFiles(cfg, io, ts);
    forall k | 0 <= k < |files| ensures SameAt(after, mid, files[k].Path()) {
      assert |files[k].Path()| == 3;
    }
  }

  lemma HasReleaseText(cfg: Config, io: Inputs, before: Tree, after: Tree)
    requires Published(cfg, io, before, after)
    ensures RELEASE in after && after[RELEASE].content.ReleaseText?
  {
    hide AllFiles, AllTargets, ByHashUpdated, InAnyByHash;
  }

  /** How far a publication got. */
  datatype Reached = Generating(stage: AsyncRepository.Stage) | AddingContents(rewriting: bool) | Complete

  ghost predicate PublicationOutcome(cfg: Config, io: Inputs, cio: ContentsInputs, before: Tree, after: Tree, reached: Reached) {
    match reached
    case Generating(stage) => !stage.Finished? && AsyncRepository.Outcome(cfg, io, before, after, stage)
    case AddingContents(rewriting) =>
      exists mid :: Published(cfg, io, before, mid) && HasClock(mid) && ContentsPass(cfg, io, cio, mid, after, rewriting)
    case Complete => exists mid :: Published(cfg, io, before, mid) && HasClock(mid) && Spliced(cfg, io, cio, mid, after)
  }

  /** A Contents pass, wherever it stops, leaves the generated indices and their by-hash
      directories alone, and Release too until its rewriting starts. */
  lemma ContentsPassKeepsIndices(cfg: Config, io: Inputs, cio: ContentsInputs, mid: Tree, after: Tree, clock: nat, rewriting: bool)
    requires Stamped(mid, clock) && ContentsPass(cfg, io, cio, mid, after, rewriting)
    ensures forall p :: |p| == 3 || |p| == 5 ==> SameAt(after, mid, p)
    ensures !rewriting ==> SameAt(after, mid, RELEASE)
    ensures forall i :: 0 <= i < |AllTargets(cfg, io)| ==> SameDirs(AllTargets(cfg, io)[i].dir, mid, after)
  {
    hide AllJobs, AllTargets, ContentsFiles, ContentsAttempted, InComponentByHash, Stamped, DirOf;
    ContentsPathsAreShort(cio, AllJobs(cfg));
    forall p | |p| == 3 || |p| == 5 || (!rewriting && p == RELEASE) ensures SameAt(after, mid, p) {
      assert !InComponentByHash(cfg, p) by { hide *; NotOfComponent(cfg, p); }
    }
    var ts := AllTargets(cfg, io);
    PrefixDirs(cfg, io, ts);
    forall i | 0 <= i < |ts| ensures SameDirs(ts[i].dir, mid, after) {
      SameFilesSameDirs(ts[i].dir, mid, after, clock);
    }
  }

  /** So a publication that fails in its Contents pass has the new indices in place. */
  lemma IndicesSurvive(cfg: Config, io: Inputs, cio: ContentsInputs, before: Tree, mid: Tree, after: Tree, clock: nat, rewriting: bool)
    requires Stamped(mid, clock) && Published(cfg, io, before, mid) && ContentsPass(cfg, io, cio, mid, after, rewriting)
    ensures var files := AllFiles(cfg, io, AllTargets(cfg, io)); IndicesInPlace(after, files, |files|)
  {
    hide AllFiles, AllTargets, ContentsPass, ByHashUpdated, InAnyByHash, Stamped;
    var ts := AllTargets(cfg, io);
    ContentsPassKeepsIndices(cfg, io, cio, mid, after, clock, rewriting);
    PrefixDirs(cfg, io, ts);
    FileDirs(cfg, io, ts);
    var files := AllFiles(cfg, io, ts);
    forall k | 0 <= k < |files| ensures SameAt(after, mid, files[k].Path()) {
      assert |files[k].Path()| == 3;
    }
  }

  /** A generation, wherever it stops, leaves the components' own by-hash directories alone. */
  lemma GenerationKeepsComponents(cfg: Config, io: Inputs, before: Tree, after: Tree, clock: nat, reached: AsyncRepository.Stage, c: string)
    requires Stamped(before, clock) && AsyncRepository.Outcome(cfg, io, before, after, reached)
    ensures SameDirs([c], before, after)
  {
    hide Stamped, AllTargets, AllFiles, SameDirs;
    assert forall p :: |p| == 4 ==> SameAt(after, before, p) by { hide *; GenerationKeepsShort(cfg, io, before, after, reached); }
    assert |[c]| == 1;
    SameFilesSameDirs([c], before, after, clock);
  }

  lemma GenerationKeepsShort(cfg: Config, io: Inputs, before: Tree, after: Tree, reached: AsyncRepository.Stage)
    requires AsyncRepository.Outcome(cfg, io, before, after, reached)
    ensures forall p :: |p| == 4 ==> SameAt(after, before, p)
  {
    hide AllTargets, AllFiles, InAnyByHash, AsyncRepository.StoppedAt, AsyncRepository.AllUpdated, ByHashUpdated, AllAvailable, IndicesInPlace;
    var ts := AllTargets(cfg, io);
    var files := AllFiles(cfg, io, ts);
    PrefixDirs(cfg, io, ts);
    FileDirs(cfg, io, ts);
    forall p: Path | |p| == 4 ensures SameAt(after, before, p) {
      assert |RELEASE| == 1;
      NotInAnyByHash(cfg, ts, p);
      assert forall n: nat :: n <= |files| ==> !IsIndex(files, n, p);
    }
  }

  /** So the Contents pass is all that has been done to these. */
  lemma PassFromStart(cfg: Config, io: Inputs, cio: ContentsInputs, before: Tree, mid: Tree, after: Tree)
    requires forall c: string :: SameDirs([c], before, mid)
    requires ContentsAttempted(cfg, io, cio, AllJobs(cfg), mid, after)
    ensures ContentsAttempted(cfg, io, cio, AllJobs(cfg), before, after)
  {
    hide DirOf, AllJobs, JobsAvailable, StoppedIn;
    var n: nat :| ContentsUpTo(cfg, io, cio, AllJobs(cfg), n, mid, after);
    forall c: string, a ensures DirOf(before, ByHashDir([c], a)) == DirOf(mid, ByHashDir([c], a)) {
      assert SameDirs([c], before, mid);
    }
    assert ContentsUpTo(cfg, io, cio, AllJobs(cfg), n, before, after);
  }

  lemma NoPass(cfg: Config, io: Inputs, cio: ContentsInputs, t: Tree)
    ensures ContentsAttempted(cfg, io, cio, AllJobs(cfg), t, t)
  {
    hide DirOf, AllJobs, Attempted, FilesOfJob, JobAvailable, ByHashEntries;
    var jobs := AllJobs(cfg);
    assert jobs[..0] == [];
    forall c, a | a in cfg.algorithms
      ensures StoppedIn(cfg, io, cio, jobs, 0, c, a, DirOf(t, ByHashDir([c], a)), DirOf(t, ByHashDir([c], a)))
    {
      if jobs != [] {
        var s, batch := DirOf(t, ByHashDir([c], a)), ByHashEntries(io, FilesOfJob(cio, jobs[0]), a);
        CopiedAllOrNothing(s, batch);
        CopiedIsAttempted(s, s, batch, cfg.byHashKeep);
      }
    }
    assert ContentsUpTo(cfg, io, cio, jobs, 0, t, t);
  }

  lemma FromSameStart(cfg: Config, io: Inputs, cio: ContentsInputs, before: Tree, after: Tree)
    requires forall c: string :: SameDirs([c], before, after)
    ensures ContentsAttempted(cfg, io, cio, AllJobs(cfg), before, after)
  {
    hide SameDirs, ContentsAttempted;
    NoPass(cfg, io, cio, after);
    PassFromStart(cfg, io, cio, before, after, after);
  }

  /** Publish a repository: generate it, then add the Contents. Whatever it leaves when it
      fails, the by-hash directories have got what was copied until then. */
  method GenerateRepository(disk: Disk, cfg: Config, io: Inputs, cio: ContentsInputs) returns (ok: bool, ghost reached: Reached)
    requires disk.Valid() && NamesApart(cfg)
    modifies disk
    ensures disk.Valid()
    ensures !ok ==> disk.failed || !AllAvailable(cfg, io, AllTargets(cfg, io)) || !JobsAvailable(cio, AllJobs(cfg))
    ensures ok && cfg.algorithms != [] ==> ReleaseAgrees(cfg, io, disk.files)
    ensures ok ==> HasIndices(cfg, io, disk.files) && HasAllContents(cfg, io, cio, disk.files)
    ensures ok <==> reached == Complete
    ensures PublicationOutcome(cfg, io, cio, old(disk.files), disk.files, reached)
    ensures AsyncRepository.TargetsAttempted(cfg, io, AllTargets(cfg, io), old(disk.files), disk.files)
    ensures ContentsAttempted(cfg, io, cio, AllJobs(cfg), old(disk.files), disk.files)
    ensures reached.AddingContents? ==>
      var files := AllFiles(cfg, io, AllTargets(cfg, io)); IndicesInPlace(disk.files, files, |files|)
  {
    hide NamesApart, ReleaseAgrees, Published, Spliced, AllAvailable, JobsAvailable, AllTargets, AllJobs, AllFiles,
         ContentsPass, IndicesInPlace, AsyncRepository.TargetsAttempted, AsyncRepository.Outcome, Stamped, ContentsAttempted, SameDirs,
         AsyncRepository.AllUpdated, HasIndices, HasAllContents, HasAllCopies, HasFields;
    ghost var before, start := disk.files, disk.clock;
    NamesApartIsWellNamed(cfg);
    var release;
    ghost var stage;
    release, stage := AsyncRepository.GenerateRepository(disk, cfg, io);
    forall c: string ensures SameDirs([c], before, disk.files) {
      GenerationKeepsComponents(cfg, io, before, disk.files, start, stage, c);
    }
    FromSameStart(cfg, io, cio, before, disk.files);
    if release.None? {
      return false, Generating(stage);
    }
    ghost var mid, clock := disk.files, disk.clock;
    assert Published(cfg, io, before, mid) by { FinishedIsPublished(cfg, io, before, mid); }
    assert RELEASE in mid && mid[RELEASE].content.ReleaseText? by { HasReleaseText(cfg, io, before, mid); }
    ghost var rewriting;
    ok, rewriting := GenerateContents(disk, cfg, io, cio);
    ContentsPassKeepsIndices(cfg, io, cio, mid, disk.files, clock, rewriting);
    assert ContentsAttempted(cfg, io, cio, AllJobs(cfg), mid, disk.files) by { PassAttempted(cfg, io, cio, mid, disk.files, rewriting); }
    PassFromStart(cfg, io, cio, before, mid, disk.files);
    assert HasClock(mid);
    AsyncRepository.AttemptedToEnd(cfg, io, AllTargets(cfg, io), before, mid, disk.files);
    IndicesSurvive(cfg, io, cio, before, mid, disk.files, clock, rewriting);
    reached := if ok then Complete else AddingContents(rewriting);
    if ok { SplicedHasIndices(cfg, io, cio, before, mid, disk.files); }
    if ok && cfg.algorithms != [] {
      PublicationAgrees(cfg, io, cio, before, mid, disk.files);
    }
  }

  lemma PassAttempted(cfg: Config, io: Inputs, cio: ContentsInputs, mid: Tree, after: Tree, rewriting: bool)
    requires ContentsPass(cfg, io, cio, mid, after, rewriting)
    ensures ContentsAttempted(cfg, io, cio, AllJobs(cfg), mid, after)
  {
    hide AllJobs, ContentsAttempted;
  }

  lemma FinishedIsPublished(cfg: Config, io: Inputs, before: Tree, after: Tree)
    requires AsyncRepository.Outcome(cfg, io, before, after, AsyncRepository.Finished)
    ensures Published(cfg, io, before, after)
  {
    hide Published;
  }
}
