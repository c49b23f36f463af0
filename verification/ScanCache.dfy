/** The scanner's cache: what was scanned from a run's artifacts is kept in files that are
    read instead of scanning again. A run's artifacts never change. */
module ScanCache {
  import opened Common

  datatype Kind = Packages(arch: string) | Contents(arch: string) | Sources

  datatype Entry = Entry(kind: Kind, run: string)

  function Directory(kind: Kind): string {
    match kind
    case Packages(arch) => "binary-" + arch
    case Contents(arch) => "contents-" + arch
    case Sources => "source"
  }

  function CachePath(e: Entry): string {
    Directory(e.kind) + "/" + e.run
  }

  predicate IsRunId(run: string) {
    run != "" && '/' !in run
  }

  function LastPart(path: string): string {
    if '/' !in path then path else LastPart(path[1..])
  }

  lemma {:induction false} LastPartIs(directory: string, name: string)
    requires '/' !in name
    ensures LastPart(directory + "/" + name) == name
  {
    var path := directory + "/" + name;
    assert path[|directory|] == '/';
    if directory == "" {
      assert path[1..] == name;
    } else {
      assert path[1..] == directory[1..] + "/" + name;
      LastPartIs(directory[1..], name);
    }
  }

  /** The paths, below the cache directory. */
  lemma CachePathIs(run: string, arch: string)
    ensures CachePath(Entry(Packages(arch), run)) == "binary-" + arch + "/" + run
    ensures CachePath(Entry(Contents(arch), run)) == "contents-" + arch + "/" + run
    ensures CachePath(Entry(Sources, run)) == "source/" + run
  {
    assert "source" + "/" == "source/";
  }

  /** Different entries have different paths, whatever the architectures are called. */
  lemma CachePathsDiffer(d: Entry, e: Entry)
    requires IsRunId(d.run) && IsRunId(e.run) && CachePath(d) == CachePath(e)
    ensures d == e
  {
    var a, b := Directory(d.kind), Directory(e.kind);
    LastPartIs(a, d.run);
    LastPartIs(b, e.run);
    assert a == CachePath(d)[..|a|] && b == CachePath(e)[..|b|];
    assert a[0] == if d.kind.Packages? then 'b' else if d.kind.Contents? then 'c' else 's';
    assert b[0] == if e.kind.Packages? then 'b' else if e.kind.Contents? then 'c' else 's';
    if d.kind.Packages? {
      assert a[|"binary-"|..] == d.kind.arch && b[|"binary-"|..] == e.kind.arch;
    } else if d.kind.Contents? {
      assert a[|"contents-"|..] == d.kind.arch && b[|"contents-"|..] == e.kind.arch;
    }
  }

  type Listing = seq<(string, seq<string>)>

  /** What the scanning programs make of a run's artifacts, none when they fail, and how
      listings are stored. */
  datatype Archive = Archive(
    packages: (string, Option<string>) -> Option<Bytes>, sources: string -> Option<Bytes>,
    contents: (string, string) -> Option<Listing>,
    encode: Listing -> Bytes, decode: Bytes -> Option<Listing>)

  /** A stored listing can be read back, and no beginning of one can be read at all. */
  ghost predicate Readable(a: Archive) {
    forall l: Listing :: a.decode(a.encode(l)) == Some(l)
      && forall n: nat :: n < |a.encode(l)| ==> a.decode(a.encode(l)[..n]) == None
  }

  /** What belongs into an entry. */
  function Scanned(a: Archive, e: Entry): Option<Bytes> {
    match e.kind
    case Packages(arch) => a.packages(e.run, Some(arch))
    case Sources => a.sources(e.run)
    case Contents(arch) => if a.contents(e.run, arch).None? then None else Some(a.encode(a.contents(e.run, arch).value))
  }

  /** The file of an entry holds what belongs there, or, when its last write was cut short,
      a beginning of it. */
  ghost predicate EntrySound(a: Archive, files: map<string, Bytes>, cutShort: set<string>, e: Entry) {
    CachePath(e) in files ==>
      && Scanned(a, e).Some?
      && (CachePath(e) !in cutShort ==> files[CachePath(e)] == Scanned(a, e).value)
      && (CachePath(e) in cutShort ==> files[CachePath(e)] < Scanned(a, e).value)
  }

  ghost predicate Sound(a: Archive, files: map<string, Bytes>, cutShort: set<string>) {
    forall e: Entry :: IsRunId(e.run) ==> EntrySound(a, files, cutShort, e)
  }

  class Scanner {
    const archive: Archive
    const caching: bool
    var files: map<string, Bytes>
    ghost var cutShort: set<string>
    /** Whether a download has failed, and whether a write has been cut short. */
    ghost var failed: bool
    ghost var torn: bool

    constructor (archive: Archive, caching: bool)
      ensures Valid() && files == map[] && this.archive == archive && this.caching == caching && cutShort == {} && !failed && !torn
    {
      this.archive, this.caching, files, cutShort, failed, torn := archive, caching, map[], {}, false, false;
    }

    ghost predicate Valid()
      reads this
    {
      Sound(archive, files, cutShort) && (!caching ==> files == map[]) && (!torn ==> cutShort == {})
    }

    /** An error counts as a missing file. */
    method ReadCache(e: Entry) returns (r: Option<Bytes>)
      ensures r.Some? ==> CachePath(e) in files && r.value == files[CachePath(e)]
    {
      if caching && CachePath(e) in files {
        if * {
          return Some(files[CachePath(e)]);
        }
      }
      r := None;
    }

    /** Errors are ignored; a write may have no effect, or leave a beginning behind. */
    method WriteCache(e: Entry, bytes: Bytes)
      requires Valid() && IsRunId(e.run) && Scanned(archive, e) == Some(bytes)
      modifies `files, `cutShort, `torn
      ensures Valid() && cutShort <= old(cutShort) + {CachePath(e)}
      ensures old(torn) ==> torn
    {
      if !caching {
        return;
      }
      var length := |bytes|;
      if * {
        return;
      } else if * {
        length :| 0 <= length <= |bytes|;
      }
      files := files[CachePath(e) := bytes[..length]];
      torn := torn || length < |bytes|;
      cutShort := if length < |bytes| then cutShort + {CachePath(e)} else cutShort - {CachePath(e)};
      forall d: Entry | IsRunId(d.run) ensures EntrySound(archive, files, cutShort, d) {
        if CachePath(d) == CachePath(e) {
          CachePathsDiffer(d, e);
        } else {
          assert EntrySound(archive, old(files), old(cutShort), d);
        }
      }
    }

    /** Downloading the artifacts can fail, and so can a scan of them. */
    method Download() returns (ok: bool)
      requires Valid()
      modifies `failed
      ensures Valid() && (!ok ==> failed)
    {
      ok := *;
      failed := failed || !ok;
    }

    /** What succeeds is what scanning gives, except for a file that was cut short. */
    method LoadOrScanPackages(run: string, arch: Option<string>) returns (r: Option<Bytes>, ghost cached: bool)
      requires Valid() && IsRunId(run)
      modifies this
      ensures Valid()
      ensures cached ==> r.Some? && arch.Some? && files == old(files)
      ensures r.None? ==>
        failed || archive.packages(run, arch).None? || (arch.Some? && caching && archive.contents(run, arch.value).None?)
      ensures r.Some? ==>
        (r == archive.packages(run, arch) <==> !(cached && CachePath(Entry(Packages(arch.value), run)) in old(cutShort)))
      ensures r.Some? && (arch.None? || CachePath(Entry(Packages(arch.value), run)) !in old(cutShort)) ==> r == archive.packages(run, arch)
      ensures r.Some? && !old(torn) ==> r == archive.packages(run, arch)
      ensures arch.None? ==> files == old(files) && cutShort == old(cutShort)
      ensures arch.Some? ==>
        cutShort <= old(cutShort) + {CachePath(Entry(Packages(arch.value), run)), CachePath(Entry(Contents(arch.value), run))}
      ensures old(torn) ==> torn
    {
      hide Sound, CachePath;
      if arch.Some? {
        var e := Entry(Packages(arch.value), run);
        var stored := ReadCache(e);
        if stored.Some? {
          UseSound(archive, files, cutShort, e);
          return stored, true;
        }
      }
      var ok := Download();
      var raw := archive.packages(run, arch);
      if !ok || raw.None? {
        return None, false;
      }
      if arch.Some? && caching {
        var contents := archive.contents(run, arch.value);
        if contents.None? {
          return None, false;
        }
        WriteCache(Entry(Contents(arch.value), run), archive.encode(contents.value));
      }
      if arch.Some? {
        WriteCache(Entry(Packages(arch.value), run), raw.value);
      }
      r, cached := raw, false;
    }

    method LoadOrScanSources(run: string) returns (r: Option<Bytes>, ghost cached: bool)
      requires Valid() && IsRunId(run)
      modifies this
      ensures Valid()
      ensures cached ==> r.Some? && files == old(files)
      ensures r.None? ==> failed || archive.sources(run).None?
      ensures r.Some? ==> (r == archive.sources(run) <==> !(cached && CachePath(Entry(Sources, run)) in old(cutShort)))
      ensures r.Some? && CachePath(Entry(Sources, run)) !in old(cutShort) ==> r == archive.sources(run)
      ensures r.Some? && !old(torn) ==> r == archive.sources(run)
      ensures cutShort <= old(cutShort) + {CachePath(Entry(Sources, run))}
      ensures old(torn) ==> torn
    {
      hide Sound, CachePath;
      var e := Entry(Sources, run);
      var stored := ReadCache(e);
      if stored.Some? {
        UseSound(archive, files, cutShort, e);
        return stored, true;
      }
      var ok := Download();
      var raw := archive.sources(run);
      if !ok || raw.None? {
        return None, false;
      }
      WriteCache(e, raw.value);
      r, cached := raw, false;
    }

    /** Never a wrong listing: one that was cut short is an error, for as long as its file
        is there. */
    method ScanDebContents(run: string, arch: string) returns (r: Option<Listing>)
      requires Valid() && IsRunId(run) && Readable(archive)
      modifies this
      ensures Valid()
      ensures r.Some? ==> r == archive.contents(run, arch)
      ensures r.None? ==> failed || archive.contents(run, arch).None? || CachePath(Entry(Contents(arch), run)) in old(cutShort)
      ensures cutShort <= old(cutShort) + {CachePath(Entry(Contents(arch), run))}
      ensures old(torn) ==> torn
    {
      hide Sound, CachePath;
      var e := Entry(Contents(arch), run);
      var cached := ReadCache(e);
      if cached.Some? {
        UseSound(archive, files, cutShort, e);
        DecodeStored(archive, archive.contents(run, arch).value, cached.value);
        return archive.decode(cached.value);
      }
      var ok := Download();
      var contents := archive.contents(run, arch);
      if !ok || contents.None? {
        return None;
      }
      WriteCache(e, archive.encode(contents.value));
      r := contents;
    }
  }

  datatype Request = PackagesOf(run: string, arch: Option<string>) | SourcesOf(run: string) | ContentsOf(run: string, architecture: string)

  datatype Answer = Scan(bytes: Bytes) | ContentsScan(listing: Listing) | Failure

  /** What an answer is without a cache, when it is not a failure. */
  predicate Uncached(a: Archive, request: Request, answer: Answer) {
    match answer
    case Failure => true
    case Scan(bytes) =>
      if request.PackagesOf? then a.packages(request.run, request.arch) == Some(bytes)
      else request.SourcesOf? && a.sources(request.run) == Some(bytes)
    case ContentsScan(listing) => request.ContentsOf? && a.contents(request.run, request.architecture) == Some(listing)
  }

  /** Any sequence of scans, in which any cache writes fail: as long as none has been cut
      short, every answer is the uncached one, or a failure. */
  method ScanInTurn(scanner: Scanner, requests: seq<Request>) returns (answers: seq<Answer>)
    requires scanner.Valid() && Readable(scanner.archive) && forall r :: r in requests ==> IsRunId(r.run)
    modifies scanner
    ensures scanner.Valid() && |answers| == |requests|
    ensures !scanner.torn ==> forall k :: 0 <= k < |answers| ==> Uncached(scanner.archive, requests[k], answers[k])
  {
    answers := [];
    for k := 0 to |requests|
      invariant scanner.Valid() && |answers| == k
      invariant !scanner.torn ==> forall j :: 0 <= j < k ==> Uncached(scanner.archive, requests[j], answers[j])
    {
      assert requests[k] in requests;
      var answer := Failure;
      match requests[k] {
        case PackagesOf(run, arch) =>
          var bytes, _ := scanner.LoadOrScanPackages(run, arch);
          if bytes.Some? {
            answer := Scan(bytes.value);
          }
        case SourcesOf(run) =>
          var bytes, _ := scanner.LoadOrScanSources(run);
          if bytes.Some? {
            answer := Scan(bytes.value);
          }
        case ContentsOf(run, arch) =>
          var listing := scanner.ScanDebContents(run, arch);
          if listing.Some? {
            answer := ContentsScan(listing.value);
          }
      }
      answers := answers + [answer];
    }
  }

  lemma UseSound(a: Archive, files: map<string, Bytes>, cutShort: set<string>, e: Entry)
    requires Sound(a, files, cutShort) && IsRunId(e.run)
    ensures EntrySound(a, files, cutShort, e)
  {
  }

  lemma DecodeStored(a: Archive, l: Listing, bytes: Bytes)
    requires Readable(a) && bytes <= a.encode(l)
    ensures a.decode(bytes) == if bytes == a.encode(l) then Some(l) else None
  {
    assert bytes == a.encode(l)[..|bytes|];
  }
}
