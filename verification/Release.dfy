/** The Release file: splitting its file records into one checksum list for each
    algorithm, and merging the lists of a parsed Release back into file records.

    The text of a Release (a deb822 paragraph) is taken as lossless, so writing a
    Release is `ToParagraph` and parsing one is `FromParagraph`. */
module Release {
  import opened Common

  datatype Algorithm = Md5 | Sha1 | Sha256 | Sha512

  /** The order in which the checksum lists are merged. */
  const ALGORITHMS: seq<Algorithm> := [Md5, Sha1, Sha256, Sha512]

  function Rank(a: Algorithm): (r: nat)
    ensures r < 4 && ALGORITHMS[r] == a
  {
    match a
    case Md5 => 0
    case Sha1 => 1
    case Sha256 => 2
    case Sha512 => 3
  }

  datatype HashedFile = HashedFile(path: string, size: nat, hashes: map<Algorithm, string>)

  datatype Checksum = Checksum(hash: string, size: nat, filename: string)

  /** The paragraph: plain fields, and a checksum list for some of the algorithms. */
  datatype Paragraph = Paragraph(fields: map<string, string>, checksums: map<Algorithm, seq<Checksum>>)

  datatype Release = Release(inner: Paragraph, files: seq<HashedFile>) {

    function AddFile(file: HashedFile): Release {
      this.(files := files + [file])
    }

    /** Lists that would be empty are not written; `inner` then keeps the list it had. */
    function ToParagraph(): (p: Paragraph)
      ensures p.fields == inner.fields
    {
      inner.(checksums := inner.checksums + map a: Algorithm | ChecksumList(files, a) != [] :: ChecksumList(files, a))
    }
  }

  function ChecksumList(files: seq<HashedFile>, a: Algorithm): seq<Checksum>
    decreases |files|
  {
    if files == [] then []
    else
      var f := files[|files| - 1];
      ChecksumList(files[..|files| - 1], a) + if a in f.hashes then [Checksum(f.hashes[a], f.size, f.path)] else []
  }

  function Find(files: seq<HashedFile>, path: string): (k: nat)
    ensures k <= |files|
    ensures k < |files| ==> files[k].path == path
    ensures forall i :: 0 <= i < k ==> files[i].path != path
  {
    if files == [] || files[0].path == path then 0 else 1 + Find(files[1..], path)
  }

  function MergeHash(files: seq<HashedFile>, c: Checksum, a: Algorithm): seq<HashedFile> {
    var k := Find(files, c.filename);
    if k < |files| then files[k := files[k].(hashes := files[k].hashes[a := c.hash])]
    else files + [HashedFile(c.filename, c.size, map[a := c.hash])]
  }

  function MergeList(files: seq<HashedFile>, list: seq<Checksum>, a: Algorithm): seq<HashedFile>
    decreases |list|
  {
    if list == [] then files
    else MergeHash(MergeList(files, list[..|list| - 1], a), list[|list| - 1], a)
  }

  function ListOf(para: Paragraph, a: Algorithm): seq<Checksum> {
    if a in para.checksums then para.checksums[a] else []
  }

  /** The file records after merging the lists of the first `n` algorithms. */
  function Merged(para: Paragraph, n: nat): seq<HashedFile>
    requires n <= 4
  {
    if n == 0 then []
    else MergeList(Merged(para, n - 1), ListOf(para, ALGORITHMS[n - 1]), ALGORITHMS[n - 1])
  }

  function FromParagraph(para: Paragraph): Release {
    Release(para, Merged(para, 4))
  }

  /** The parser: four loops, one for each list, that merge into one vector. */
  method FromStr(para: Paragraph) returns (release: Release)
    ensures release == FromParagraph(para)
  {
    var files: seq<HashedFile> := [];
    for n := 0 to 4
      invariant files == Merged(para, n)
    {
      var list := ListOf(para, ALGORITHMS[n]);
      for i := 0 to |list|
        invariant files == MergeList(Merged(para, n), list[..i], ALGORITHMS[n])
      {
        assert list[..i + 1][..i] == list[..i];
        files := MergeHash(files, list[i], ALGORITHMS[n]);
      }
      assert list[..|list|] == list;
    }
    release := Release(para, files);
  }

  // ----- What a round trip gives, stated on the records alone

  ghost predicate DistinctPaths(files: seq<HashedFile>) {
    forall i, j :: 0 <= i < j < |files| ==> files[i].path != files[j].path
  }

  /** The rank of the first list that mentions the file; 4 when no list does. */
  function FirstRank(f: HashedFile): (r: nat)
    ensures r <= 4
    ensures forall a :: a in f.hashes ==> r <= Rank(a)
    ensures r < 4 ==> ALGORITHMS[r] in f.hashes
  {
    if Md5 in f.hashes then 0
    else if Sha1 in f.hashes then 1
    else if Sha256 in f.hashes then 2
    else if Sha512 in f.hashes then 3
    else 4
  }

  /** Whether the first `n` lists, or the first `m` files of the next one, mention
      the file at position `i`. */
  predicate Mentioned(files: seq<HashedFile>, i: nat, n: nat, m: nat)
    requires i < |files|
  {
    FirstRank(files[i]) < n || (FirstRank(files[i]) == n && i < m)
  }

  /** The positions of those files, in the order in which they are first mentioned. */
  function Order(files: seq<HashedFile>, n: nat, m: nat): seq<nat>
    requires m <= |files|
    decreases n, m
  {
    if m > 0 then Order(files, n, m - 1) + if FirstRank(files[m - 1]) == n then [m - 1] else []
    else if n > 0 then Order(files, n - 1, |files|)
    else []
  }

  ghost predicate Precedes(files: seq<HashedFile>, i: nat, j: nat)
    requires i < |files| && j < |files|
  {
    var a, b := FirstRank(files[i]), FirstRank(files[j]);
    a < b || (a == b && i < j)
  }

  ghost predicate Holds(s: seq<nat>, i: nat) {
    exists k :: 0 <= k < |s| && s[k] == i
  }

  /** `s` lists exactly the mentioned files, ordered by the list that first mentions
      them and, within one list, as the files are. */
  ghost predicate IsOrder(files: seq<HashedFile>, s: seq<nat>, n: nat, m: nat) {
    && (forall k :: 0 <= k < |s| ==> s[k] < |files| && Mentioned(files, s[k], n, m))
    && (forall i :: 0 <= i < |files| && Mentioned(files, i, n, m) ==> Holds(s, i))
    && forall j, k :: 0 <= j < k < |s| ==> Precedes(files, s[j], s[k])
  }

  lemma {:induction false} OrderIsOrder(files: seq<HashedFile>, n: nat, m: nat)
    requires m <= |files|
    ensures IsOrder(files, Order(files, n, m), n, m)
    decreases n, m
  {
    hide IsOrder;
    if m > 0 {
      var before := Order(files, n, m - 1);
      OrderIsOrder(files, n, m - 1);
      NextInOrder(files, before, n, m - 1);
      assert Order(files, n, m) == before + if FirstRank(files[m - 1]) == n then [m - 1] else [];
    } else if n > 0 {
      var before := Order(files, n - 1, |files|);
      OrderIsOrder(files, n - 1, |files|);
      ListDone(files, before, n - 1);
      assert Order(files, n, 0) == before;
    } else {
      assert Order(files, 0, 0) == [];
      NothingMentioned(files);
    }
  }

  lemma NothingMentioned(files: seq<HashedFile>)
    ensures IsOrder(files, [], 0, 0)
  {
  }

  lemma ListDone(files: seq<HashedFile>, s: seq<nat>, n: nat)
    requires IsOrder(files, s, n, |files|)
    ensures IsOrder(files, s, n + 1, 0)
  {
    assert forall i :: 0 <= i < |files| ==> Mentioned(files, i, n + 1, 0) == Mentioned(files, i, n, |files|);
  }

  lemma NextInOrder(files: seq<HashedFile>, p: seq<nat>, n: nat, m: nat)
    requires m < |files| && IsOrder(files, p, n, m)
    ensures IsOrder(files, p + if FirstRank(files[m]) == n then [m] else [], n, m + 1)
  {
    var s := p + if FirstRank(files[m]) == n then [m] else [];
    assert forall k :: 0 <= k < |p| ==> s[k] == p[k];
    forall i | 0 <= i < |files| && Mentioned(files, i, n, m + 1)
      ensures Holds(s, i)
    {
      if Mentioned(files, i, n, m) {
        assert Holds(p, i);
        var k :| 0 <= k < |p| && p[k] == i;
        assert s[k] == i;
      } else {
        assert s[|p|] == i;
      }
    }
  }

  /** What of file `f`, at position `i`, is known once the first `n` lists and the
      first `m` files of the next one have been merged. */
  function Known(f: HashedFile, i: nat, n: nat, m: nat): HashedFile {
    f.(hashes := map a | a in f.hashes && (Rank(a) < n || (Rank(a) == n && i < m)) :: f.hashes[a])
  }

  ghost predicate Reflects(state: seq<HashedFile>, files: seq<HashedFile>, n: nat, m: nat)
    requires m <= |files|
  {
    var order := Order(files, n, m);
    && |state| == |order|
    && forall k :: 0 <= k < |order| ==> order[k] < |files| && state[k] == Known(files[order[k]], order[k], n, m)
  }

  lemma FindKnown(state: seq<HashedFile>, files: seq<HashedFile>, n: nat, m: nat, i: nat)
    requires DistinctPaths(files) && m <= |files| && i < |files|
    requires Reflects(state, files, n, m)
    ensures
      var k, order := Find(state, files[i].path), Order(files, n, m);
      if Mentioned(files, i, n, m) then k < |state| && order[k] == i else k == |state|
  {
    OrderIsOrder(files, n, m);
    var k, order := Find(state, files[i].path), Order(files, n, m);
    if Mentioned(files, i, n, m) {
      assert Holds(order, i);
      var j :| 0 <= j < |order| && order[j] == i;
      assert state[j].path == files[i].path;
    }
    if k < |state| {
      assert files[order[k]].path == files[i].path;
      assert order[k] == i;
    }
  }

  lemma FoundOnce(state: seq<HashedFile>, files: seq<HashedFile>, n: nat, m: nat, i: nat)
    requires DistinctPaths(files) && m <= |files| && i < |files|
    requires Reflects(state, files, n, m)
    ensures
      var order := Order(files, n, m);
      forall k :: 0 <= k < |order| && k != Find(state, files[i].path) ==> order[k] != i
  {
    OrderIsOrder(files, n, m);
    FindKnown(state, files, n, m, i);
  }

  lemma KnownElsewhere(f: HashedFile, i: nat, n: nat, m: nat)
    requires n < 4 && (i != m || ALGORITHMS[n] !in f.hashes)
    ensures Known(f, i, n, m + 1) == Known(f, i, n, m)
  {
  }

  lemma KnownHere(f: HashedFile, n: nat, m: nat)
    requires n < 4 && ALGORITHMS[n] in f.hashes
    ensures Known(f, m, n, m + 1).hashes == Known(f, m, n, m).hashes[ALGORITHMS[n] := f.hashes[ALGORITHMS[n]]]
    ensures FirstRank(f) == n ==> Known(f, m, n, m).hashes == map[]
  {
  }

  lemma MergeUnhashed(state: seq<HashedFile>, files: seq<HashedFile>, n: nat, m: nat)
    requires n < 4 && m < |files| && ALGORITHMS[n] !in files[m].hashes
    requires Reflects(state, files, n, m)
    ensures Reflects(state, files, n, m + 1)
  {
    var order := Order(files, n, m);
    assert Order(files, n, m + 1) == order;
    forall k | 0 <= k < |order|
      ensures Known(files[order[k]], order[k], n, m + 1) == state[k]
    {
      KnownElsewhere(files[order[k]], order[k], n, m);
    }
  }

  lemma MergeHashed(state: seq<HashedFile>, files: seq<HashedFile>, n: nat, m: nat)
    requires DistinctPaths(files) && n < 4 && m < |files| && ALGORITHMS[n] in files[m].hashes
    requires Reflects(state, files, n, m)
    ensures
      var a, f := ALGORITHMS[n], files[m];
      Reflects(MergeHash(state, Checksum(f.hashes[a], f.size, f.path), a), files, n, m + 1)
  {
    var order, j := Order(files, n, m), Find(state, files[m].path);
    FindKnown(state, files, n, m, m);
    FoundOnce(state, files, n, m, m);
    KnownHere(files[m], n, m);
    forall k | 0 <= k < |order| && k != j
      ensures Known(files[order[k]], order[k], n, m + 1) == state[k]
    {
      assert order[k] != m;
      KnownElsewhere(files[order[k]], order[k], n, m);
    }
    if j < |state| {
      assert Order(files, n, m + 1) == order;
    } else {
      assert Order(files, n, m + 1) == order + [m];
    }
  }

  lemma {:induction false} MergeWholeList(files: seq<HashedFile>, state: seq<HashedFile>, n: nat, m: nat)
    requires DistinctPaths(files) && n < 4 && m <= |files|
    requires Reflects(state, files, n, 0)
    ensures Reflects(MergeList(state, ChecksumList(files[..m], ALGORITHMS[n]), ALGORITHMS[n]), files, n, m)
  {
    hide Reflects, MergeHash, DistinctPaths, Order, Known;
    if m > 0 {
      var list := ChecksumList(files[..m - 1], ALGORITHMS[n]);
      MergeWholeList(files, state, n, m - 1);
      var before := MergeList(state, list, ALGORITHMS[n]);
      assert files[..m][..m - 1] == files[..m - 1] && files[..m][m - 1] == files[m - 1];
      assert forall c: Checksum :: (list + [c])[..|list|] == list;
      if ALGORITHMS[n] in files[m - 1].hashes {
        MergeHashed(before, files, n, m - 1);
      } else {
        assert list + [] == list;
        MergeUnhashed(before, files, n, m - 1);
      }
    }
  }

  /** Nothing of `inner`'s own lists would survive in the written paragraph. */
  predicate Covered(r: Release) {
    forall a :: a in r.inner.checksums && r.inner.checksums[a] != [] ==> ChecksumList(r.files, a) != []
  }

  lemma NextList(state: seq<HashedFile>, files: seq<HashedFile>, n: nat)
    requires Reflects(state, files, n, |files|)
    ensures Reflects(state, files, n + 1, 0)
  {
    OrderIsOrder(files, n, |files|);
    forall i | 0 <= i < |files|
      ensures Known(files[i], i, n, |files|) == Known(files[i], i, n + 1, 0)
    {
    }
  }

  lemma {:induction false} MergedReflects(r: Release, n: nat)
    requires Covered(r) && DistinctPaths(r.files) && n <= 4
    ensures Reflects(Merged(r.ToParagraph(), n), r.files, n, 0)
  {
    hide Order, Known, MergeList, ChecksumList, Covered, DistinctPaths;
    if n == 0 {
      assert Merged(r.ToParagraph(), 0) == [] && Order(r.files, 0, 0) == [] by { NothingMerged(r); }
    } else {
      hide Reflects;
      MergedReflects(r, n - 1);
      var a, before := ALGORITHMS[n - 1], Merged(r.ToParagraph(), n - 1);
      MergeWholeList(r.files, before, n - 1, |r.files|);
      assert r.files[..|r.files|] == r.files;
      ListIsOwn(r, a);
      NextList(MergeList(before, ChecksumList(r.files, a), a), r.files, n - 1);
    }
  }

  lemma NothingMerged(r: Release)
    ensures Merged(r.ToParagraph(), 0) == [] && Order(r.files, 0, 0) == []
  {
  }

  lemma ListIsOwn(r: Release, a: Algorithm)
    requires Covered(r)
    ensures ListOf(r.ToParagraph(), a) == ChecksumList(r.files, a)
  {
    hide ChecksumList;
  }

  // ----- What parsing makes of any paragraph

  /** All lines, in the order in which they are merged. */
  function Mentions(para: Paragraph): seq<(Algorithm, Checksum)> {
    Tagged(Md5, ListOf(para, Md5)) + Tagged(Sha1, ListOf(para, Sha1)) + Tagged(Sha256, ListOf(para, Sha256)) + Tagged(Sha512, ListOf(para, Sha512))
  }

  function Tagged(a: Algorithm, list: seq<Checksum>): seq<(Algorithm, Checksum)> {
    seq(|list|, i requires 0 <= i < |list| => (a, list[i]))
  }

  ghost predicate FirstAt(ms: seq<(Algorithm, Checksum)>, path: string, i: nat) {
    i < |ms| && ms[i].1.filename == path && forall j :: 0 <= j < i ==> ms[j].1.filename != path
  }

  ghost predicate LastAt(ms: seq<(Algorithm, Checksum)>, path: string, a: Algorithm, i: nat) {
    && i < |ms| && ms[i].1.filename == path && ms[i].0 == a
    && forall j :: i < j < |ms| ==> ms[j].1.filename != path || ms[j].0 != a
  }

  ghost predicate IsMentioned(ms: seq<(Algorithm, Checksum)>, path: string, a: Algorithm) {
    exists i :: 0 <= i < |ms| && ms[i].1.filename == path && ms[i].0 == a
  }

  /** The record of a file: the size of its first line, and the hash of the last line of each
      algorithm that has one. */
  ghost predicate IsRecordOf(ms: seq<(Algorithm, Checksum)>, f: HashedFile) {
    && (exists i: nat :: i < |ms| && FirstAt(ms, f.path, i) && f.size == ms[i].1.size)
    && (forall a :: a in f.hashes <==> IsMentioned(ms, f.path, a))
    && forall a, i: nat :: a in f.hashes && i < |ms| && LastAt(ms, f.path, a, i) ==> f.hashes[a] == ms[i].1.hash
  }

  /** One record for each file that has a line, in the order of their first lines. */
  ghost predicate AreRecordsOf(ms: seq<(Algorithm, Checksum)>, files: seq<HashedFile>) {
    && (forall k :: 0 <= k < |files| ==> IsRecordOf(ms, files[k]))
    && (forall i :: 0 <= i < |ms| ==> HasPath(files, ms[i].1.filename))
    && forall k, l, i: nat, j: nat :: 0 <= k < l < |files| && FirstAt(ms, files[k].path, i) && FirstAt(ms, files[l].path, j) ==> i < j
  }

  ghost predicate HasPath(files: seq<HashedFile>, path: string) {
    exists k :: 0 <= k < |files| && files[k].path == path
  }

  lemma FirstStays(ms: seq<(Algorithm, Checksum)>, m: (Algorithm, Checksum), path: string, i: nat)
    ensures FirstAt(ms, path, i) ==> FirstAt(ms + [m], path, i)
    ensures FirstAt(ms + [m], path, i) && i < |ms| ==> FirstAt(ms, path, i)
    ensures FirstAt(ms + [m], path, |ms|) <==> m.1.filename == path && forall j :: 0 <= j < |ms| ==> ms[j].1.filename != path
  {
    assert forall j :: 0 <= j < |ms| ==> (ms + [m])[j] == ms[j];
  }

  lemma MentionedMore(ms: seq<(Algorithm, Checksum)>, m: (Algorithm, Checksum), path: string, a: Algorithm)
    ensures IsMentioned(ms + [m], path, a) <==> IsMentioned(ms, path, a) || (m.1.filename == path && m.0 == a)
  {
    assert (ms + [m])[|ms|] == m && forall j :: 0 <= j < |ms| ==> (ms + [m])[j] == ms[j];
  }

  lemma LastMore(ms: seq<(Algorithm, Checksum)>, m: (Algorithm, Checksum), path: string, a: Algorithm, i: nat)
    ensures LastAt(ms + [m], path, a, i) <==>
      if m.1.filename == path && m.0 == a then i == |ms| else LastAt(ms, path, a, i)
  {
    var more := ms + [m];
    assert more[|ms|] == m && forall j :: 0 <= j < |ms| ==> more[j] == ms[j];
  }

  /** A record of another file stays as it is. */
  lemma OtherRecord(ms: seq<(Algorithm, Checksum)>, m: (Algorithm, Checksum), f: HashedFile)
    requires IsRecordOf(ms, f) && m.1.filename != f.path
    ensures IsRecordOf(ms + [m], f)
  {
    hide FirstAt, LastAt, IsMentioned;
    var i: nat :| i < |ms| && FirstAt(ms, f.path, i) && f.size == ms[i].1.size;
    FirstStays(ms, m, f.path, i);
    forall a ensures IsMentioned(ms + [m], f.path, a) <==> IsMentioned(ms, f.path, a) { MentionedMore(ms, m, f.path, a); }
    forall a, j: nat | a in f.hashes && j < |ms + [m]| && LastAt(ms + [m], f.path, a, j) ensures f.hashes[a] == (ms + [m])[j].1.hash {
      LastMore(ms, m, f.path, a, j);
      LastInRange(ms, f.path, a, j);
    }
  }

  lemma LastInRange(ms: seq<(Algorithm, Checksum)>, path: string, a: Algorithm, i: nat)
    requires LastAt(ms, path, a, i)
    ensures i < |ms|
  {
  }

  /** The record of the mentioned file gets the hash, and keeps its size. */
  lemma SameRecord(ms: seq<(Algorithm, Checksum)>, c: Checksum, a: Algorithm, f: HashedFile)
    requires IsRecordOf(ms, f) && c.filename == f.path
    ensures IsRecordOf(ms + [(a, c)], f.(hashes := f.hashes[a := c.hash]))
  {
    hide FirstAt, LastAt, IsMentioned;
    var m := (a, c);
    var i: nat :| i < |ms| && FirstAt(ms, f.path, i) && f.size == ms[i].1.size;
    FirstStays(ms, m, f.path, i);
    forall b ensures IsMentioned(ms + [m], f.path, b) <==> IsMentioned(ms, f.path, b) || b == a { MentionedMore(ms, m, f.path, b); }
    forall b, j: nat | b in f.hashes[a := c.hash] && j < |ms + [m]| && LastAt(ms + [m], f.path, b, j) ensures f.hashes[a := c.hash][b] == (ms + [m])[j].1.hash {
      LastMore(ms, m, f.path, b, j);
      if b != a { LastInRange(ms, f.path, b, j); }
    }
  }

  lemma NewRecord(ms: seq<(Algorithm, Checksum)>, c: Checksum, a: Algorithm)
    requires forall j :: 0 <= j < |ms| ==> ms[j].1.filename != c.filename
    ensures IsRecordOf(ms + [(a, c)], HashedFile(c.filename, c.size, map[a := c.hash]))
  {
    var m := (a, c);
    FirstStays(ms, m, c.filename, |ms|);
    forall b ensures IsMentioned(ms + [m], c.filename, b) <==> b == a { MentionedMore(ms, m, c.filename, b); }
    forall b, j: nat | LastAt(ms + [m], c.filename, b, j) ensures j == |ms| { LastMore(ms, m, c.filename, b, j); }
  }

  lemma PathMentioned(ms: seq<(Algorithm, Checksum)>, files: seq<HashedFile>, k: nat) returns (i: nat)
    requires AreRecordsOf(ms, files) && k < |files|
    ensures i < |ms| && FirstAt(ms, files[k].path, i)
  {
    hide FirstAt, LastAt, IsMentioned;
    assert IsRecordOf(ms, files[k]);
    i :| i < |ms| && FirstAt(ms, files[k].path, i) && files[k].size == ms[i].1.size;
  }

  lemma MergeOne(ms: seq<(Algorithm, Checksum)>, files: seq<HashedFile>, c: Checksum, a: Algorithm)
    requires AreRecordsOf(ms, files)
    ensures AreRecordsOf(ms + [(a, c)], MergeHash(files, c, a))
  {
    hide FirstAt, LastAt, IsMentioned, IsRecordOf;
    var m, n := (a, c), Find(files, c.filename);
    var more, after := ms + [m], MergeHash(files, c, a);
    forall k, l | 0 <= k < l < |files| ensures files[k].path != files[l].path {
      var i := PathMentioned(ms, files, k);
    }
    forall k | 0 <= k < |files| && k != n ensures IsRecordOf(more, files[k]) {
      OtherRecord(ms, m, files[k]);
    }
    if n < |files| {
      SameRecord(ms, c, a, files[n]);
    } else {
      forall j | 0 <= j < |ms| ensures ms[j].1.filename != c.filename { assert HasPath(files, ms[j].1.filename); }
      NewRecord(ms, c, a);
    }
    forall i | 0 <= i < |more| ensures HasPath(after, more[i].1.filename) {
      if i < |ms| {
        assert HasPath(files, ms[i].1.filename);
        var k :| 0 <= k < |files| && files[k].path == ms[i].1.filename;
        assert after[k].path == ms[i].1.filename;
      } else {
        assert after[n].path == c.filename;
      }
    }
    forall k, l, i: nat, j: nat | 0 <= k < l < |after| && FirstAt(more, after[k].path, i) && FirstAt(more, after[l].path, j) ensures i < j {
      var x := PathMentioned(ms, files, k);
      FirstIsOnly(ms, m, after[k].path, x, i);
      if l < |files| {
        var y := PathMentioned(ms, files, l);
        FirstIsOnly(ms, m, after[l].path, y, j);
      } else {
        FirstIsLast(ms, m, j);
      }
    }
  }

  lemma FirstIsOnly(ms: seq<(Algorithm, Checksum)>, m: (Algorithm, Checksum), path: string, x: nat, i: nat)
    requires FirstAt(ms, path, x) && FirstAt(ms + [m], path, i)
    ensures x == i
  {
    FirstStays(ms, m, path, x);
  }

  lemma FirstIsLast(ms: seq<(Algorithm, Checksum)>, m: (Algorithm, Checksum), j: nat)
    requires FirstAt(ms + [m], m.1.filename, j) && forall i :: 0 <= i < |ms| ==> ms[i].1.filename != m.1.filename
    ensures j == |ms|
  {
    assert forall i :: 0 <= i < |ms| ==> (ms + [m])[i] == ms[i];
  }

  lemma {:induction false} MergeMany(ms: seq<(Algorithm, Checksum)>, files: seq<HashedFile>, list: seq<Checksum>, a: Algorithm)
    requires AreRecordsOf(ms, files)
    ensures AreRecordsOf(ms + Tagged(a, list), MergeList(files, list, a))
    decreases |list|
  {
    hide AreRecordsOf, MergeHash;
    if list == [] {
      assert ms + Tagged(a, list) == ms;
    } else {
      var n := |list| - 1;
      MergeMany(ms, files, list[..n], a);
      MergeOne(ms + Tagged(a, list[..n]), MergeList(files, list[..n], a), list[n], a);
      assert ms + Tagged(a, list) == ms + Tagged(a, list[..n]) + [(a, list[n])];
    }
  }

  /** Whatever the lists of a Release are: parsing gives one record for each file that is
      mentioned, in the order of the first mentions, the lists being read in the order
      MD5Sum, SHA1, SHA256, SHA512. */
  lemma ParsedRecords(para: Paragraph)
    ensures AreRecordsOf(Mentions(para), FromParagraph(para).files) && FromParagraph(para).inner == para
  {
    hide AreRecordsOf, MergeList;
    assert AreRecordsOf([], []) by { hide *; NothingMerges(); }
    var a, b, c, d := Tagged(Md5, ListOf(para, Md5)), Tagged(Sha1, ListOf(para, Sha1)), Tagged(Sha256, ListOf(para, Sha256)), Tagged(Sha512, ListOf(para, Sha512));
    assert Merged(para, 0) == [] && Merged(para, 1) == MergeList([], ListOf(para, Md5), Md5);
    assert Merged(para, 2) == MergeList(Merged(para, 1), ListOf(para, Sha1), Sha1);
    assert Merged(para, 3) == MergeList(Merged(para, 2), ListOf(para, Sha256), Sha256);
    MergeMany([], [], ListOf(para, Md5), Md5);
    assert [] + a == a;
    MergeMany(a, Merged(para, 1), ListOf(para, Sha1), Sha1);
    MergeMany(a + b, Merged(para, 2), ListOf(para, Sha256), Sha256);
    MergeMany(a + b + c, Merged(para, 3), ListOf(para, Sha512), Sha512);
    assert Merged(para, 4) == MergeList(Merged(para, 3), ListOf(para, Sha512), Sha512);
  }

  lemma NothingMerges()
    ensures AreRecordsOf([], [])
  {
  }

  // ----- Main results

  /** A client that looks for an algorithm finds a line for each file that has its hash, in
      the order of the files, with hash, size and path, and no other line. */
  lemma {:induction false} LinesOfFiles(files: seq<HashedFile>, a: Algorithm) returns (at: seq<nat>)
    ensures AreLinesAt(files, a, ChecksumList(files, a), at)
    decreases |files|
  {
    hide AreLinesAt;
    if files == [] {
      at := [];
      assert AreLinesAt([], a, [], []) by { hide *; NoLinesAt(a); }
    } else {
      var n := |files| - 1;
      at := LinesOfFiles(files[..n], a);
      LineAtEnd(files, a, ChecksumList(files[..n], a), at);
      if a in files[n].hashes { at := at + [n]; }
    }
  }

  /** Line `j` is that of the file at position `at[j]`, and every file with a hash is there. */
  ghost predicate AreLinesAt(files: seq<HashedFile>, a: Algorithm, list: seq<Checksum>, at: seq<nat>) {
    && |at| == |list|
    && (forall j, k :: 0 <= j < k < |at| ==> at[j] < at[k])
    && (forall j :: 0 <= j < |at| ==> at[j] < |files| && IsLineOf(files[at[j]], a, list[j]))
    && forall i :: 0 <= i < |files| && a in files[i].hashes ==> i in at
  }

  ghost predicate IsLineOf(f: HashedFile, a: Algorithm, c: Checksum) {
    a in f.hashes && c == Checksum(f.hashes[a], f.size, f.path)
  }

  lemma NoLinesAt(a: Algorithm)
    ensures AreLinesAt([], a, [], [])
  {
  }

  lemma LineAtEnd(files: seq<HashedFile>, a: Algorithm, list: seq<Checksum>, at: seq<nat>)
    requires files != [] && AreLinesAt(files[..|files| - 1], a, list, at)
    ensures
      var n := |files| - 1;
      if a in files[n].hashes then AreLinesAt(files, a, list + [Checksum(files[n].hashes[a], files[n].size, files[n].path)], at + [n])
      else AreLinesAt(files, a, list + [], at)
  {
    hide IsLineOf;
    var n := |files| - 1;
    assert forall i :: 0 <= i < n ==> files[..n][i] == files[i];
    assert list + [] == list;
    if a in files[n].hashes {
      assert IsLineOf(files[n], a, Checksum(files[n].hashes[a], files[n].size, files[n].path)) by { hide *; LineOfItself(files[n], a); }
    }
  }

  lemma LineOfItself(f: HashedFile, a: Algorithm)
    requires a in f.hashes
    ensures IsLineOf(f, a, Checksum(f.hashes[a], f.size, f.path))
  {
  }

  lemma WrittenLines(r: Release, f: HashedFile, a: Algorithm)
    requires f in r.files && a in f.hashes
    ensures a in r.ToParagraph().checksums && Checksum(f.hashes[a], f.size, f.path) in r.ToParagraph().checksums[a]
  {
    var at := LinesOfFiles(r.files, a);
    var i :| 0 <= i < |r.files| && r.files[i] == f;
    assert i in at;
    var j :| 0 <= j < |at| && at[j] == i;
    assert ChecksumList(r.files, a)[j] == Checksum(f.hashes[a], f.size, f.path);
  }

  /** Writing and parsing gives back every file that has a hash, with its path, size
      and all its hashes, in the order of first mention; files without a hash are gone.
      The plain fields stay as they are. */
  lemma RoundTrip(r: Release)
    requires Covered(r) && DistinctPaths(r.files)
    ensures FromParagraph(r.ToParagraph()).inner.fields == r.inner.fields
    ensures
      var order, back := Order(r.files, 4, 0), FromParagraph(r.ToParagraph()).files;
      && IsOrder(r.files, order, 4, 0)
      && |back| == |order| && forall k :: 0 <= k < |order| ==> back[k] == r.files[order[k]]
  {
    MergedReflects(r, 4);
    OrderIsOrder(r.files, 4, 0);
    forall i | 0 <= i < |r.files|
      ensures Known(r.files[i], i, 4, 0) == r.files[i]
    {
      assert Known(r.files[i], i, 4, 0).hashes == r.files[i].hashes;
    }
  }

  ghost predicate KeepsOrder(files: seq<HashedFile>) {
    && (forall i :: 0 <= i < |files| ==> FirstRank(files[i]) < 4)
    && forall i, j :: 0 <= i < j < |files| ==> FirstRank(files[i]) <= FirstRank(files[j])
  }

  /** Parsing gives back exactly the records that were written, in their order, if and
      only if each of them has a hash and the lists that first mention them do not
      go back. */
  lemma RoundTripExact(r: Release)
    requires Covered(r) && DistinctPaths(r.files)
    ensures FromParagraph(r.ToParagraph()).files == r.files <==> KeepsOrder(r.files)
  {
    if FromParagraph(r.ToParagraph()).files == r.files { OnlyIfOrdered(r); }
    if KeepsOrder(r.files) { IfOrdered(r); }
  }

  lemma OnlyIfOrdered(r: Release)
    requires Covered(r) && DistinctPaths(r.files)
    requires FromParagraph(r.ToParagraph()).files == r.files
    ensures KeepsOrder(r.files)
  {
    RoundTrip(r);
    var order := Order(r.files, 4, 0);
    forall k | 0 <= k < |order| ensures order[k] == k {
      assert r.files[order[k]].path == r.files[k].path;
    }
    forall i, j | 0 <= i < j < |r.files|
      ensures FirstRank(r.files[i]) <= FirstRank(r.files[j])
    {
      assert Precedes(r.files, order[i], order[j]);
    }
    forall i | 0 <= i < |r.files| ensures FirstRank(r.files[i]) < 4 {
      assert Mentioned(r.files, order[i], 4, 0);
    }
  }

  lemma OrderIsIdentity(files: seq<HashedFile>)
    requires KeepsOrder(files)
    ensures |Order(files, 4, 0)| == |files| && forall k :: 0 <= k < |files| ==> Order(files, 4, 0)[k] == k
  {
    var order := Order(files, 4, 0);
    OrderIsOrder(files, 4, 0);
    forall j, k | 0 <= j < k < |order| ensures order[j] < order[k] {
      assert Precedes(files, order[j], order[k]);
    }
    forall i: nat | i < |files| ensures Holds(order, i) {
      assert Mentioned(files, i, 4, 0);
    }
    AscendingAll(order, |files|);
  }

  lemma IfOrdered(r: Release)
    requires Covered(r) && DistinctPaths(r.files) && KeepsOrder(r.files)
    ensures FromParagraph(r.ToParagraph()).files == r.files
  {
    RoundTrip(r);
    OrderIsIdentity(r.files);
  }

  lemma {:induction false} AscendingAll(s: seq<nat>, n: nat)
    requires forall j, k :: 0 <= j < k < |s| ==> s[j] < s[k]
    requires s == [] || s[0] < n
    requires forall k :: 0 <= k < |s| ==> s[k] < n
    requires forall i: nat :: i < n ==> Holds(s, i)
    ensures |s| == n && forall k :: 0 <= k < n ==> s[k] == k
  {
    if n > 0 {
      assert Holds(s, n - 1);
      var t := s[..|s| - 1];
      assert s[|s| - 1] == n - 1;
      forall i: nat | i < n - 1 ensures Holds(t, i) {
        assert Holds(s, i);
        var k :| 0 <= k < |s| && s[k] == i;
        assert t[k] == i;
      }
      AscendingAll(t, n - 1);
    }
  }

  /** In particular when all files carry the same, non-empty, set of algorithms. */
  lemma RoundTripSameAlgorithms(r: Release, algorithms: set<Algorithm>)
    requires Covered(r) && DistinctPaths(r.files) && algorithms != {}
    requires forall i :: 0 <= i < |r.files| ==> r.files[i].hashes.Keys == algorithms
    ensures FromParagraph(r.ToParagraph()).files == r.files
  {
    RoundTripExact(r);
    forall i, j | 0 <= i < j < |r.files|
      ensures FirstRank(r.files[i]) == FirstRank(r.files[j])
    {
      assert r.files[i].hashes.Keys == r.files[j].hashes.Keys;
    }
    var a :| a in algorithms;
    assert forall i :: 0 <= i < |r.files| ==> a in r.files[i].hashes;
  }

  /** A parsed Release to which files are added can be written without stale lists. */
  lemma ParsedIsCovered(r: Release, more: seq<HashedFile>)
    requires Covered(r) && DistinctPaths(r.files)
    requires FromParagraph(r.ToParagraph()).files == r.files
    ensures Covered(Release(r.ToParagraph(), r.files + more))
  {
    forall a | ChecksumList(r.files, a) != []
      ensures ChecksumList(r.files + more, a) != []
    {
      MoreChecksums(r.files, more, a);
    }
  }

  lemma {:induction false} MoreChecksums(files: seq<HashedFile>, more: seq<HashedFile>, a: Algorithm)
    ensures ChecksumList(files + more, a) == ChecksumList(files, a) + ChecksumList(more, a)
    decreases |more|
  {
    if more == [] {
      assert files + more == files;
    } else {
      var before := more[..|more| - 1];
      MoreChecksums(files, before, a);
      assert files + more == (files + before) + [more[|more| - 1]];
      assert (files + more)[..|files + more| - 1] == files + before;
    }
  }
}
