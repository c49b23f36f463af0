/** By-hash directories on disk: the link between the files of a directory, ordered
    by modification time, and the lists of module ByHash. */
module ByHashDirectory {
  import opened Common
  import opened Filesystem
  import opened ByHash

  /** `s` lists the files of `dir`, newest first. */
  ghost predicate Lists(t: Tree, dir: Path, s: seq<Entry>) {
    && Sorted(t, dir, s)
    && forall n {:trigger Listed(s, n)} :: Child(dir, n) in t ==> Listed(s, n)
  }

  ghost predicate Sorted(t: Tree, dir: Path, s: seq<Entry>) {
    && (forall i :: 0 <= i < |s| ==> Child(dir, s[i].name) in t && t[Child(dir, s[i].name)].content == s[i].content)
    && forall i, j :: 0 <= i < j < |s| ==> t[Child(dir, s[i].name)].mtime > t[Child(dir, s[j].name)].mtime
  }

  /** The files of `dir`, newest first. */
  ghost function DirOf(t: Tree, dir: Path): seq<Entry> {
    if exists s :: Lists(t, dir, s) then
      var s :| Lists(t, dir, s);
      s
    else []
  }

  lemma SortedIsDistinct(t: Tree, dir: Path, s: seq<Entry>)
    requires Sorted(t, dir, s)
    ensures DistinctNames(s)
  {
  }

  // ----- Modification times determine the list

  lemma ListsOnce(t: Tree, dir: Path, s: seq<Entry>)
    requires Lists(t, dir, s)
    ensures DirOf(t, dir) == s
  {
    var d := DirOf(t, dir);
    if |s| <= |d| { SameList(t, dir, s, d); } else { SameList(t, dir, d, s); }
  }

  lemma SameList(t: Tree, dir: Path, s: seq<Entry>, d: seq<Entry>)
    requires Lists(t, dir, s) && Lists(t, dir, d) && |s| <= |d|
    ensures s == d
  {
    SameStart(t, dir, s, d, |s|);
    if |s| < |d| && Listed(s, d[|s|].name) {
      assert false;
    }
  }

  lemma {:induction false} SameStart(t: Tree, dir: Path, s: seq<Entry>, d: seq<Entry>, n: nat)
    requires Lists(t, dir, s) && Lists(t, dir, d) && n <= |s| && n <= |d|
    ensures forall i :: 0 <= i < n ==> s[i] == d[i]
  {
    if n > 0 {
      SameStart(t, dir, s, d, n - 1);
      NotOlder(t, dir, s, d, n - 1);
      NotOlder(t, dir, d, s, n - 1);
      SameTimeSameFile(t, dir, s, d, n - 1);
    }
  }

  lemma SameTimeSameFile(t: Tree, dir: Path, s: seq<Entry>, d: seq<Entry>, k: nat)
    requires Lists(t, dir, s) && Lists(t, dir, d) && k < |s| && k < |d|
    requires t[Child(dir, s[k].name)].mtime == t[Child(dir, d[k].name)].mtime
    ensures s[k] == d[k]
  {
    assert Listed(d, s[k].name);
    var i :| 0 <= i < |d| && d[i].name == s[k].name;
    assert i == k;
  }

  lemma NotOlder(t: Tree, dir: Path, s: seq<Entry>, d: seq<Entry>, k: nat)
    requires Lists(t, dir, s) && Lists(t, dir, d) && k < |s| && k < |d|
    requires forall i :: 0 <= i < k ==> s[i] == d[i]
    ensures t[Child(dir, s[k].name)].mtime <= t[Child(dir, d[k].name)].mtime
  {
    assert Listed(d, s[k].name);
    var i :| 0 <= i < |d| && d[i].name == s[k].name;
    assert i >= k;
  }

  // ----- Sorting the names of a directory

  function EntryAt(t: Tree, dir: Path, name: string): Entry
    requires Child(dir, name) in t
  {
    Entry(name, t[Child(dir, name)].content)
  }

  /** Insert a file before the first older one. */
  function InsertByTime(t: Tree, dir: Path, s: seq<Entry>, name: string): seq<Entry>
    requires Child(dir, name) in t
    requires forall i :: 0 <= i < |s| ==> Child(dir, s[i].name) in t
  {
    if s == [] || t[Child(dir, name)].mtime > t[Child(dir, s[0].name)].mtime then [EntryAt(t, dir, name)] + s
    else [s[0]] + InsertByTime(t, dir, s[1..], name)
  }

  lemma {:induction false} InsertByTimeSorts(t: Tree, dir: Path, s: seq<Entry>, name: string)
    requires Child(dir, name) in t && Sorted(t, dir, s) && !Listed(s, name)
    requires forall p, q :: p in t && q in t && p != q ==> t[p].mtime != t[q].mtime
    ensures
      var u := InsertByTime(t, dir, s, name);
      && Sorted(t, dir, u)
      && |u| == |s| + 1
      && (forall n :: Listed(u, n) <==> n == name || Listed(s, n))
      && (u[0] == EntryAt(t, dir, name) || (s != [] && u[0] == s[0]))
  {
    var u := InsertByTime(t, dir, s, name);
    if s == [] || t[Child(dir, name)].mtime > t[Child(dir, s[0].name)].mtime {
      assert u[0] == EntryAt(t, dir, name);
      assert forall i :: 0 <= i < |s| ==> u[i + 1] == s[i];
      assert forall i :: 0 < i < |u| ==> u[i] == s[i - 1];
    } else {
      var rest := InsertByTime(t, dir, s[1..], name);
      assert forall i :: 0 <= i < |s[1..]| ==> s[1..][i] == s[i + 1];
      assert s[0].name != name;
      InsertByTimeSorts(t, dir, s[1..], name);
      InsertAfterHead(t, dir, s, name, rest);
    }
  }

  lemma InsertAfterHead(t: Tree, dir: Path, s: seq<Entry>, name: string, rest: seq<Entry>)
    requires s != [] && Child(dir, name) in t && Sorted(t, dir, s) && Sorted(t, dir, rest)
    requires t[Child(dir, s[0].name)].mtime > t[Child(dir, name)].mtime
    requires forall n :: Listed(rest, n) <==> n == name || Listed(s[1..], n)
    ensures Sorted(t, dir, [s[0]] + rest)
    ensures forall n :: Listed([s[0]] + rest, n) <==> n == name || Listed(s, n)
  {
    var u := [s[0]] + rest;
    assert forall i :: 0 < i < |u| ==> u[i] == rest[i - 1];
    forall i | 0 < i < |u|
      ensures t[Child(dir, u[0].name)].mtime > t[Child(dir, u[i].name)].mtime
    {
      assert Listed(rest, rest[i - 1].name);
      if u[i].name != name {
        var j :| 0 <= j < |s[1..]| && s[1..][j].name == u[i].name;
        assert s[j + 1].name == u[i].name;
      }
    }
    forall n
      ensures Listed(u, n) <==> n == name || Listed(s, n)
    {
      if Listed(rest, n) {
        var i :| 0 <= i < |rest| && rest[i].name == n;
        assert u[i + 1].name == n;
      }
      if Listed(s[1..], n) {
        var i :| 0 <= i < |s[1..]| && s[1..][i].name == n;
        assert s[i + 1].name == n;
      }
      if Listed(s, n) {
        var i :| 0 <= i < |s| && s[i].name == n;
        if i > 0 { assert s[1..][i - 1].name == n; } else { assert u[0].name == n; }
      }
    }
  }

  /** Sorting by modification time, newest first. */
  method SortNewestFirst(t: Tree, dir: Path, names: seq<string>, ghost clock: nat) returns (s: seq<Entry>)
    requires Stamped(t, clock) && NoDup(names) && forall n :: n in names ==> Child(dir, n) in t
    ensures Sorted(t, dir, s)
    ensures forall n :: Listed(s, n) <==> n in names
  {
    s := [];
    for i := 0 to |names|
      invariant Sorted(t, dir, s)
      invariant forall n :: Listed(s, n) <==> n in names[..i]
    {
      assert names[i] !in names[..i];
      InsertByTimeSorts(t, dir, s, names[i]);
      s := InsertByTime(t, dir, s, names[i]);
      assert names[..i + 1] == names[..i] + [names[i]];
    }
    assert names[..|names|] == names;
  }

  lemma {:induction false} ListsSome(t: Tree, clock: nat, dir: Path, left: set<string>) returns (s: seq<Entry>)
    requires Stamped(t, clock) && forall n :: n in left ==> Child(dir, n) in t
    ensures Sorted(t, dir, s) && forall n :: Listed(s, n) <==> n in left
    decreases left
  {
    if left == {} {
      s := [];
    } else {
      var name :| name in left;
      s := ListsSome(t, clock, dir, left - {name});
      InsertByTimeSorts(t, dir, s, name);
      s := InsertByTime(t, dir, s, name);
    }
  }

  lemma DirExists(t: Tree, clock: nat, dir: Path)
    requires Stamped(t, clock)
    ensures Lists(t, dir, DirOf(t, dir))
  {
    var names := set p | p in t && IsChild(p, dir) :: p[|dir|];
    forall n | n in names ensures Child(dir, n) in t {
      var p :| p in t && IsChild(p, dir) && p[|dir|] == n;
      ChildOfItsName(p, dir);
    }
    forall n | Child(dir, n) in t ensures n in names {
      assert IsChild(Child(dir, n), dir);
    }
    var s := ListsSome(t, clock, dir, names);
    assert Lists(t, dir, s);
  }

  // ----- How the operations change the list

  lemma DirUnchanged(t: Tree, u: Tree, clock: nat, dir: Path)
    requires Stamped(t, clock)
    requires forall n :: SameAt(t, u, Child(dir, n))
    ensures DirOf(u, dir) == DirOf(t, dir)
  {
    DirExists(t, clock, dir);
    var s := DirOf(t, dir);
    assert forall i :: 0 <= i < |s| ==> SameAt(t, u, Child(dir, s[i].name));
    ListsOnce(u, dir, s);
  }

  /** A directory is not changed by what happens among the files of another one. */
  lemma OtherDirUnchanged(t: Tree, u: Tree, clock: nat, dir: Path, other: Path)
    requires Stamped(t, clock) && dir != other
    requires forall p :: !IsChild(p, dir) ==> SameAt(u, t, p)
    ensures DirOf(u, other) == DirOf(t, other)
  {
    forall n ensures SameAt(t, u, Child(other, n)) {
      assert !IsChild(Child(other, n), dir);
      assert SameAt(u, t, Child(other, n));
    }
    DirUnchanged(t, u, clock, other);
  }

  lemma DirAfterWrite(t: Tree, u: Tree, clock: nat, dir: Path, e: Entry)
    requires Stamped(t, clock)
    requires Child(dir, e.name) in u && u[Child(dir, e.name)] == File(e.content, clock)
    requires forall n :: n != e.name ==> SameAt(t, u, Child(dir, n))
    ensures DirOf(u, dir) == Touch(DirOf(t, dir), e)
  {
    DirExists(t, clock, dir);
    var s := DirOf(t, dir);
    SortedIsDistinct(t, dir, s);
    SortedAfterWrite(t, u, clock, dir, s, e);
    forall n | Child(dir, n) in u
      ensures Listed(Touch(s, e), n)
    {
      assert n == e.name || SameAt(t, u, Child(dir, n));
      ListedAfterTouch(s, e, n);
    }
    ListsOnce(u, dir, Touch(s, e));
  }

  lemma ListedAfterTouch(s: seq<Entry>, e: Entry, n: string)
    requires DistinctNames(s) && (n == e.name || Listed(s, n))
    ensures Listed(Touch(s, e), n)
  {
    var k := TouchShape(s, e);
    if n == e.name {
      assert Touch(s, e)[0].name == n;
    } else {
      var j :| 0 <= j < |s| && s[j].name == n;
      assert Touch(s, e)[After(j, k)] == s[j];
    }
  }

  lemma SortedAfterWrite(t: Tree, u: Tree, clock: nat, dir: Path, s: seq<Entry>, e: Entry)
    requires Stamped(t, clock) && Sorted(t, dir, s) && DistinctNames(s)
    requires Child(dir, e.name) in u && u[Child(dir, e.name)] == File(e.content, clock)
    requires forall n :: n != e.name ==> SameAt(t, u, Child(dir, n))
    ensures Sorted(u, dir, Touch(s, e))
  {
    var v := Touch(s, e);
    var k := TouchShape(s, e);
    forall i | 0 < i < |v|
      ensures v[i] == s[Before(i, k)] && SameAt(t, u, Child(dir, v[i].name))
    {
      assert v[i].name != e.name;
    }
  }

  lemma DirAfterRemove(t: Tree, dir: Path, s: seq<Entry>, k: nat)
    requires Lists(t, dir, s) && k < |s|
    ensures Lists(t - {Child(dir, s[k].name)}, dir, s[..k] + s[k + 1..])
  {
    var u, v := t - {Child(dir, s[k].name)}, s[..k] + s[k + 1..];
    SortedIsDistinct(t, dir, s);
    forall i | 0 <= i < |v|
      ensures v[i] == s[if i < k then i else i + 1] && Child(dir, v[i].name) in u
    {
      assert v[i].name != s[k].name;
      assert Child(dir, v[i].name)[|dir|] != Child(dir, s[k].name)[|dir|];
    }
    forall n | Child(dir, n) in u
      ensures Listed(v, n)
    {
      assert Listed(s, n);
      var j :| 0 <= j < |s| && s[j].name == n;
      assert v[if j < k then j else j - 1].name == n;
    }
  }

  /** The files of a directory, sorted by modification time, newest first. */
  method ListDirectory(disk: Disk, dir: Path) returns (entries: Option<seq<Entry>>)
    requires disk.Valid()
    modifies disk`failed
    ensures entries.None? ==> disk.failed
    ensures entries.Some? ==> entries.value == DirOf(disk.files, dir)
  {
    var names := disk.ReadDir(dir);
    if names.None? {
      return None;
    }
    var s := SortNewestFirst(disk.files, dir, names.value, disk.clock);
    ListsOnce(disk.files, dir, s);
    entries := Some(s);
  }

  /** Prune one by-hash directory: list it, sort it, and remove all but the `keep`
      newest files, newest of them first. */
  method PruneDirectory(disk: Disk, dir: Path, keep: nat) returns (ok: bool)
    requires disk.Valid()
    modifies disk
    ensures disk.Valid()
    ensures !ok ==> disk.failed
    ensures ok ==> DirOf(disk.files, dir) == Newest(DirOf(old(disk.files), dir), keep)
    ensures PartlyPruned(DirOf(old(disk.files), dir), DirOf(disk.files, dir), keep)
    ensures forall p :: !IsChild(p, dir) ==> SameAt(disk.files, old(disk.files), p)
  {
    PrunedOrNot(DirOf(disk.files, dir), keep);
    var entries := ListDirectory(disk, dir);
    if entries.None? {
      return false;
    }
    ok := RemoveOlder(disk, dir, entries.value, keep);
  }

  method RemoveOlder(disk: Disk, dir: Path, entries: seq<Entry>, keep: nat) returns (ok: bool)
    requires disk.Valid() && DirOf(disk.files, dir) == entries
    modifies disk
    ensures disk.Valid()
    ensures !ok ==> disk.failed
    ensures ok ==> DirOf(disk.files, dir) == Newest(entries, keep)
    ensures PartlyPruned(entries, DirOf(disk.files, dir), keep)
    ensures forall p :: !IsChild(p, dir) ==> SameAt(disk.files, old(disk.files), p)
  {
    hide DirOf, Stamped, PartlyPruned;
    if |entries| <= keep {
      PrunedOrNot(entries, keep);
      return true;
    }
    var k := keep;
    ok := true;
    GapSteps(entries, keep, keep);
    while k < |entries| && ok
      invariant disk.Valid()
      invariant keep <= k <= |entries| && (!ok ==> disk.failed)
      invariant DirOf(disk.files, dir) == Gap(entries, keep, k)
      invariant forall p :: !IsChild(p, dir) ==> SameAt(disk.files, old(disk.files), p)
      decreases |entries| - k, ok
    {
      GapSteps(entries, keep, k);
      ok := RemoveOne(disk, dir, entries[k].name, keep);
      if ok {
        k := k + 1;
      }
    }
    GapSteps(entries, keep, k);
  }

  /** What is left of a list when the files from position `keep` up to `k` are gone. */
  function Gap(s: seq<Entry>, keep: nat, k: nat): seq<Entry>
    requires keep <= k <= |s|
  {
    s[..keep] + s[k..]
  }

  lemma GapSteps(s: seq<Entry>, keep: nat, k: nat)
    requires keep <= k <= |s|
    ensures PartlyPruned(s, Gap(s, keep, k), keep)
    ensures Gap(s, keep, keep) == s && Gap(s, keep, |s|) == s[..keep]
    ensures k < |s| ==>
      var left := Gap(s, keep, k);
      keep < |left| && left[keep] == s[k] && left[..keep] + left[keep + 1..] == Gap(s, keep, k + 1)
  {
    PrunedTo(s, keep, k);
  }

  method RemoveOne(disk: Disk, dir: Path, name: string, ghost k: nat) returns (ok: bool)
    requires disk.Valid() && k < |DirOf(disk.files, dir)| && DirOf(disk.files, dir)[k].name == name
    modifies disk
    ensures disk.Valid()
    ensures !ok ==> disk.failed
    ensures
      var s := DirOf(old(disk.files), dir);
      DirOf(disk.files, dir) == if ok then s[..k] + s[k + 1..] else s
    ensures forall p :: !IsChild(p, dir) ==> SameAt(disk.files, old(disk.files), p)
  {
    ghost var s := DirOf(disk.files, dir);
    DirExists(disk.files, disk.clock, dir);
    DirAfterRemove(disk.files, dir, s, k);
    ListsOnce(disk.files - {Child(dir, name)}, dir, s[..k] + s[k + 1..]);
    ok := disk.Remove(Child(dir, name));
  }

  lemma DirDistinct(t: Tree, clock: nat, dir: Path)
    requires Stamped(t, clock)
    ensures DistinctNames(DirOf(t, dir))
  {
    hide DirOf, Stamped;
    DirExists(t, clock, dir);
    SortedIsDistinct(t, dir, DirOf(t, dir));
  }
}
