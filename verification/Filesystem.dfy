/** The directory tree a repository is published into, with operations that can fail.

    Paths are lists of names below the base directory; directories themselves are
    not represented. Modification times come from a clock that ticks with every
    write, so no two files carry the same one. Whether an operation succeeds is
    not determined. */
module Filesystem {
  import opened Common
  import R = Release

  type Path = seq<string>

  datatype Content = Blob(bytes: Bytes) | ReleaseText(para: R.Paragraph)

  datatype File = File(content: Content, mtime: nat)

  type Tree = map<Path, File>

  function Child(dir: Path, name: string): (p: Path)
    ensures IsChild(p, dir) && p[|dir|] == name
  {
    dir + [name]
  }

  predicate IsChild(p: Path, dir: Path) {
    |p| == |dir| + 1 && p[..|dir|] == dir
  }

  lemma ChildOfItsName(p: Path, dir: Path)
    requires IsChild(p, dir)
    ensures Child(dir, p[|dir|]) == p
  {
    assert p == p[..|dir|] + [p[|dir|]];
  }

  ghost predicate Stamped(t: Tree, clock: nat) {
    && (forall p :: p in t ==> t[p].mtime < clock)
    && forall p, q :: p in t && q in t && p != q ==> t[p].mtime != t[q].mtime
  }

  /** The modification times of the files differ. */
  ghost predicate HasClock(t: Tree) {
    exists clock :: Stamped(t, clock)
  }

  /** `p` is present in both with the same content and time, or absent from both. */
  ghost predicate SameAt(t: Tree, u: Tree, p: Path) {
    (p in t <==> p in u) && (p in t ==> t[p] == u[p])
  }

  lemma SameWithItself(t: Tree)
    ensures forall p :: SameAt(t, t, p)
  {
  }

  class Disk {
    var files: Tree
    var clock: nat
    /** Whether an operation has failed for a reason that is not the program's. */
    ghost var failed: bool

    ghost predicate Valid()
      reads `files, `clock
    {
      Stamped(files, clock)
    }

    constructor (files: Tree, clock: nat)
      requires Stamped(files, clock)
      ensures Valid() && this.files == files && !failed
    {
      this.files, this.clock, failed := files, clock, false;
    }

    /** Whether the next operation will work. */
    method Works() returns (ok: bool)
      modifies `failed
      ensures failed == (old(failed) || !ok)
    {
      ok := *;
      failed := failed || !ok;
    }

    method CreateDirAll(dir: Path) returns (ok: bool)
      modifies `failed
      ensures failed == (old(failed) || !ok)
    {
      ok := Works();
    }

    /** A write that fails may leave anything at `p`. */
    method Write(p: Path, content: Content) returns (ok: bool)
      requires Valid()
      modifies this
      ensures Valid()
      ensures failed == (old(failed) || !ok)
      ensures ok ==> p in files && files[p] == File(content, old(clock))
      ensures SameAt(files, old(files), p) || (p in files && files[p].mtime == old(clock))
      ensures forall q :: q != p ==> SameAt(files, old(files), q)
    {
      ok := Works();
      var touched: bool := *;
      if ok {
        files, clock := files[p := File(content, clock)], clock + 1;
      } else if touched {
        var partial: Content := *;
        files, clock := files[p := File(partial, clock)], clock + 1;
      }
    }

    method Read(p: Path) returns (content: Option<Content>)
      modifies `failed
      ensures content.None? ==> failed || p !in files
      ensures content.Some? ==> p in files && content.value == files[p].content
    {
      content := None;
      if p in files {
        var ok := Works();
        if ok {
          content := Some(files[p].content);
        }
      }
    }

    /** A copy that fails may leave anything at `dst`. */
    method Copy(src: Path, dst: Path) returns (ok: bool)
      requires Valid()
      modifies this
      ensures Valid()
      ensures !ok ==> failed || src !in old(files)
      ensures ok ==> src in old(files) && dst in files && files[dst] == File(old(files)[src].content, old(clock))
      ensures SameAt(files, old(files), dst) || (dst in files && files[dst].mtime == old(clock))
      ensures forall q :: q != dst ==> SameAt(files, old(files), q)
    {
      if src !in files {
        return false;
      }
      ok := Write(dst, files[src].content);
    }

    method Remove(p: Path) returns (ok: bool)
      requires Valid()
      modifies this
      ensures Valid()
      ensures !ok ==> failed || p !in old(files)
      ensures files == if ok then old(files) - {p} else old(files)
    {
      if p !in files {
        return false;
      }
      ok := Works();
      if ok {
        files := files - {p};
      }
    }

    /** Renaming replaces `dst`, all at once or not at all. */
    method Rename(src: Path, dst: Path) returns (ok: bool)
      requires Valid()
      modifies this
      ensures Valid()
      ensures !ok ==> failed || src !in old(files)
      ensures ok ==> src in old(files) && files == (old(files) - {src})[dst := old(files)[src]]
      ensures !ok ==> files == old(files)
    {
      if src !in files {
        return false;
      }
      ok := Works();
      if ok {
        files := (files - {src})[dst := files[src]];
      }
    }

    /** A new empty file in `dir`, named `prefix` and six more characters. */
    method TempFile(dir: Path, prefix: string) returns (temp: Option<Path>)
      requires Valid()
      modifies this
      ensures Valid()
      ensures temp.None? ==> failed
      ensures temp.Some? ==>
        && IsTempName(temp.value, dir, prefix)
        && temp.value !in old(files) && temp.value in files
      ensures temp.None? ==> files == old(files)
      ensures forall q :: temp != Some(q) ==> SameAt(files, old(files), q)
    {
      temp := None;
      var ok := Works();
      var suffix: string := *;
      var p := Child(dir, prefix + suffix);
      if ok && |suffix| == 6 && p !in files {
        files, clock := files[p := File(Blob([]), clock)], clock + 1;
        temp := Some(p);
      } else {
        failed := true;
      }
    }

    /** What dropping temporary paths does: each file that is still there is removed. */
    method Drop(temps: seq<Path>)
      requires Valid()
      modifies this
      ensures Valid()
      ensures files == old(files) - (set p | p in temps) && failed == old(failed)
    {
      for i := 0 to |temps|
        invariant Valid() && failed == old(failed)
        invariant files == old(files) - (set p | p in temps[..i])
      {
        files := files - {temps[i]};
        assert temps[..i + 1] == temps[..i] + [temps[i]];
      }
      assert temps[..|temps|] == temps;
    }

    /** The names in `dir`, in no particular order. */
    method ReadDir(dir: Path) returns (names: Option<seq<string>>)
      requires Valid()
      modifies `failed
      ensures names.None? ==> failed
      ensures names.Some? ==> NoDup(names.value)
      ensures names.Some? ==> forall n :: n in names.value <==> Child(dir, n) in files
    {
      var ok := Works();
      if !ok {
        return None;
      }
      var left := set p | p in files && IsChild(p, dir);
      var found: seq<string> := [];
      while left != {}
        invariant forall p :: p in left ==> p in files && IsChild(p, dir)
        invariant forall n :: n in found ==> Child(dir, n) in files && Child(dir, n) !in left
        invariant forall n :: Child(dir, n) in files ==> n in found || Child(dir, n) in left
        invariant NoDup(found)
        decreases left
      {
        var p :| p in left;
        ChildOfItsName(p, dir);
        found := found + [p[|dir|]];
        left := left - {p};
      }
      names := Some(found);
    }
  }

  predicate IsTempName(p: Path, dir: Path, prefix: string) {
    IsChild(p, dir) && |p[|dir|]| == |prefix| + 6 && prefix <= p[|dir|]
  }
}
