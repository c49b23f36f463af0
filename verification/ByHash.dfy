/** Retention in a by-hash directory.

    A by-hash directory is seen as the list of its files, newest modification
    time first. Copying an index into it writes a file (replacing the one of the
    same name, which becomes the newest); pruning keeps the `keep` newest files
    and removes the others, newest of them first, so that a failure half-way
    leaves a gap. The reference notion, `MostRecent`, is defined on the history
    of writes alone and mentions neither lists nor pruning. */
module ByHash {
  import opened Common
  import opened Filesystem

  datatype Entry = Entry(name: string, content: Content)

  /** One thing that happens to a directory; `BrokenPrune(cut)` is a pruning that
      failed when it was about to remove the file at position `cut`. */
  datatype Event = Write(entry: Entry) | Prune | BrokenPrune(cut: nat)

  function Without(s: seq<Entry>, name: string): seq<Entry> {
    if s == [] then []
    else if s[0].name == name then Without(s[1..], name)
    else [s[0]] + Without(s[1..], name)
  }

  function Touch(s: seq<Entry>, e: Entry): seq<Entry> {
    [e] + Without(s, e.name)
  }

  function TouchAll(s: seq<Entry>, es: seq<Entry>): seq<Entry>
    decreases |es|
  {
    if es == [] then s else Touch(TouchAll(s, es[..|es| - 1]), es[|es| - 1])
  }

  function Newest(s: seq<Entry>, keep: nat): seq<Entry> {
    if |s| <= keep then s else s[..keep]
  }

  function Apply(s: seq<Entry>, event: Event, keep: nat): seq<Entry> {
    match event
    case Write(e) => Touch(s, e)
    case Prune => Newest(s, keep)
    case BrokenPrune(cut) => if keep <= cut <= |s| then s[..keep] + s[cut..] else s
  }

  function Run(s: seq<Entry>, events: seq<Event>, keep: nat): seq<Entry>
    decreases |events|
  {
    if events == [] then s
    else Apply(Run(s, events[..|events| - 1], keep), events[|events| - 1], keep)
  }

  /** The history: everything written, oldest first. */
  function Writes(events: seq<Event>): seq<Entry>
    decreases |events|
  {
    if events == [] then []
    else
      var last := events[|events| - 1];
      Writes(events[..|events| - 1]) + if last.Write? then [last.entry] else []
  }

  /** Position of the last write of `name`, or -1. */
  function LastWrite(history: seq<Entry>, name: string): (k: int)
    ensures -1 <= k < |history|
    ensures k >= 0 ==> history[k].name == name
    ensures forall i :: k < i < |history| ==> history[i].name != name
  {
    if history == [] then -1
    else if history[|history| - 1].name == name then |history| - 1
    else LastWrite(history[..|history| - 1], name)
  }

  /** `s` is the `keep` most recently written distinct files of `history`, newest
      first, each with the content of its last write. */
  ghost predicate MostRecent(history: seq<Entry>, keep: nat, s: seq<Entry>) {
    && |s| <= keep
    && Current(history, s)
    && forall name {:trigger Listed(s, name)} :: LastWrite(history, name) >= 0 && !Listed(s, name) ==>
        |s| == keep && Older(history, name, s, keep)
  }

  ghost predicate Listed(s: seq<Entry>, name: string) {
    exists i :: 0 <= i < |s| && s[i].name == name
  }

  /** Every entry is what its name was last written with, and they come newest first. */
  ghost predicate Current(history: seq<Entry>, s: seq<Entry>) {
    && (forall i :: 0 <= i < |s| ==>
        LastWrite(history, s[i].name) >= 0 && s[i] == history[LastWrite(history, s[i].name)])
    && forall i, j :: 0 <= i < j < |s| ==> LastWrite(history, s[i].name) > LastWrite(history, s[j].name)
  }

  /** `name` was last written before each of the first `keep` files of `s`. */
  ghost predicate Older(history: seq<Entry>, name: string, s: seq<Entry>, keep: nat) {
    forall i :: 0 <= i < |s| && i < keep ==> LastWrite(history, name) < LastWrite(history, s[i].name)
  }

  // ----- Lists of files

  ghost predicate DistinctNames(s: seq<Entry>) {
    forall i, j :: 0 <= i < j < |s| ==> s[i].name != s[j].name
  }

  lemma {:induction false} WithoutAbsent(s: seq<Entry>, name: string)
    requires !Listed(s, name)
    ensures Without(s, name) == s
  {
    if s != [] {
      forall i | 0 <= i < |s[1..]| ensures s[1..][i].name != name { assert s[i + 1].name != name; }
      assert s[0].name != name;
      WithoutAbsent(s[1..], name);
    }
  }

  lemma {:induction false} WithoutPresent(s: seq<Entry>, k: nat)
    requires DistinctNames(s) && k < |s|
    ensures Without(s, s[k].name) == s[..k] + s[k + 1..]
  {
    if k == 0 {
      WithoutAbsent(s[1..], s[0].name);
    } else {
      WithoutPresent(s[1..], k - 1);
      assert s[1..][..k - 1] + s[1..][k..] == s[1..k] + s[k + 1..];
    }
  }

  /** Touching `e` puts it first and takes out the file of its name, at position
      `k` (or nowhere, when k == |s|); the others keep their order. */
  lemma TouchShape(s: seq<Entry>, e: Entry) returns (k: nat)
    requires DistinctNames(s)
    ensures k <= |s| && (k < |s| ==> s[k].name == e.name)
    ensures forall i :: 0 <= i < |s| && i != k ==> s[i].name != e.name
    ensures |Touch(s, e)| == if k < |s| then |s| else |s| + 1
    ensures Touch(s, e)[0] == e
    ensures forall i :: 0 < i < |Touch(s, e)| ==> Touch(s, e)[i] == s[Before(i, k)]
  {
    if Listed(s, e.name) {
      k :| 0 <= k < |s| && s[k].name == e.name;
      WithoutPresent(s, k);
    } else {
      k := |s|;
      WithoutAbsent(s, e.name);
    }
  }

  /** Where position `i` of a touched list was before, and the other way round. */
  function Before(i: int, k: nat): int {
    if i - 1 < k then i - 1 else i
  }

  function After(j: int, k: nat): int {
    if j < k then j + 1 else j
  }

  // ----- The invariant of a directory, through writes, prunings and broken prunings

  /** `s` may hold more than `keep` files, or have a gap after the first `keep`,
      but a written file that is missing is older than the first `keep` of `s`. */
  ghost predicate Tracks(history: seq<Entry>, keep: nat, s: seq<Entry>) {
    && Current(history, s)
    && forall name {:trigger Listed(s, name)} :: LastWrite(history, name) >= 0 && !Listed(s, name) ==>
        |s| >= keep && Older(history, name, s, keep)
  }

  lemma CurrentIsDistinct(history: seq<Entry>, s: seq<Entry>)
    requires Current(history, s)
    ensures DistinctNames(s)
  {
  }

  lemma LastWriteAfterWrite(history: seq<Entry>, e: Entry, name: string)
    ensures LastWrite(history + [e], name) == if name == e.name then |history| else LastWrite(history, name)
  {
    assert (history + [e])[..|history|] == history;
  }

  lemma CurrentAfterWrite(history: seq<Entry>, s: seq<Entry>, e: Entry)
    requires Current(history, s)
    ensures Current(history + [e], Touch(s, e))
  {
    var h, t := history + [e], Touch(s, e);
    CurrentIsDistinct(history, s);
    var k := TouchShape(s, e);
    forall i | 0 <= i < |t|
      ensures LastWrite(h, t[i].name) == if i == 0 then |history| else LastWrite(history, s[Before(i, k)].name)
      ensures LastWrite(h, t[i].name) >= 0 && t[i] == h[LastWrite(h, t[i].name)]
    {
      LastWriteAfterWrite(history, e, t[i].name);
    }
  }

  lemma MissingAfterWrite(history: seq<Entry>, keep: nat, s: seq<Entry>, e: Entry, name: string)
    requires DistinctNames(s) && LastWrite(history + [e], name) >= 0 && !Listed(Touch(s, e), name)
    ensures LastWrite(history + [e], name) == LastWrite(history, name) && !Listed(s, name)
  {
    var t := Touch(s, e);
    var k := TouchShape(s, e);
    assert t[0].name != name;
    LastWriteAfterWrite(history, e, name);
    forall j | 0 <= j < |s| ensures s[j].name != name {
      if j != k { assert t[After(j, k)] == s[j]; }
    }
  }

  lemma OlderAfterWrite(history: seq<Entry>, keep: nat, s: seq<Entry>, e: Entry, name: string)
    requires DistinctNames(s) && name != e.name && |s| >= keep && Older(history, name, s, keep)
    ensures |Touch(s, e)| >= keep && Older(history + [e], name, Touch(s, e), keep)
  {
    var t := Touch(s, e);
    var k := TouchShape(s, e);
    LastWriteAfterWrite(history, e, name);
    forall i | 0 <= i < |t| && i < keep
      ensures LastWrite(history + [e], name) < LastWrite(history + [e], t[i].name)
    {
      LastWriteAfterWrite(history, e, t[i].name);
    }
  }

  lemma TracksAfterWrite(history: seq<Entry>, keep: nat, s: seq<Entry>, e: Entry)
    requires Tracks(history, keep, s)
    ensures Tracks(history + [e], keep, Touch(s, e))
  {
    CurrentAfterWrite(history, s, e);
    CurrentIsDistinct(history, s);
    forall name | LastWrite(history + [e], name) >= 0 && !Listed(Touch(s, e), name)
      ensures |Touch(s, e)| >= keep && Older(history + [e], name, Touch(s, e), keep)
    {
      assert Touch(s, e)[0].name != name;
      MissingAfterWrite(history, keep, s, e, name);
      OlderAfterWrite(history, keep, s, e, name);
    }
  }

  lemma TracksAfterPrune(history: seq<Entry>, keep: nat, s: seq<Entry>)
    requires Tracks(history, keep, s)
    ensures Tracks(history, keep, Newest(s, keep))
    ensures MostRecent(history, keep, Newest(s, keep))
  {
    var t := Newest(s, keep);
    forall name | LastWrite(history, name) >= 0 && !Listed(t, name)
      ensures |t| == keep && Older(history, name, t, keep)
    {
      assert forall k :: 0 <= k < |t| ==> t[k] == s[k];
      if |s| < keep {
        assert false;
      } else {
        OlderThanKept(history, keep, s, name);
      }
    }
  }

  lemma TracksAfterBrokenPrune(history: seq<Entry>, keep: nat, s: seq<Entry>, cut: nat)
    requires Tracks(history, keep, s) && keep <= cut <= |s|
    ensures Tracks(history, keep, s[..keep] + s[cut..])
  {
    var t := s[..keep] + s[cut..];
    forall name | LastWrite(history, name) >= 0 && !Listed(t, name)
      ensures Older(history, name, t, keep)
    {
      assert forall i :: 0 <= i < keep ==> t[i] == s[i];
      OlderThanKept(history, keep, s, name);
    }
  }

  lemma OlderThanKept(history: seq<Entry>, keep: nat, s: seq<Entry>, name: string)
    requires Tracks(history, keep, s) && keep <= |s|
    requires LastWrite(history, name) >= 0 && forall i :: 0 <= i < keep ==> s[i].name != name
    ensures Older(history, name, s, keep)
  {
    if Listed(s, name) {
      var k :| 0 <= k < |s| && s[k].name == name;
      assert k >= keep;
    }
  }

  lemma {:induction false} RunTracks(events: seq<Event>, keep: nat)
    ensures Tracks(Writes(events), keep, Run([], events, keep))
    decreases |events|
  {
    if events == [] {
    } else {
      var before, last := events[..|events| - 1], events[|events| - 1];
      RunTracks(before, keep);
      var s := Run([], before, keep);
      match last {
        case Write(e) => TracksAfterWrite(Writes(before), keep, s, e);
        case Prune => TracksAfterPrune(Writes(before), keep, s);
        case BrokenPrune(cut) =>
          if keep <= cut <= |s| { TracksAfterBrokenPrune(Writes(before), keep, s, cut); }
      }
      assert last.Write? || Writes(events) == Writes(before);
    }
  }

  lemma {:induction false} RunAppend(s: seq<Entry>, first: seq<Event>, second: seq<Event>, keep: nat)
    ensures Run(Run(s, first, keep), second, keep) == Run(s, first + second, keep)
    decreases |second|
  {
    if second == [] {
      assert first + second == first;
    } else {
      var before := second[..|second| - 1];
      RunAppend(s, first, before, keep);
      assert (first + second)[..|first + second| - 1] == first + before;
    }
  }

  // ----- What copying and pruning may have done when they fail somewhere

  /** What was written when copying `batch` stopped: its first entries, the last one of
      them possibly with a wrong content. */
  ghost predicate PartOf(part: seq<Entry>, batch: seq<Entry>) {
    |part| <= |batch| && forall i :: 0 <= i < |part| ==>
      part[i].name == batch[i].name && (i < |part| - 1 ==> part[i] == batch[i])
  }

  /** `after` is what pruning leaves, or leaves when it fails somewhere. */
  ghost predicate PartlyPruned(before: seq<Entry>, after: seq<Entry>, keep: nat) {
    exists cut :: after == Apply(before, BrokenPrune(cut), keep)
  }

  /** `s` has become `t` by writing `part` of `batch`; and if that was all of it, and a
      keep count is configured, possibly by some pruning. */
  ghost predicate AttemptedWith(s: seq<Entry>, t: seq<Entry>, batch: seq<Entry>, keep: Option<nat>, part: seq<Entry>) {
    && PartOf(part, batch)
    && (t == TouchAll(s, part) || (part == batch && keep.Some? && PartlyPruned(TouchAll(s, batch), t, keep.value)))
  }

  ghost predicate Attempted(s: seq<Entry>, t: seq<Entry>, batch: seq<Entry>, keep: Option<nat>) {
    exists part :: AttemptedWith(s, t, batch, keep, part)
  }

  ghost predicate Copied(s: seq<Entry>, t: seq<Entry>, batch: seq<Entry>) {
    exists part :: PartOf(part, batch) && t == TouchAll(s, part)
  }

  lemma PrunedTo(before: seq<Entry>, keep: nat, cut: nat)
    requires keep <= cut <= |before|
    ensures PartlyPruned(before, before[..keep] + before[cut..], keep)
  {
    assert before[..keep] + before[cut..] == Apply(before, BrokenPrune(cut), keep);
  }

  /** No pruning at all, and a complete one. */
  lemma PrunedOrNot(before: seq<Entry>, keep: nat)
    ensures PartlyPruned(before, before, keep) && PartlyPruned(before, Newest(before, keep), keep)
  {
    assert keep <= |before| ==> before[..keep] + before[keep..] == before;
    assert before == Apply(before, BrokenPrune(keep), keep);
    assert keep <= |before| ==> before[..keep] + before[|before|..] == before[..keep];
    assert Newest(before, keep) == Apply(before, BrokenPrune(if keep <= |before| then |before| else keep), keep);
  }

  lemma CopiedSome(s: seq<Entry>, batch: seq<Entry>, n: nat)
    requires n <= |batch|
    ensures Copied(s, TouchAll(s, batch[..n]), batch)
  {
    assert PartOf(batch[..n], batch);
  }

  lemma CopiedBroken(s: seq<Entry>, batch: seq<Entry>, n: nat, content: Content)
    requires n < |batch|
    ensures Copied(s, Touch(TouchAll(s, batch[..n]), Entry(batch[n].name, content)), batch)
  {
    var part := batch[..n] + [Entry(batch[n].name, content)];
    assert part[..n] == batch[..n];
    assert PartOf(part, batch);
  }

  lemma CopiedAllOrNothing(s: seq<Entry>, batch: seq<Entry>)
    ensures Copied(s, s, batch) && TouchAll(s, batch[..0]) == s
    ensures Copied(s, TouchAll(s, batch), batch)
  {
    CopiedSome(s, batch, 0);
    CopiedSome(s, batch, |batch|);
    assert batch[..|batch|] == batch;
  }

  lemma CopiedIsAttempted(s: seq<Entry>, t: seq<Entry>, batch: seq<Entry>, keep: Option<nat>)
    requires Copied(s, t, batch)
    ensures Attempted(s, t, batch, keep)
  {
    hide PartOf, TouchAll;
    var part :| PartOf(part, batch) && t == TouchAll(s, part);
    assert AttemptedWith(s, t, batch, keep, part);
  }

  lemma PrunedIsAttempted(s: seq<Entry>, t: seq<Entry>, batch: seq<Entry>, keep: nat)
    requires PartlyPruned(TouchAll(s, batch), t, keep)
    ensures Attempted(s, t, batch, Some(keep))
  {
    hide TouchAll, PartlyPruned;
    assert AttemptedWith(s, t, batch, Some(keep), batch);
  }

  lemma {:induction false} TouchBoth(s: seq<Entry>, first: seq<Entry>, second: seq<Entry>)
    ensures TouchAll(TouchAll(s, first), second) == TouchAll(s, first + second)
    decreases |second|
  {
    if second == [] {
      assert first + second == first;
    } else {
      var n := |second| - 1;
      TouchBoth(s, first, second[..n]);
      assert (first + second)[..|first + second| - 1] == first + second[..n];
    }
  }

  lemma CopiedMore(s: seq<Entry>, t: seq<Entry>, u: seq<Entry>, first: seq<Entry>, second: seq<Entry>)
    requires t == TouchAll(s, first) && Copied(t, u, second)
    ensures Copied(s, u, first + second)
  {
    hide TouchAll;
    var part :| PartOf(part, second) && u == TouchAll(t, part);
    TouchBoth(s, first, part);
    assert PartOf(first + part, first + second);
  }

  lemma CopiedFirst(s: seq<Entry>, t: seq<Entry>, first: seq<Entry>, second: seq<Entry>)
    requires Copied(s, t, first)
    ensures Copied(s, t, first + second)
  {
    hide TouchAll;
    var part :| PartOf(part, first) && t == TouchAll(s, part);
    assert PartOf(part, first + second);
  }

  lemma TouchDistinct(s: seq<Entry>, e: Entry)
    requires DistinctNames(s)
    ensures DistinctNames(Touch(s, e))
  {
    var k := TouchShape(s, e);
  }

  lemma {:induction false} TouchAllDistinct(s: seq<Entry>, es: seq<Entry>)
    requires DistinctNames(s)
    ensures DistinctNames(TouchAll(s, es))
    decreases |es|
  {
    hide DistinctNames;
    if es != [] {
      TouchAllDistinct(s, es[..|es| - 1]);
      TouchDistinct(TouchAll(s, es[..|es| - 1]), es[|es| - 1]);
    }
  }

  /** What was just written comes before everything else. */
  lemma {:induction false} WrittenComesFirst(s: seq<Entry>, es: seq<Entry>, i: nat) returns (j: nat)
    requires DistinctNames(s) && i < |es|
    ensures j < |es| && j < |TouchAll(s, es)| && TouchAll(s, es)[j].name == es[i].name && TouchAll(s, es)[j] in es
    decreases |es|
  {
    var n := |es| - 1;
    var t := TouchAll(s, es[..n]);
    TouchAllDistinct(s, es[..n]);
    var k := TouchShape(t, es[n]);
    if es[i].name == es[n].name {
      j := 0;
    } else {
      var b := WrittenComesFirst(s, es[..n], i);
      j := After(b, k);
      assert TouchAll(s, es)[j] == t[b];
    }
  }

  // ----- Main results

  /** Whatever writes, prunings and failed prunings a directory that started empty
      has been through, one successful pruning leaves exactly the `keep` most
      recently written distinct files. */
  lemma PruningLeavesMostRecent(events: seq<Event>, keep: nat)
    ensures MostRecent(Writes(events), keep, Run([], events + [Prune], keep))
  {
    RunTracks(events, keep);
    TracksAfterPrune(Writes(events), keep, Run([], events, keep));
    assert (events + [Prune])[..|events|] == events;
  }

  /** The reference notion is a function of the history. */
  lemma MostRecentUnique(history: seq<Entry>, keep: nat, s: seq<Entry>, t: seq<Entry>)
    requires MostRecent(history, keep, s) && MostRecent(history, keep, t)
    ensures s == t
  {
    if |s| <= |t| { NotLonger(history, keep, s, t); } else { NotLonger(history, keep, t, s); }
  }

  lemma NotLonger(history: seq<Entry>, keep: nat, s: seq<Entry>, t: seq<Entry>)
    requires MostRecent(history, keep, s) && MostRecent(history, keep, t) && |s| <= |t|
    ensures s == t
  {
    SamePrefix(history, keep, s, t, |s|);
    if |s| < |t| && !Listed(s, t[|s|].name) {
      assert false;
    }
  }

  lemma {:induction false} SamePrefix(history: seq<Entry>, keep: nat, s: seq<Entry>, t: seq<Entry>, n: nat)
    requires MostRecent(history, keep, s) && MostRecent(history, keep, t)
    requires n <= |s| && n <= |t|
    ensures forall i :: 0 <= i < n ==> s[i] == t[i]
  {
    if n > 0 {
      SamePrefix(history, keep, s, t, n - 1);
      SameEntryAt(history, keep, s, t, n - 1);
    }
  }

  lemma SameEntryAt(history: seq<Entry>, keep: nat, s: seq<Entry>, t: seq<Entry>, k: nat)
    requires MostRecent(history, keep, s) && MostRecent(history, keep, t)
    requires k < |s| && k < |t| && forall i :: 0 <= i < k ==> s[i] == t[i]
    ensures s[k] == t[k]
  {
    NotEarlier(history, keep, s, t, k);
    NotEarlier(history, keep, t, s, k);
    assert s[k] == history[LastWrite(history, s[k].name)];
    assert t[k] == history[LastWrite(history, t[k].name)];
  }

  lemma NotEarlier(history: seq<Entry>, keep: nat, s: seq<Entry>, t: seq<Entry>, k: nat)
    requires MostRecent(history, keep, s) && MostRecent(history, keep, t)
    requires k < |s| && k < |t| && forall i :: 0 <= i < k ==> s[i] == t[i]
    ensures LastWrite(history, s[k].name) <= LastWrite(history, t[k].name)
  {
    var name := s[k].name;
    if Listed(t, name) {
      var i :| 0 <= i < |t| && t[i].name == name;
      assert i >= k;
    } else {
      assert Older(history, name, t, keep);
    }
  }

  /** Everything written among the last `recent <= keep` writes is still there, with
      the content of its last write. */
  lemma RecentWritesKept(history: seq<Entry>, keep: nat, s: seq<Entry>, recent: nat, i: nat)
    requires MostRecent(history, keep, s)
    requires recent <= keep && |history| - recent <= i < |history|
    ensures history[LastWrite(history, history[i].name)] in s
  {
    var name := history[i].name;
    var last := LastWrite(history, name);
    assert last >= i;
    if !Listed(s, name) {
      assert |s| == keep && Older(history, name, s, keep);
      PositionsBound(history, s, keep - 1);
      assert false;
    }
    var j :| 0 <= j < |s| && s[j].name == name;
    assert s[j] == history[last];
  }

  lemma {:induction false} PositionsBound(history: seq<Entry>, s: seq<Entry>, i: nat)
    requires Current(history, s) && i < |s|
    ensures LastWrite(history, s[i].name) <= |history| - 1 - i
  {
    if i > 0 { PositionsBound(history, s, i - 1); }
  }

  /** The bound is exact: when no name is ever written twice, a write that is more
      than `keep` writes old is gone. */
  lemma OlderWritesGone(history: seq<Entry>, keep: nat, s: seq<Entry>, recent: nat)
    requires MostRecent(history, keep, s) && DistinctNames(history)
    requires keep < recent <= |history|
    ensures !Listed(s, history[|history| - recent].name)
  {
    var name := history[|history| - recent].name;
    if Listed(s, name) {
      var k :| 0 <= k < |s| && s[k].name == name;
      ExactPositions(history, keep, s, k);
      assert false;
    }
  }

  lemma {:induction false} ExactPositions(history: seq<Entry>, keep: nat, s: seq<Entry>, k: nat)
    requires MostRecent(history, keep, s) && DistinctNames(history) && k < |s|
    ensures LastWrite(history, s[k].name) == |history| - 1 - k
  {
    if k > 0 { ExactPositions(history, keep, s, k - 1); }
    PositionsBound(history, s, k);
    var p := |history| - 1 - k;
    if LastWrite(history, s[k].name) < p {
      var name := history[p].name;
      assert LastWrite(history, name) == p;
      if Listed(s, name) {
        var i :| 0 <= i < |s| && s[i].name == name;
        assert i < k;
        ExactPositions(history, keep, s, i);
      }
      assert false;
    }
  }
}
