/** What a directory holds after any number of generations that succeeded or failed: a
    history of what each of them wrote, and what follows from it. */
module Attempts {
  import opened Common
  import opened Filesystem
  import opened ByHash

  function Concat(batches: seq<seq<Entry>>): seq<Entry>
    decreases |batches|
  {
    if batches == [] then [] else Concat(batches[..|batches| - 1]) + batches[|batches| - 1]
  }

  // ----- Directories as runs of events

  /** The events of writing a batch. */
  function WriteAll(batch: seq<Entry>): seq<Event>
    decreases |batch|
  {
    if batch == [] then [] else WriteAll(batch[..|batch| - 1]) + [Write(batch[|batch| - 1])]
  }

  lemma {:induction false} WriteAllRuns(s: seq<Entry>, batch: seq<Entry>, keep: nat)
    ensures Run(s, WriteAll(batch), keep) == TouchAll(s, batch)
    ensures Writes(WriteAll(batch)) == batch
    decreases |batch|
  {
    if batch != [] {
      var before, last := batch[..|batch| - 1], Write(batch[|batch| - 1]);
      WriteAllRuns(s, before, keep);
      assert (WriteAll(before) + [last])[..|WriteAll(before)|] == WriteAll(before);
    }
  }

  lemma {:induction false} WritesAppend(first: seq<Event>, second: seq<Event>)
    ensures Writes(first + second) == Writes(first) + Writes(second)
    decreases |second|
  {
    if second == [] {
      assert first + second == first;
    } else {
      WritesAppend(first, second[..|second| - 1]);
      assert (first + second)[..|first + second| - 1] == first + second[..|second| - 1];
    }
  }

  /** One generation of a directory: a batch is written, then the directory is pruned. */
  lemma GenerationRuns(events: seq<Event>, batch: seq<Entry>, keep: nat)
    ensures
      var all := events + WriteAll(batch) + [Prune];
      && Newest(TouchAll(Run([], events, keep), batch), keep) == Run([], all, keep)
      && Writes(all) == Writes(events) + batch
      && MostRecent(Writes(all), keep, Run([], all, keep))
  {
    hide MostRecent;
    var written := events + WriteAll(batch);
    RunAppend([], events, WriteAll(batch), keep);
    WriteAllRuns(Run([], events, keep), batch, keep);
    WritesAppend(events, WriteAll(batch));
    PruningLeavesMostRecent(written, keep);
    WritesAppend(written, [Prune]);
    assert [Prune][..0] == [];
    assert (written + [Prune])[..|written|] == written;
  }

  /** An attempt is a run of events that wrote its part of the batch. */
  lemma AttemptRuns(s: seq<Entry>, t: seq<Entry>, batch: seq<Entry>, keep: nat, part: seq<Entry>) returns (events: seq<Event>)
    requires AttemptedWith(s, t, batch, Some(keep), part)
    ensures t == Run(s, events, keep) && Writes(events) == part
  {
    hide TouchAll, PartOf;
    events := WriteAll(part);
    WriteAllRuns(s, part, keep);
    if t != TouchAll(s, part) {
      var cut :| t == Apply(TouchAll(s, batch), BrokenPrune(cut), keep);
      var all := events + [BrokenPrune(cut)];
      assert all[..|events|] == events;
      events := all;
    }
  }

  // ----- Records

  /** `s` has become `t` by a run of events that wrote `part` of `batch`. */
  ghost predicate WrotePart(s: seq<Entry>, t: seq<Entry>, batch: seq<Entry>, keep: nat, part: seq<Entry>) {
    PartOf(part, batch) && exists events :: t == Run(s, events, keep) && Writes(events) == part
  }

  /** `lists[k]` became `lists[k + 1]` by writing `parts[k]` of `batches[k]`. */
  ghost predicate Logged(lists: seq<seq<Entry>>, batches: seq<seq<Entry>>, parts: seq<seq<Entry>>, keep: nat) {
    && |lists| == |batches| + 1 == |parts| + 1
    && forall k :: 0 <= k < |parts| ==> WrotePart(lists[k], lists[k + 1], batches[k], keep, parts[k])
  }

  /** The same, with no pruning but after a whole batch. */
  ghost predicate Recorded(lists: seq<seq<Entry>>, batches: seq<seq<Entry>>, parts: seq<seq<Entry>>, keep: Option<nat>) {
    && |lists| == |batches| + 1 == |parts| + 1
    && forall k :: 0 <= k < |parts| ==> AttemptedWith(lists[k], lists[k + 1], batches[k], keep, parts[k])
  }

  lemma RecordedIsLogged(lists: seq<seq<Entry>>, batches: seq<seq<Entry>>, parts: seq<seq<Entry>>, keep: nat)
    requires Recorded(lists, batches, parts, Some(keep))
    ensures Logged(lists, batches, parts, keep)
  {
    hide Run, Writes, TouchAll, PartlyPruned, PartOf;
    forall k | 0 <= k < |parts| ensures WrotePart(lists[k], lists[k + 1], batches[k], keep, parts[k]) {
      var events := AttemptRuns(lists[k], lists[k + 1], batches[k], keep, parts[k]);
    }
  }

  lemma {:induction false} RecordRuns(lists: seq<seq<Entry>>, batches: seq<seq<Entry>>, parts: seq<seq<Entry>>, keep: nat, n: nat)
    returns (events: seq<Event>)
    requires Logged(lists, batches, parts, keep) && lists[0] == [] && n <= |parts|
    ensures lists[n] == Run([], events, keep) && Writes(events) == Concat(parts[..n])
  {
    hide WrotePart;
    if n == 0 {
      events := [];
    } else {
      var before := RecordRuns(lists, batches, parts, keep, n - 1);
      var last := PartRuns(lists[n - 1], lists[n], batches[n - 1], keep, parts[n - 1]);
      RunAppend([], before, last, keep);
      WritesAppend(before, last);
      assert parts[..n][..n - 1] == parts[..n - 1];
      events := before + last;
    }
  }

  lemma PartRuns(s: seq<Entry>, t: seq<Entry>, batch: seq<Entry>, keep: nat, part: seq<Entry>) returns (events: seq<Event>)
    requires WrotePart(s, t, batch, keep, part)
    ensures t == Run(s, events, keep) && Writes(events) == part
  {
    hide Run, Writes;
    events :| t == Run(s, events, keep) && Writes(events) == part;
  }

  /** `t` is what some events that wrote `part`, and then a pruning, make of `s`. */
  ghost predicate PrunedAfter(s: seq<Entry>, t: seq<Entry>, part: seq<Entry>, keep: nat) {
    exists events :: Writes(events) == part && t == Newest(Run(s, events, keep), keep)
  }

  lemma PrunedAtOnce(s: seq<Entry>, part: seq<Entry>, keep: nat)
    ensures PrunedAfter(s, Newest(TouchAll(s, part), keep), part, keep)
  {
    hide Run, Writes, TouchAll, Newest;
    WriteAllRuns(s, part, keep);
  }

  /** Whatever was written and pruned, and wherever it stopped: the directory misses
      nothing that is among the `keep` most recently written files, and holds exactly
      these when the last attempt has ended with a pruning. */
  lemma LogTracks(lists: seq<seq<Entry>>, batches: seq<seq<Entry>>, parts: seq<seq<Entry>>, keep: nat)
    requires Logged(lists, batches, parts, keep) && lists[0] == []
    ensures Tracks(Concat(parts), keep, lists[|parts|])
    ensures parts != [] && PrunedAfter(lists[|parts| - 1], lists[|parts|], parts[|parts| - 1], keep) ==>
      MostRecent(Concat(parts), keep, lists[|parts|])
  {
    hide Logged, Tracks, MostRecent, Run, Writes, Newest;
    assert |lists| == |parts| + 1 by { LogLength(lists, batches, parts, keep); }
    var events := RecordRuns(lists, batches, parts, keep, |parts|);
    RunTracks(events, keep);
    assert parts[..|parts|] == parts;
    if parts != [] && PrunedAfter(lists[|parts| - 1], lists[|parts|], parts[|parts| - 1], keep) {
      var n := |parts| - 1;
      var before := RecordRuns(lists, batches, parts, keep, n);
      var last :| Writes(last) == parts[n] && lists[n + 1] == Newest(Run(lists[n], last, keep), keep);
      RunAppend([], before, last, keep);
      WritesAppend(before, last);
      EndsWithPrune(before + last, keep);
      assert Concat(parts) == Concat(parts[..n]) + parts[n];
    }
  }

  lemma LogLength(lists: seq<seq<Entry>>, batches: seq<seq<Entry>>, parts: seq<seq<Entry>>, keep: nat)
    requires Logged(lists, batches, parts, keep)
    ensures |lists| == |parts| + 1 == |batches| + 1
  {
  }

  lemma EndsWithPrune(events: seq<Event>, keep: nat)
    ensures MostRecent(Writes(events), keep, Newest(Run([], events, keep), keep))
  {
    hide MostRecent;
    PruningLeavesMostRecent(events, keep);
    assert (events + [Prune])[..|events|] == events;
  }

  /** The last attempt wrote its whole part and pruned. */
  ghost predicate EndsPruned(lists: seq<seq<Entry>>, parts: seq<seq<Entry>>, keep: nat)
    requires |lists| == |parts| + 1
  {
    var n := |parts| - 1;
    parts != [] && lists[n + 1] == Newest(TouchAll(lists[n], parts[n]), keep)
  }

  /** The same for a directory that is pruned once an attempt. */
  lemma RecordTracks(lists: seq<seq<Entry>>, batches: seq<seq<Entry>>, parts: seq<seq<Entry>>, keep: nat)
    requires Recorded(lists, batches, parts, Some(keep)) && lists[0] == []
    ensures Tracks(Concat(parts), keep, lists[|parts|])
    ensures EndsPruned(lists, parts, keep) ==> MostRecent(Concat(parts), keep, lists[|parts|])
  {
    hide AttemptedWith, Tracks, MostRecent, TouchAll, Newest, PrunedAfter;
    RecordedIsLogged(lists, batches, parts, keep);
    LogTracks(lists, batches, parts, keep);
    if EndsPruned(lists, parts, keep) { PrunedAtOnce(lists[|parts| - 1], parts[|parts| - 1], keep); }
  }

  // ----- When a file is there

  /** The names written from position `p` of the history on. */
  function NamesFrom(history: seq<Entry>, p: nat): set<string> {
    set i | p <= i < |history| :: history[i].name
  }

  function Names(s: seq<Entry>): set<string> {
    set i | 0 <= i < |s| :: s[i].name
  }

  lemma {:induction false} NumberOfNames(s: seq<Entry>)
    requires DistinctNames(s)
    ensures |Names(s)| == |s|
  {
    if s != [] {
      var n := |s| - 1;
      NumberOfNames(s[..n]);
      assert Names(s) == Names(s[..n]) + {s[n].name};
      assert s[n].name !in Names(s[..n]);
    }
  }

  lemma SubsetSize(a: set<string>, b: set<string>)
    requires a <= b
    ensures |a| <= |b|
  {
    assert b == a + (b - a);
  }

  lemma NameFrom(history: seq<Entry>, name: string, p: nat)
    requires p <= LastWrite(history, name)
    ensures name in NamesFrom(history, p)
  {
    assert history[LastWrite(history, name)].name == name;
  }

  lemma NameSince(history: seq<Entry>, name: string, p: nat)
    requires name in NamesFrom(history, p)
    ensures LastWrite(history, name) >= p
  {
    var i :| p <= i < |history| && history[i].name == name;
  }

  /** The number of different names written since the last write of `name`, with it. */
  function Age(history: seq<Entry>, name: string): nat
    requires LastWrite(history, name) >= 0
  {
    |NamesFrom(history, LastWrite(history, name))|
  }

  lemma NamesBound(history: seq<Entry>, p: nat)
    requires p <= |history|
    ensures |NamesFrom(history, p)| <= |history| - p
    decreases |history| - p
  {
    if p < |history| {
      NamesBound(history, p + 1);
      assert NamesFrom(history, p) == NamesFrom(history, p + 1) + {history[p].name};
    } else {
      assert NamesFrom(history, p) == {};
    }
  }

  /** A file that is young enough is there at any time. */
  lemma ThereIfFits(history: seq<Entry>, keep: nat, s: seq<Entry>, name: string)
    requires Tracks(history, keep, s) && LastWrite(history, name) >= 0 && Age(history, name) <= keep
    ensures Listed(s, name)
  {
    hide Tracks;
    if !Listed(s, name) {
      assert |s| >= keep && Older(history, name, s, keep) && Current(history, s) by { hide *; NotThere(history, keep, s, name); }
      CurrentIsDistinct(history, s);
      NumberOfNames(s[..keep]);
      var p := LastWrite(history, name);
      NameFrom(history, name, p);
      forall n | n in Names(s[..keep]) ensures n in NamesFrom(history, p) && n != name {
        var i :| 0 <= i < keep && s[i].name == n;
        NameFrom(history, n, p);
      }
      SubsetSize(Names(s[..keep]) + {name}, NamesFrom(history, p));
      assert false;
    }
  }

  lemma NotThere(history: seq<Entry>, keep: nat, s: seq<Entry>, name: string)
    requires Tracks(history, keep, s) && LastWrite(history, name) >= 0 && !Listed(s, name)
    ensures |s| >= keep && Older(history, name, s, keep) && Current(history, s)
  {
  }

  lemma OlderThan(history: seq<Entry>, keep: nat, s: seq<Entry>, name: string, j: nat)
    requires MostRecent(history, keep, s) && j < |s| && LastWrite(history, name) >= 0 && !Listed(s, name)
    ensures LastWrite(history, name) < LastWrite(history, s[j].name)
  {
  }

  /** And after a pruning no other one is. */
  lemma ThereIffFits(history: seq<Entry>, keep: nat, s: seq<Entry>, name: string)
    requires MostRecent(history, keep, s) && LastWrite(history, name) >= 0
    ensures Listed(s, name) <==> Age(history, name) <= keep
  {
    var p := LastWrite(history, name);
    if Age(history, name) <= keep {
      assert Tracks(history, keep, s);
      ThereIfFits(history, keep, s, name);
    }
    if Listed(s, name) {
      var j :| 0 <= j < |s| && s[j].name == name;
      forall n | n in NamesFrom(history, p) ensures n in Names(s) {
        NameSince(history, n, p);
        if !Listed(s, n) { OlderThan(history, keep, s, n, j); }
        var i :| 0 <= i < |s| && s[i].name == n;
      }
      CurrentIsDistinct(history, s);
      NumberOfNames(s);
      SubsetSize(NamesFrom(history, p), Names(s));
    }
  }

  // ----- Parts of the history

  lemma {:induction false} ConcatSplit(parts: seq<seq<Entry>>, k: nat)
    requires k <= |parts|
    ensures Concat(parts) == Concat(parts[..k]) + Concat(parts[k..])
    decreases |parts| - k
  {
    var n := |parts|;
    if k == n {
      assert parts[..k] == parts && parts[k..] == [];
    } else {
      ConcatSplit(parts, k + 1);
      ConcatFirst(parts[k..]);
      assert parts[k..][1..] == parts[k + 1..];
      assert parts[..k + 1][..k] == parts[..k];
    }
  }

  lemma {:induction false} ConcatFirst(parts: seq<seq<Entry>>)
    requires parts != []
    ensures Concat(parts) == parts[0] + Concat(parts[1..])
    decreases |parts|
  {
    var n := |parts| - 1;
    if n == 0 {
      assert parts[..0] == [] && parts[1..] == [];
      assert Concat(parts) == Concat(parts[..0]) + parts[0] == parts[0] && Concat(parts[1..]) == [];
    } else {
      ConcatFirst(parts[..n]);
      assert parts[..n][1..] == parts[1..][..n - 1];
    }
  }

  lemma {:induction false} ConcatSize(parts: seq<seq<Entry>>, w: nat)
    requires forall k :: 0 <= k < |parts| ==> |parts[k]| <= w
    ensures |Concat(parts)| <= w * |parts|
    decreases |parts|
  {
    if parts != [] {
      var n := |parts| - 1;
      ConcatSize(parts[..n], w);
      assert w * (n + 1) == w * n + w;
    }
  }

  /** A name that was written at or after position `p` is no older than what follows. */
  lemma AgeBound(history: seq<Entry>, name: string, p: nat)
    requires p <= LastWrite(history, name)
    ensures Age(history, name) <= |history| - p
  {
    NamesBound(history, LastWrite(history, name));
  }
}
