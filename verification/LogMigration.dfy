/** Moving run logs from one store to another: every log is fetched, imported and then
    deleted, several runs are worked on at a time, and everything can stop anywhere. */
module LogMigration {
  import opened Common

  datatype Log = Log(run: string, name: string)

  /** A log may be stored compressed, plain, or both. */
  datatype Slot = Slot(log: Log, compressed: bool)

  /** What a store holds; compression is lossless, so a compressed object is represented
      by what it decompresses to. */
  type Store = map<Slot, Bytes>

  datatype Forms = Forms(gz: Option<Bytes>, plain: Option<Bytes>)

  const NOWHERE: Forms := Forms(None, None)

  function Lookup(store: Store, slot: Slot): Option<Bytes> {
    if slot in store then Some(store[slot]) else None
  }

  function FormsOf(store: Store, log: Log): Forms {
    Forms(Lookup(store, Slot(log, true)), Lookup(store, Slot(log, false)))
  }

  /** What a log reads as: the compressed form goes first. */
  function Read(f: Forms): Option<Bytes> {
    if f.gz.Some? then f.gz else f.plain
  }

  /** Deleting removes the form that would be read. */
  function WithoutFirst(f: Forms): Forms {
    if f.gz.Some? then f.(gz := None) else f.(plain := None)
  }

  function Number(f: Forms): nat {
    (if f.gz.Some? then 1 else 0) + if f.plain.Some? then 1 else 0
  }

  predicate Agree(f: Forms) {
    Number(f) == 2 ==> f.gz == f.plain
  }

  // ----- The state machine

  type Lists = map<string, seq<string>>

  /** Where the work on one log of a run has got to. */
  datatype Phase = Idle | Fetched(content: Bytes) | Imported

  datatype Worker = Worker(next: nat, phase: Phase)

  datatype State = State(from: Store, to: Store, workers: map<string, Worker>)

  /** `Restart` is a new attempt after an abort; aborting itself changes no store. */
  datatype Step = Fetch(run: string) | Import(run: string) | Delete(run: string) | Restart

  function Workers(lists: Lists): map<string, Worker> {
    map r | r in lists :: Worker(0, Idle)
  }

  predicate Working(lists: Lists, s: State, run: string) {
    run in lists && run in s.workers && s.workers[run].next < |lists[run]|
  }

  function Current(lists: Lists, s: State, run: string): Log
    requires Working(lists, s, run)
  {
    Log(run, lists[run][s.workers[run].next])
  }

  function MoveTo(s: State, run: string, w: Worker): State {
    s.(workers := s.workers[run := w])
  }

  /** A step that cannot be taken changes nothing. */
  function Do(lists: Lists, s: State, step: Step): State {
    match step
    case Restart => s.(workers := Workers(lists))
    case Fetch(run) =>
      if !Working(lists, s, run) || !s.workers[run].phase.Idle? then s
      else
        var w, content := s.workers[run], Read(FormsOf(s.from, Current(lists, s, run)));
        MoveTo(s, run, if content.None? then Worker(w.next + 1, Idle) else w.(phase := Fetched(content.value)))
    case Import(run) =>
      if !Working(lists, s, run) || !s.workers[run].phase.Fetched? then s
      else
        var w := s.workers[run];
        MoveTo(s.(to := s.to[Slot(Current(lists, s, run), true) := w.phase.content]), run, w.(phase := Imported))
    case Delete(run) =>
      if !Working(lists, s, run) || !s.workers[run].phase.Imported? then s
      else
        var w, log := s.workers[run], Current(lists, s, run);
        var f := FormsOf(s.from, log);
        if f == NOWHERE then s
        else MoveTo(s.(from := s.from - {Slot(log, f.gz.Some?)}), run, Worker(w.next + 1, Idle))
  }

  function Run(lists: Lists, s: State, steps: seq<Step>): State
    decreases |steps|
  {
    if steps == [] then s else Do(lists, Run(lists, s, steps[..|steps| - 1]), steps[|steps| - 1])
  }

  function Start(lists: Lists, from: Store, to: Store): State {
    State(from, to, Workers(lists))
  }

  predicate Finished(lists: Lists, s: State, run: string)
    requires run in lists
  {
    run in s.workers && s.workers[run] == Worker(|lists[run]|, Idle)
  }

  // ----- One log at a time

  function Count(names: seq<string>, name: string): nat {
    if names == [] then 0 else (if names[0] == name then 1 else 0) + Count(names[1..], name)
  }

  function TimesListed(lists: Lists, log: Log): nat {
    if log.run in lists then Count(lists[log.run], log.name) else 0
  }

  /** How often the log is still to be looked at in this attempt. */
  function Remaining(lists: Lists, s: State, log: Log): nat {
    if log.run in lists && log.run in s.workers && s.workers[log.run].next <= |lists[log.run]|
    then Count(lists[log.run][s.workers[log.run].next..], log.name)
    else 0
  }

  /** The forms in both stores once there is nothing left to move. */
  function Settled(f: Forms, t: Forms): (Forms, Forms) {
    if Read(f).None? then (f, t) else (NOWHERE, t.(gz := Read(f)))
  }

  function Both(s: State, log: Log): (Forms, Forms) {
    (FormsOf(s.from, log), FormsOf(s.to, log))
  }

  /** The forms a log has agree, and there are not more of them than it is listed. */
  predicate Movable(lists: Lists, from: Store, log: Log) {
    Agree(FormsOf(from, log)) && Number(FormsOf(from, log)) <= TimesListed(lists, log)
  }

  /** Which log, if any, a step is about. */
  ghost predicate About(lists: Lists, s: State, step: Step, log: Log) {
    !step.Restart? && Working(lists, s, step.run) && Current(lists, s, step.run) == log
  }

  ghost predicate WorkerInv(lists: Lists, s: State, run: string) {
    run in lists && run in s.workers ==>
      var w := s.workers[run];
      && w.next <= |lists[run]|
      && (!w.phase.Idle? ==> w.next < |lists[run]|)
      && (w.phase.Fetched? ==> Read(FormsOf(s.from, Current(lists, s, run))) == Some(w.phase.content))
      && (w.phase.Imported? ==>
          && Read(FormsOf(s.from, Current(lists, s, run))).Some?
          && FormsOf(s.to, Current(lists, s, run)).gz == Read(FormsOf(s.from, Current(lists, s, run))))
  }

  /** What holds of a log's forms that started as `start`. */
  ghost predicate LogInv(lists: Lists, s: State, log: Log, start: (Forms, Forms)) {
    && Agree(FormsOf(s.from, log)) && Number(FormsOf(s.from, log)) <= Remaining(lists, s, log)
    && Settled(FormsOf(s.from, log), FormsOf(s.to, log)) == Settled(start.0, start.1)
  }

  lemma {:induction false} CountSuffix(names: seq<string>, i: nat, name: string)
    requires i <= |names|
    ensures Count(names[i..], name) <= Count(names, name)
    ensures i < |names| ==> Count(names[i..], name) == (if names[i] == name then 1 else 0) + Count(names[i + 1..], name)
    decreases |names|
  {
    if i < |names| { assert names[i..][0] == names[i] && names[i..][1..] == names[i + 1..]; }
    if i > 0 {
      CountSuffix(names[1..], i - 1, name);
      assert names[1..][i - 1..] == names[i..];
    } else {
      assert names[0..] == names;
    }
  }

  /** A step leaves every log alone but the one it is about. */
  lemma OtherLogs(lists: Lists, s: State, step: Step, log: Log)
    requires !About(lists, s, step, log)
    ensures Both(Do(lists, s, step), log) == Both(s, log)
    ensures step.Restart? || Remaining(lists, Do(lists, s, step), log) == Remaining(lists, s, log)
  {
    if !step.Restart? && Working(lists, s, step.run) {
      CountSuffix(lists[step.run], s.workers[step.run].next, log.name);
    }
  }

  lemma AboutListed(lists: Lists, s: State, step: Step, log: Log)
    requires About(lists, s, step, log)
    ensures TimesListed(lists, log) > 0
  {
    CountSuffix(lists[step.run], s.workers[step.run].next, log.name);
  }

  lemma StepKeepsWorker(lists: Lists, s: State, step: Step, run: string)
    requires WorkerInv(lists, s, run)
    ensures WorkerInv(lists, Do(lists, s, step), run)
  {
    hide Remaining, Count;
    if !step.Restart? && step.run != run && Working(lists, s, run) {
      OtherLogs(lists, s, step, Current(lists, s, run));
    }
  }

  lemma StepKeepsLog(lists: Lists, s: State, step: Step, log: Log, start: (Forms, Forms))
    requires WorkerInv(lists, s, log.run) && LogInv(lists, s, log, start)
    ensures LogInv(lists, Do(lists, s, step), log, start)
  {
    if !About(lists, s, step, log) {
      OtherLogs(lists, s, step, log);
      if step.Restart? { MoreAfterRestart(lists, s, log); }
    } else {
      CountSuffix(lists[log.run], s.workers[log.run].next, log.name);
    }
  }

  lemma MoreAfterRestart(lists: Lists, s: State, log: Log)
    ensures Remaining(lists, s, log) <= Remaining(lists, Do(lists, s, Restart), log) == TimesListed(lists, log)
  {
    if log.run in lists {
      assert lists[log.run][0..] == lists[log.run];
      if log.run in s.workers && s.workers[log.run].next <= |lists[log.run]| {
        CountSuffix(lists[log.run], s.workers[log.run].next, log.name);
      }
    }
  }

  lemma {:induction false} RunKeepsWorker(lists: Lists, from: Store, to: Store, steps: seq<Step>, run: string)
    ensures WorkerInv(lists, Run(lists, Start(lists, from, to), steps), run)
    decreases |steps|
  {
    hide Do, Working;
    if steps != [] {
      RunKeepsWorker(lists, from, to, steps[..|steps| - 1], run);
      StepKeepsWorker(lists, Run(lists, Start(lists, from, to), steps[..|steps| - 1]), steps[|steps| - 1], run);
    }
  }

  lemma {:induction false} RunKeepsLog(lists: Lists, from: Store, to: Store, steps: seq<Step>, log: Log)
    requires Movable(lists, from, log)
    ensures LogInv(lists, Run(lists, Start(lists, from, to), steps), log, (FormsOf(from, log), FormsOf(to, log)))
    decreases |steps|
  {
    hide Do, WorkerInv, Working;
    if steps == [] {
      MoreAfterRestart(lists, Start(lists, from, to), log);
    } else {
      RunKeepsLog(lists, from, to, steps[..|steps| - 1], log);
      RunKeepsWorker(lists, from, to, steps[..|steps| - 1], log.run);
      StepKeepsLog(lists, Run(lists, Start(lists, from, to), steps[..|steps| - 1]), steps[|steps| - 1], log,
        (FormsOf(from, log), FormsOf(to, log)));
    }
  }

  /** Logs that are not listed stay as they are, in both stores. */
  lemma {:induction false} UnlistedUntouched(lists: Lists, from: Store, to: Store, steps: seq<Step>, log: Log)
    requires TimesListed(lists, log) == 0
    ensures Both(Run(lists, Start(lists, from, to), steps), log) == (FormsOf(from, log), FormsOf(to, log))
    decreases |steps|
  {
    hide Do, About, FormsOf, TimesListed;
    if steps != [] {
      var s := Run(lists, Start(lists, from, to), steps[..|steps| - 1]);
      UnlistedUntouched(lists, from, to, steps[..|steps| - 1], log);
      if About(lists, s, steps[|steps| - 1], log) { AboutListed(lists, s, steps[|steps| - 1], log); }
      OtherLogs(lists, s, steps[|steps| - 1], log);
    }
  }

  // ----- The guarantees

  /** The log can still be read from one of the stores. */
  ghost predicate Kept(from: Store, s: State, log: Log) {
    var content := Read(FormsOf(from, log));
    content.Some? ==> Read(FormsOf(s.from, log)) == content || Read(FormsOf(s.to, log)) == content
  }

  /** Whatever the interleaving, and however many attempts are stopped and restarted, the
      log is kept at every point, and is in the same forms whenever its run is finished. */
  ghost predicate Reliable(lists: Lists, from: Store, to: Store, log: Log)
    requires log.run in lists
  {
    && (forall steps: seq<Step> :: Kept(from, Run(lists, Start(lists, from, to), steps), log))
    && forall steps: seq<Step>, others: seq<Step> ::
        var s, o := Run(lists, Start(lists, from, to), steps), Run(lists, Start(lists, from, to), others);
        Finished(lists, s, log.run) && Finished(lists, o, log.run) ==> Both(s, log) == Both(o, log)
  }

  /** A movable log is kept, and once its run is finished it is in the target store only. */
  lemma MovableIsKept(lists: Lists, from: Store, to: Store, steps: seq<Step>, log: Log)
    requires log.run in lists && Movable(lists, from, log)
    ensures Kept(from, Run(lists, Start(lists, from, to), steps), log)
    ensures
      var s := Run(lists, Start(lists, from, to), steps);
      Finished(lists, s, log.run) ==> Both(s, log) == Settled(FormsOf(from, log), FormsOf(to, log))
  {
    hide Run;
    RunKeepsLog(lists, from, to, steps, log);
  }

  // ----- Runs of steps that finish, and the exact condition

  /** What looking at a log once does to its forms. */
  function Pass(forms: (Forms, Forms)): (Forms, Forms) {
    if Read(forms.0).None? then forms else (WithoutFirst(forms.0), forms.1.(gz := Read(forms.0)))
  }

  function Passes(forms: (Forms, Forms), n: nat): (Forms, Forms)
    decreases n
  {
    if n == 0 then forms else Passes(Pass(forms), n - 1)
  }

  /** With as many looks as there are forms, nothing is left, and the plain form, which
      goes last, is what the target ends up with. */
  lemma {:induction false} PassesSettle(f: Forms, t: Forms, n: nat)
    requires Number(f) <= n
    ensures Passes((f, t), n) == (NOWHERE, if f.plain.Some? then t.(gz := f.plain) else if f.gz.Some? then t.(gz := f.gz) else t)
    decreases n
  {
    if n > 0 {
      var p := Pass((f, t));
      PassesSettle(p.0, p.1, n - 1);
    }
  }

  lemma {:induction false} RunAppend(lists: Lists, s: State, a: seq<Step>, b: seq<Step>)
    ensures Run(lists, s, a + b) == Run(lists, Run(lists, s, a), b)
    decreases |b|
  {
    hide Do;
    if b == [] {
      assert a + b == a;
    } else {
      assert (a + b)[..|a + b| - 1] == a + b[..|b| - 1];
      RunAppend(lists, s, a, b[..|b| - 1]);
    }
  }

  lemma RunOne(lists: Lists, s: State, step: Step)
    ensures Run(lists, s, [step]) == Do(lists, s, step)
  {
    hide Do;
    assert Run(lists, s, [step][..0]) == s;
  }

  predicate IdleAt(lists: Lists, s: State, run: string, i: nat) {
    run in lists && run in s.workers && s.workers[run] == Worker(i, Idle) && i <= |lists[run]|
  }

  /** The steps that deal with the next log. */
  lemma ProcessOne(lists: Lists, s: State, run: string, i: nat, log: Log) returns (steps: seq<Step>)
    requires IdleAt(lists, s, run, i) && i < |lists[run]| && log.run == run
    ensures IdleAt(lists, Run(lists, s, steps), run, i + 1)
    ensures Both(Run(lists, s, steps), log) == if lists[run][i] == log.name then Pass(Both(s, log)) else Both(s, log)
  {
    var fetched := Do(lists, s, Fetch(run));
    RunOne(lists, s, Fetch(run));
    steps := [Fetch(run)];
    if Read(FormsOf(s.from, Current(lists, s, run))).Some? {
      var imported := Do(lists, fetched, Import(run));
      RunOne(lists, fetched, Import(run));
      RunAppend(lists, s, [Fetch(run)], [Import(run)]);
      RunOne(lists, imported, Delete(run));
      RunAppend(lists, s, [Fetch(run)] + [Import(run)], [Delete(run)]);
      steps := [Fetch(run)] + [Import(run)] + [Delete(run)];
    }
  }

  lemma {:induction false} FinishRun(lists: Lists, s: State, run: string, i: nat, log: Log) returns (steps: seq<Step>)
    requires IdleAt(lists, s, run, i) && log.run == run
    ensures Finished(lists, Run(lists, s, steps), run)
    ensures Both(Run(lists, s, steps), log) == Passes(Both(s, log), Count(lists[run][i..], log.name))
    decreases |lists[run]| - i
  {
    hide Run, Pass, FormsOf;
    if i == |lists[run]| {
      steps := [];
      assert Run(lists, s, []) == s by { hide *; NoSteps(lists, s); }
    } else {
      var one := ProcessOne(lists, s, run, i, log);
      var rest := FinishRun(lists, Run(lists, s, one), run, i + 1, log);
      RunAppend(lists, s, one, rest);
      CountSuffix(lists[run], i, log.name);
      steps := one + rest;
    }
  }

  lemma NoSteps(lists: Lists, s: State)
    ensures Run(lists, s, []) == s
  {
  }

  /** A log that is listed but not movable is lost, or what becomes of it depends on
      whether there was a second attempt. */
  lemma UnmovableIsUnreliable(lists: Lists, from: Store, to: Store, log: Log)
    requires TimesListed(lists, log) > 0 && !Movable(lists, from, log)
    ensures !Reliable(lists, from, to, log)
  {
    hide Run, Do, FormsOf;
    var k := TimesListed(lists, log);
    var start := Start(lists, from, to);
    assert lists[log.run][0..] == lists[log.run];
    var first := FinishRun(lists, start, log.run, 0, log);
    var s := Run(lists, start, first);
    if k >= 2 {
      PassesSettle(FormsOf(from, log), FormsOf(to, log), k);
      assert !Kept(from, s, log);
    } else {
      assert Do(lists, s, Restart) == s.(workers := Workers(lists)) by { hide *; RestartIs(lists, s); }
      RunOne(lists, s, Restart);
      RunAppend(lists, start, first, [Restart]);
      var again := Run(lists, start, first + [Restart]);
      var second := FinishRun(lists, again, log.run, 0, log);
      RunAppend(lists, start, first + [Restart], second);
      var o := Run(lists, start, first + [Restart] + second);
      assert Both(s, log) == Pass(Both(start, log)) by { assert Passes(Pass(Both(start, log)), 0) == Pass(Both(start, log)); }
      assert Both(o, log) == Pass(Both(s, log)) by { assert Passes(Pass(Both(s, log)), 0) == Pass(Both(s, log)); }
      assert Both(s, log).0 != Both(o, log).0;
    }
  }

  lemma RestartIs(lists: Lists, s: State)
    ensures Do(lists, s, Restart) == s.(workers := Workers(lists))
  {
  }

  /** Migration is reliable for a listed log if and only if its forms in the source store
      agree and are not more than the times it is listed. */
  lemma ReliableIffMovable(lists: Lists, from: Store, to: Store, log: Log)
    requires TimesListed(lists, log) > 0
    ensures Reliable(lists, from, to, log) <==> Movable(lists, from, log)
  {
    hide Run, FormsOf, Movable;
    if Movable(lists, from, log) {
      forall steps: seq<Step> ensures Kept(from, Run(lists, Start(lists, from, to), steps), log) {
        MovableIsKept(lists, from, to, steps, log);
      }
      forall steps: seq<Step>, others: seq<Step> |
          Finished(lists, Run(lists, Start(lists, from, to), steps), log.run) && Finished(lists, Run(lists, Start(lists, from, to), others), log.run)
        ensures Both(Run(lists, Start(lists, from, to), steps), log) == Both(Run(lists, Start(lists, from, to), others), log) {
        MovableIsKept(lists, from, to, steps, log);
        MovableIsKept(lists, from, to, others, log);
      }
    } else {
      UnmovableIsUnreliable(lists, from, to, log);
    }
  }

  // ----- In terms of the stored objects

  /** All forms of the log that are stored have this content, and there is one. */
  ghost predicate HoldsOnly(store: Store, log: Log, content: Bytes) {
    && (Slot(log, true) in store || Slot(log, false) in store)
    && (Slot(log, true) in store ==> store[Slot(log, true)] == content)
    && (Slot(log, false) in store ==> store[Slot(log, false)] == content)
  }

  /** It is listed, and twice if it is stored in both forms. */
  ghost predicate ListedEnough(store: Store, names: seq<string>, log: Log) {
    && log.name in names
    && (Slot(log, true) in store && Slot(log, false) in store ==>
         exists i, j :: 0 <= i < j < |names| && names[i] == log.name && names[j] == log.name)
  }

  ghost predicate CanRead(store: Store, log: Log, content: Bytes) {
    if Slot(log, true) in store then store[Slot(log, true)] == content
    else Slot(log, false) in store && store[Slot(log, false)] == content
  }

  /** The log is compressed in the target, gone from the source, and no other form of it
      has come or gone in the target. */
  ghost predicate IsMoved(from: Store, to: Store, toBefore: Store, log: Log, content: Bytes) {
    && Slot(log, true) !in from && Slot(log, false) !in from
    && Slot(log, true) in to && to[Slot(log, true)] == content
    && (Slot(log, false) in to <==> Slot(log, false) in toBefore)
    && (Slot(log, false) in to ==> to[Slot(log, false)] == toBefore[Slot(log, false)])
  }

  lemma {:induction false} CountsOne(names: seq<string>, name: string)
    requires name in names
    ensures Count(names, name) >= 1
  {
    if names[0] != name { CountsOne(names[1..], name); }
  }

  lemma CountsTwo(names: seq<string>, name: string, i: nat, j: nat)
    requires i < j < |names| && names[i] == name && names[j] == name
    ensures Count(names, name) >= 2
  {
    CountSuffix(names, i, name);
    assert names[i + 1..][j - i - 1] == name;
    CountsOne(names[i + 1..], name);
  }

  /** At every point of every interleaving the log can be read from one of the stores, and
      when its run is finished it is moved. */
  lemma LogIsMoved(lists: Lists, from: Store, to: Store, steps: seq<Step>, log: Log, content: Bytes)
    requires log.run in lists && HoldsOnly(from, log, content) && ListedEnough(from, lists[log.run], log)
    ensures
      var s := Run(lists, Start(lists, from, to), steps);
      && (CanRead(s.from, log, content) || CanRead(s.to, log, content))
      && (Finished(lists, s, log.run) ==> IsMoved(s.from, s.to, to, log, content))
  {
    hide Run, Count;
    CountsOne(lists[log.run], log.name);
    if Slot(log, true) in from && Slot(log, false) in from {
      var i, j :| 0 <= i < j < |lists[log.run]| && lists[log.run][i] == log.name && lists[log.run][j] == log.name;
      CountsTwo(lists[log.run], log.name, i, j);
    }
    MovableIsKept(lists, from, to, steps, log);
  }

  // ----- The migration of one run

  /** A store; any operation can fail, and one that fails may have taken effect. */
  class LogStore {
    var objects: Store
    /** Whether an operation of the store has failed. */
    ghost var failed: bool

    constructor (objects: Store)
      ensures this.objects == objects && !failed
    {
      this.objects, failed := objects, false;
    }

    /** None on an error, and a missing log is not an error. */
    method GetLog(log: Log) returns (content: Option<Option<Bytes>>)
      modifies `failed
      ensures content.None? ==> failed
      ensures content.Some? ==> content.value == Read(FormsOf(objects, log))
      ensures content.Some? && Slot(log, true) in objects ==> content.value == Some(objects[Slot(log, true)])
      ensures content.Some? && Slot(log, true) !in objects && Slot(log, false) in objects ==> content.value == Some(objects[Slot(log, false)])
      ensures content.Some? && Slot(log, true) !in objects && Slot(log, false) !in objects ==> content.value == None
    {
      if * {
        failed := true;
        return None;
      }
      if Slot(log, true) in objects {
        return Some(Some(objects[Slot(log, true)]));
      }
      content := Some(Lookup(objects, Slot(log, false)));
    }

    method ImportLog(log: Log, content: Bytes) returns (ok: bool)
      modifies this
      ensures !ok ==> failed
      ensures objects == old(objects)[Slot(log, true) := content] || (!ok && objects == old(objects))
    {
      if * {
        failed := true;
        return false;
      }
      objects := objects[Slot(log, true) := content];
      ok := *;
      failed := failed || !ok;
    }

    /** Deleting a log that is in neither form is an error too. */
    method DeleteLog(log: Log) returns (ok: bool)
      modifies this
      ensures !ok ==> failed || FormsOf(old(objects), log) == NOWHERE
      ensures var f := FormsOf(old(objects), log);
        (f != NOWHERE && objects == old(objects) - {Slot(log, f.gz.Some?)}) || (!ok && objects == old(objects))
      ensures ok ==>
        if Slot(log, true) in old(objects) then objects == old(objects) - {Slot(log, true)}
        else Slot(log, false) in old(objects) && objects == old(objects) - {Slot(log, false)}
    {
      for form := 0 to 2
        invariant objects == old(objects)
        invariant form >= 1 ==> Slot(log, true) !in objects
        invariant form >= 2 ==> Slot(log, false) !in objects
      {
        if * {
          failed := true;
          return false;
        }
        if Slot(log, form == 0) in objects {
          if * {
            failed := true;
            return false;
          }
          objects := objects - {Slot(log, form == 0)};
          ok := *;
          failed := failed || !ok;
          return;
        }
      }
      ok := false;
    }
  }

  ghost predicate StoresOf(s: State, from: Store, to: Store) {
    s.from == from && s.to == to
  }

  /** Only listed logs of the run have changed. */
  ghost predicate OnlyListed(run: string, names: seq<string>, before: Store, after: Store) {
    forall slot: Slot :: slot.log.run != run || slot.log.name !in names ==>
      (slot in after <==> slot in before) && (slot in after ==> after[slot] == before[slot])
  }

  lemma NothingChanged(run: string, names: seq<string>, store: Store)
    ensures OnlyListed(run, names, store, store)
  {
  }

  lemma ListedChanged(run: string, names: seq<string>, i: nat, before: Store, now: Store, after: Store)
    requires OnlyListed(run, names, before, now) && i < |names|
    requires forall slot: Slot :: slot.log != Log(run, names[i]) ==> (slot in after <==> slot in now) && (slot in after ==> after[slot] == now[slot])
    ensures OnlyListed(run, names, before, after)
  {
    forall slot: Slot | slot.log.run != run || slot.log.name !in names
      ensures (slot in after <==> slot in before) && (slot in after ==> after[slot] == before[slot])
    {
      assert slot.log != Log(run, names[i]) && (slot in now <==> slot in before);
    }
  }

  /** Whenever it stops, the stores are as after some steps of the state machine; when it
      is done, these finish the run; and it is done unless an operation failed. */
  method MigrateRunLogs(from: LogStore, to: LogStore, run: string, names: seq<string>, ghost lists: Lists)
    returns (ok: bool, ghost steps: seq<Step>)
    requires from != to && run in lists && lists[run] == names
    modifies from, to
    ensures StoresOf(Run(lists, Start(lists, old(from.objects), old(to.objects)), steps), from.objects, to.objects)
    ensures ok ==> Finished(lists, Run(lists, Start(lists, old(from.objects), old(to.objects)), steps), run)
    ensures !ok ==> from.failed || to.failed
    ensures forall name, content ::
      HoldsOnly(old(from.objects), Log(run, name), content) && ListedEnough(old(from.objects), names, Log(run, name)) ==>
        && (CanRead(from.objects, Log(run, name), content) || CanRead(to.objects, Log(run, name), content))
        && (ok ==> IsMoved(from.objects, to.objects, old(to.objects), Log(run, name), content))
    ensures OnlyListed(run, names, old(from.objects), from.objects) && OnlyListed(run, names, old(to.objects), to.objects)
  {
    ok, steps := MigrateLogs(from, to, run, names, lists);
    forall name, content |
        HoldsOnly(old(from.objects), Log(run, name), content) && ListedEnough(old(from.objects), names, Log(run, name))
      ensures CanRead(from.objects, Log(run, name), content) || CanRead(to.objects, Log(run, name), content)
      ensures ok ==> IsMoved(from.objects, to.objects, old(to.objects), Log(run, name), content)
    {
      hide Run, HoldsOnly, ListedEnough, CanRead, IsMoved;
      LogIsMoved(lists, old(from.objects), old(to.objects), steps, Log(run, name), content);
    }
  }

  /** The loop over the logs. */
  method MigrateLogs(from: LogStore, to: LogStore, run: string, names: seq<string>, ghost lists: Lists)
    returns (ok: bool, ghost steps: seq<Step>)
    requires from != to && run in lists && lists[run] == names
    modifies from, to
    ensures StoresOf(Run(lists, Start(lists, old(from.objects), old(to.objects)), steps), from.objects, to.objects)
    ensures ok ==> Finished(lists, Run(lists, Start(lists, old(from.objects), old(to.objects)), steps), run)
    ensures !ok ==> from.failed || to.failed
    ensures OnlyListed(run, names, old(from.objects), from.objects) && OnlyListed(run, names, old(to.objects), to.objects)
  {
    hide Run, Do, FormsOf, OnlyListed;
    NothingChanged(run, names, from.objects);
    NothingChanged(run, names, to.objects);
    steps := [];
    ghost var start := Start(lists, from.objects, to.objects);
    assert Run(lists, start, []) == start by { hide *; NoSteps(lists, start); }
    for i := 0 to |names|
      invariant StoresOf(Run(lists, start, steps), from.objects, to.objects)
      invariant IdleAt(lists, Run(lists, start, steps), run, i)
      invariant OnlyListed(run, names, old(from.objects), from.objects) && OnlyListed(run, names, old(to.objects), to.objects)
    {
      var log := Log(run, names[i]);
      ghost var s := Run(lists, start, steps);
      var got := from.GetLog(log);
      if got.None? {
        return false, steps;
      }
      ghost var fetched := steps + [Fetch(run)];
      AfterFetch(lists, start, steps, run, i);
      if got.value.None? {
        steps := fetched;
        continue;
      }
      AfterImport(lists, start, fetched, run, i, got.value.value);
      ghost var target := to.objects;
      var imported := to.ImportLog(log, got.value.value);
      ListedChanged(run, names, i, old(to.objects), target, to.objects);
      if !imported {
        return false, if to.objects == s.to then steps else fetched + [Import(run)];
      }
      AfterDelete(lists, start, fetched + [Import(run)], run, i);
      ghost var source := from.objects;
      var deleted := from.DeleteLog(log);
      ListedChanged(run, names, i, old(from.objects), source, from.objects);
      if !deleted {
        return false, if from.objects == s.from then fetched + [Import(run)] else fetched + [Import(run)] + [Delete(run)];
      }
      steps := fetched + [Import(run)] + [Delete(run)];
    }
    ok := true;
  }

  lemma AfterFetch(lists: Lists, start: State, steps: seq<Step>, run: string, i: nat)
    requires IdleAt(lists, Run(lists, start, steps), run, i) && i < |lists[run]|
    ensures
      var s, t := Run(lists, start, steps), Run(lists, start, steps + [Fetch(run)]);
      var content := Read(FormsOf(s.from, Log(run, lists[run][i])));
      && StoresOf(t, s.from, s.to)
      && (content.None? ==> IdleAt(lists, t, run, i + 1))
      && (content.Some? ==> run in t.workers && t.workers[run] == Worker(i, Fetched(content.value)))
  {
    hide FormsOf;
    RunAppend(lists, start, steps, [Fetch(run)]);
    RunOne(lists, Run(lists, start, steps), Fetch(run));
  }

  lemma AfterImport(lists: Lists, start: State, steps: seq<Step>, run: string, i: nat, content: Bytes)
    requires run in lists && i < |lists[run]| && run in Run(lists, start, steps).workers
    requires Run(lists, start, steps).workers[run] == Worker(i, Fetched(content))
    ensures
      var s, t := Run(lists, start, steps), Run(lists, start, steps + [Import(run)]);
      && StoresOf(t, s.from, s.to[Slot(Log(run, lists[run][i]), true) := content])
      && run in t.workers && t.workers[run] == Worker(i, Imported)
  {
    hide FormsOf;
    RunAppend(lists, start, steps, [Import(run)]);
    RunOne(lists, Run(lists, start, steps), Import(run));
  }

  lemma AfterDelete(lists: Lists, start: State, steps: seq<Step>, run: string, i: nat)
    requires run in lists && i < |lists[run]| && run in Run(lists, start, steps).workers
    requires Run(lists, start, steps).workers[run] == Worker(i, Imported)
    ensures
      var s, t := Run(lists, start, steps), Run(lists, start, steps + [Delete(run)]);
      var log := Log(run, lists[run][i]);
      var f := FormsOf(s.from, log);
      f != NOWHERE ==> StoresOf(t, s.from - {Slot(log, f.gz.Some?)}, s.to) && IdleAt(lists, t, run, i + 1)
  {
    hide FormsOf;
    RunAppend(lists, start, steps, [Delete(run)]);
    RunOne(lists, Run(lists, start, steps), Delete(run));
  }
}
