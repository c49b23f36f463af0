/** Republish jobs as a protocol: the critical sections of triggers, generation tasks
    and cleanups, interleaved in any order.

    A trigger takes three separate steps (check, spawn, insert), with anything in
    between. A task records its result by repository name, and its handle counts as
    finished only some time later; it may also die, by abort or panic, before it
    records, between taking its entry out and recording it, or after. */
module JobProtocol {
  import opened Common

  datatype Status = Pending | Running | Completed | Failed | Cancelled

  datatype JobInfo = JobInfo(id: nat, repository: string, campaign: Option<string>, status: Status, error: Option<string>) {

    function Start(): JobInfo {
      this.(status := Running)
    }

    function Complete(): JobInfo {
      this.(status := Completed)
    }

    function Fail(message: string): JobInfo {
      this.(status := Failed, error := Some(message))
    }
  }

  function NewJob(id: nat, repository: string, campaign: Option<string>): JobInfo {
    JobInfo(id, repository, campaign, Pending, None)
  }

  /** `Live` until the result is recorded; `Done` when the handle is finished. */
  datatype Phase = Live | Recorded | Done

  datatype Task = Task(repository: string, phase: Phase)

  datatype Trigger = Checked(repository: string, campaign: Option<string>) | Spawned(info: JobInfo) {
    function Repository(): string {
      match this
      case Checked(r, _) => r
      case Spawned(info) => info.repository
    }
  }

  /** `active` and `history` are the manager's; tasks are known by their job's id. */
  datatype State = State(
    active: map<string, JobInfo>,
    history: seq<JobInfo>,
    tasks: map<nat, Task>,
    triggers: map<nat, Trigger>,
    nextId: nat)

  const HISTORY_LIMIT: nat := 100

  const INITIAL: State := State(map[], [], map[], map[], 0)

  datatype Step =
    | TriggerCheck(thread: nat, repository: string, campaign: Option<string>)
    | TriggerSpawn(thread: nat)
    | TriggerInsert(thread: nat)
    | TaskRecord(id: nat, error: Option<string>)
    | TaskReturn(id: nat)
    | TaskDies(id: nat)
    | TaskDiesRecording(id: nat)
    | Cancel(id: nat)
    | Cleanup(order: seq<string>)

  predicate Unfinished(s: State, id: nat) {
    id in s.tasks && !s.tasks[id].phase.Done?
  }

  /** A job that is still running answers the trigger. */
  predicate AnswersTrigger(s: State, repository: string) {
    repository in s.active && Unfinished(s, s.active[repository].id)
  }

  ghost predicate Enabled(s: State, step: Step) {
    match step
    case TriggerCheck(thread, _, _) => thread !in s.triggers
    case TriggerSpawn(thread) => thread in s.triggers && s.triggers[thread].Checked?
    case TriggerInsert(thread) => thread in s.triggers && s.triggers[thread].Spawned?
    case TaskRecord(id, _) => id in s.tasks && s.tasks[id].phase.Live?
    case TaskReturn(id) => id in s.tasks && s.tasks[id].phase.Recorded?
    case TaskDies(id) => Unfinished(s, id)
    case TaskDiesRecording(id) => id in s.tasks && s.tasks[id].phase.Live?
    case Cancel(id) => true
    case Cleanup(order) => NoDup(order) && forall r :: r in order <==> r in s.active && !Unfinished(s, s.active[r].id)
  }

  function SetPhase(s: State, id: nat, phase: Phase): State
    requires id in s.tasks
  {
    s.(tasks := s.tasks[id := s.tasks[id].(phase := phase)])
  }

  /** Append to the history, dropping the oldest job when there are too many. */
  function Push(history: seq<JobInfo>, info: JobInfo): seq<JobInfo> {
    var h := history + [info];
    if |h| > HISTORY_LIMIT then h[1..] else h
  }

  /** Take the entry of a repository out of `active`, whatever job it is for. */
  function Remove(s: State, repository: string): State {
    s.(active := s.active - {repository})
  }

  function Record(s: State, repository: string, error: Option<string>): State {
    if repository in s.active then
      var info := s.active[repository];
      Remove(s, repository).(history := Push(s.history, if error.None? then info.Complete() else info.Fail(error.value)))
    else s
  }

  function CleanUp(s: State, repository: string): State {
    if repository in s.active then
      var info := s.active[repository];
      Remove(s, repository).(history := Push(s.history, if info.status.Running? then info.Complete() else info))
    else s
  }

  function CleanUpAll(s: State, order: seq<string>): State
    decreases |order|
  {
    if order == [] then s else CleanUp(CleanUpAll(s, order[..|order| - 1]), order[|order| - 1])
  }

  function Do(s: State, step: Step): State
    requires Enabled(s, step)
  {
    match step
    case TriggerCheck(thread, repository, campaign) =>
      if AnswersTrigger(s, repository) then s else s.(triggers := s.triggers[thread := Checked(repository, campaign)])
    case TriggerSpawn(thread) =>
      var t := s.triggers[thread];
      s.(triggers := s.triggers[thread := Spawned(NewJob(s.nextId, t.repository, t.campaign).Start())],
         tasks := s.tasks[s.nextId := Task(t.repository, Live)],
         nextId := s.nextId + 1)
    case TriggerInsert(thread) =>
      var info := s.triggers[thread].info;
      s.(active := s.active[info.repository := info], triggers := s.triggers - {thread})
    case TaskRecord(id, error) => SetPhase(Record(s, s.tasks[id].repository, error), id, Recorded)
    case TaskReturn(id) => SetPhase(s, id, Done)
    case TaskDies(id) => SetPhase(s, id, Done)
    case TaskDiesRecording(id) => SetPhase(Remove(s, s.tasks[id].repository), id, Done)
    case Cancel(id) => s
    case Cleanup(order) => CleanUpAll(s, order)
  }

  /** A trigger starts only when no other trigger of its repository is under way. */
  ghost predicate Serial(s: State, step: Step) {
    step.TriggerCheck? ==> forall th :: th in s.triggers ==> s.triggers[th].Repository() != step.repository
  }

  /** The states of a run. */
  ghost predicate IsRun(run: seq<State>, steps: seq<Step>, serial: bool) {
    && |run| == |steps| + 1
    && run[0] == INITIAL
    && forall k :: 0 <= k < |steps| ==>
        Enabled(run[k], steps[k]) && (serial ==> Serial(run[k], steps[k])) && run[k + 1] == Do(run[k], steps[k])
  }

  // ----- Bookkeeping, under every interleaving

  ghost predicate Bookkeeping(s: State) {
    && InfosOk(s)
    && HistoryOk(s)
    && IdsOnce(s)
  }

  ghost predicate InfosOk(s: State) {
    && (forall r :: r in s.active ==>
        s.active[r].repository == r && s.active[r].status.Running? && s.active[r].id < s.nextId
        && s.active[r].id in s.tasks && s.tasks[s.active[r].id].repository == r)
    && (forall th :: th in s.triggers && s.triggers[th].Spawned? ==>
        var info := s.triggers[th].info;
        info.status.Running? && info.id < s.nextId && info.id in s.tasks && s.tasks[info.id].repository == info.repository)
    && forall id :: id in s.tasks ==> id < s.nextId
  }

  ghost predicate HistoryOk(s: State) {
    && |s.history| <= HISTORY_LIMIT
    && forall k :: 0 <= k < |s.history| ==>
        (s.history[k].status.Completed? || s.history[k].status.Failed?) && s.history[k].id < s.nextId
  }

  /** No job id occurs twice among active, history, and what is about to be inserted. */
  ghost predicate IdsOnce(s: State) {
    && (forall r, q :: r in s.active && q in s.active && r != q ==> s.active[r].id != s.active[q].id)
    && (forall j, k :: 0 <= j < k < |s.history| ==> s.history[j].id != s.history[k].id)
    && (forall r, k :: r in s.active && 0 <= k < |s.history| ==> s.active[r].id != s.history[k].id)
    && (forall th, r :: IsSpawned(s, th) && r in s.active ==> s.triggers[th].info.id != s.active[r].id)
    && (forall th, k :: IsSpawned(s, th) && 0 <= k < |s.history| ==> s.triggers[th].info.id != s.history[k].id)
    && forall th, ot :: IsSpawned(s, th) && IsSpawned(s, ot) && th != ot ==> s.triggers[th].info.id != s.triggers[ot].info.id
  }

  ghost predicate IsSpawned(s: State, th: nat) {
    th in s.triggers && s.triggers[th].Spawned?
  }

  lemma MoveKeepsIds(s: State, repository: string, info: JobInfo)
    requires IdsOnce(s) && repository in s.active && info.id == s.active[repository].id
    ensures IdsOnce(Remove(s, repository).(history := s.history + [info]))
  {
    var t := Remove(s, repository).(history := s.history + [info]);
    assert forall th :: IsSpawned(t, th) ==> IsSpawned(s, th);
  }

  lemma TrimKeepsIds(s: State)
    requires IdsOnce(s) && s.history != []
    ensures IdsOnce(s.(history := s.history[1..]))
  {
    var t := s.(history := s.history[1..]);
    assert forall th :: IsSpawned(t, th) ==> IsSpawned(s, th);
    assert forall k :: 0 <= k < |t.history| ==> t.history[k] == s.history[k + 1];
  }

  /** Moving the entry of a repository to the history, with a finished status. */
  lemma MoveKeepsBookkeeping(s: State, repository: string, info: JobInfo)
    requires Bookkeeping(s) && repository in s.active
    requires info.id == s.active[repository].id && (info.status.Completed? || info.status.Failed?)
    ensures Bookkeeping(Remove(s, repository).(history := Push(s.history, info)))
  {
    var t, h := Remove(s, repository).(history := Push(s.history, info)), s.history + [info];
    assert IdsOnce(t) by {
      hide InfosOk, HistoryOk;
      MoveKeepsIds(s, repository, info);
      if |h| > HISTORY_LIMIT { TrimKeepsIds(Remove(s, repository).(history := h)); }
    }
    assert InfosOk(t) by { hide IdsOnce, HistoryOk; }
    assert HistoryOk(t) by { hide IdsOnce; }
  }

  lemma RemoveKeepsBookkeeping(s: State, repository: string)
    requires Bookkeeping(s)
    ensures Bookkeeping(Remove(s, repository))
  {
    var t := Remove(s, repository);
    assert forall th :: IsSpawned(t, th) ==> IsSpawned(s, th);
  }

  lemma PhaseKeepsBookkeeping(s: State, id: nat, phase: Phase)
    requires Bookkeeping(s) && id in s.tasks
    ensures Bookkeeping(SetPhase(s, id, phase))
  {
    var t := SetPhase(s, id, phase);
    assert forall th :: IsSpawned(t, th) ==> IsSpawned(s, th);
  }

  lemma {:induction false} CleanupKeepsBookkeeping(s: State, order: seq<string>)
    requires Bookkeeping(s)
    ensures Bookkeeping(CleanUpAll(s, order))
    decreases |order|
  {
    hide Bookkeeping, Push, Remove;
    if order != [] {
      var before, r := CleanUpAll(s, order[..|order| - 1]), order[|order| - 1];
      CleanupKeepsBookkeeping(s, order[..|order| - 1]);
      if r in before.active {
        ActiveIsRunning(before, r);
        MoveKeepsBookkeeping(before, r, before.active[r].Complete());
      }
    }
  }

  lemma ActiveIsRunning(s: State, repository: string)
    requires Bookkeeping(s) && repository in s.active
    ensures s.active[repository].status.Running?
  {
  }

  lemma RecordKeepsBookkeeping(s: State, repository: string, error: Option<string>)
    requires Bookkeeping(s)
    ensures Bookkeeping(Record(s, repository, error))
  {
    hide Bookkeeping, Push, Remove;
    if repository in s.active {
      var info := s.active[repository];
      MoveKeepsBookkeeping(s, repository, if error.None? then info.Complete() else info.Fail(error.value));
    }
  }

  lemma CheckKeepsBookkeeping(s: State, step: Step)
    requires Bookkeeping(s) && Enabled(s, step) && step.TriggerCheck?
    ensures Bookkeeping(Do(s, step))
  {
    var t := Do(s, step);
    assert forall th :: IsSpawned(t, th) ==> IsSpawned(s, th) && t.triggers[th] == s.triggers[th];
  }

  lemma SpawnKeepsBookkeeping(s: State, step: Step)
    requires Bookkeeping(s) && Enabled(s, step) && step.TriggerSpawn?
    ensures Bookkeeping(Do(s, step))
  {
    var t, thread := Do(s, step), step.thread;
    assert forall th :: IsSpawned(t, th) && th != thread ==> IsSpawned(s, th) && t.triggers[th] == s.triggers[th];
    assert t.triggers[thread].info.id == s.nextId;
  }

  lemma InsertKeepsBookkeeping(s: State, step: Step)
    requires Bookkeeping(s) && Enabled(s, step) && step.TriggerInsert?
    ensures Bookkeeping(Do(s, step))
  {
    var t, thread := Do(s, step), step.thread;
    assert IsSpawned(s, thread);
    assert forall th :: IsSpawned(t, th) ==> IsSpawned(s, th) && t.triggers[th] == s.triggers[th] && th != thread;
    assert InfosOk(t) by { hide IdsOnce; }
    assert IdsOnce(t) by { hide InfosOk; }
  }

  lemma StepKeepsBookkeeping(s: State, step: Step)
    requires Bookkeeping(s) && Enabled(s, step)
    ensures Bookkeeping(Do(s, step))
  {
    hide Bookkeeping;
    match step {
      case TriggerCheck(_, _, _) => CheckKeepsBookkeeping(s, step);
      case TriggerSpawn(_) => SpawnKeepsBookkeeping(s, step);
      case TriggerInsert(_) => InsertKeepsBookkeeping(s, step);
      case TaskRecord(id, error) =>
        RecordKeepsBookkeeping(s, s.tasks[id].repository, error);
        PhaseKeepsBookkeeping(Record(s, s.tasks[id].repository, error), id, Recorded);
      case TaskReturn(id) => PhaseKeepsBookkeeping(s, id, Done);
      case TaskDies(id) => PhaseKeepsBookkeeping(s, id, Done);
      case TaskDiesRecording(id) =>
        RemoveKeepsBookkeeping(s, s.tasks[id].repository);
        PhaseKeepsBookkeeping(Remove(s, s.tasks[id].repository), id, Done);
      case Cancel(id) =>
      case Cleanup(order) => CleanupKeepsBookkeeping(s, order);
    }
  }

  /** In every reachable state, however the steps interleave: no job id occurs twice, the
      history has at most 100 jobs, and all of them have completed or failed. */
  lemma {:induction false} BookkeepingAlways(run: seq<State>, steps: seq<Step>, serial: bool, k: nat)
    requires IsRun(run, steps, serial) && k < |run|
    ensures Bookkeeping(run[k])
  {
    if k > 0 {
      BookkeepingAlways(run, steps, serial, k - 1);
      StepKeepsBookkeeping(run[k - 1], steps[k - 1]);
    }
  }

  lemma FreshId(s: State)
    requires Bookkeeping(s)
    ensures s.nextId !in s.tasks
  {
  }

  // ----- Statistics

  function Count(history: seq<JobInfo>, status: Status): nat
    decreases |history|
  {
    if history == [] then 0
    else Count(history[..|history| - 1], status) + if history[|history| - 1].status == status then 1 else 0
  }

  lemma {:induction false} CompletedAndFailed(history: seq<JobInfo>)
    requires forall k :: 0 <= k < |history| ==> history[k].status.Completed? || history[k].status.Failed?
    ensures Count(history, Completed) + Count(history, Failed) == |history|
    decreases |history|
  {
    if history != [] { CompletedAndFailed(history[..|history| - 1]); }
  }

  lemma HistoryFinished(s: State)
    requires Bookkeeping(s)
    ensures |s.history| <= HISTORY_LIMIT && forall k :: 0 <= k < |s.history| ==> s.history[k].status.Completed? || s.history[k].status.Failed?
  {
  }

  /** In every reachable state the statistics add up. */
  lemma StatisticsAddUp(run: seq<State>, steps: seq<Step>, serial: bool, k: nat)
    requires IsRun(run, steps, serial) && k < |run|
    ensures Count(run[k].history, Completed) + Count(run[k].history, Failed) == |run[k].history| <= HISTORY_LIMIT
  {
    BookkeepingAlways(run, steps, serial, k);
    CompletedAndFailed(run[k].history);
  }

  function WithStatus(history: seq<JobInfo>, status: Status): set<nat> {
    set k: nat | k < |history| && history[k].status == status
  }

  /** The counter of a status is the number of jobs that have it. */
  lemma {:induction false} CountIs(history: seq<JobInfo>, status: Status)
    ensures Count(history, status) == |WithStatus(history, status)|
    decreases |history|
  {
    if history != [] {
      var n := |history| - 1;
      CountIs(history[..n], status);
      OneMoreWith(history, status);
    }
  }

  lemma OneMoreWith(history: seq<JobInfo>, status: Status)
    requires history != []
    ensures
      var n := |history| - 1;
      WithStatus(history, status) == WithStatus(history[..n], status) + (if history[n].status == status then {n} else {})
      && n !in WithStatus(history[..n], status)
  {
  }

  // ----- Where the history comes from

  /** Step `j` took the job out of the active ones: its task recorded a result, which says
      what the status is, or a cleanup found its handle finished. */
  ghost predicate MovedBy(run: seq<State>, steps: seq<Step>, j: nat, info: JobInfo) {
    && j < |steps| && j < |run|
    && if steps[j].TaskRecord? then
         && steps[j].id in run[j].tasks
         && WasActive(run[j], run[j].tasks[steps[j].id].repository, info)
         && match steps[j].error
            case None => info.status == Completed && info.error == None
            case Some(message) => info.status == Failed && info.error == Some(message)
       else
         steps[j].Cleanup? && info.status == Completed && info.error == None && exists r :: r in steps[j].order && WasActive(run[j], r, info)
  }

  ghost predicate WasActive(s: State, r: string, info: JobInfo) {
    r in s.active && s.active[r].id == info.id && s.active[r].repository == info.repository && s.active[r].campaign == info.campaign
  }

  ghost predicate Explained(run: seq<State>, steps: seq<Step>, k: nat, info: JobInfo) {
    exists j: nat :: j < k && MovedBy(run, steps, j, info)
  }

  /** Active jobs are running, and have no error yet. */
  ghost predicate NoErrors(s: State) {
    && (forall r :: r in s.active ==> s.active[r].error == None)
    && forall th :: th in s.triggers && s.triggers[th].Spawned? ==> s.triggers[th].info.error == None
  }

  lemma {:induction false} CleanedUp(s: State, order: seq<string>)
    ensures forall r :: r in CleanUpAll(s, order).active ==> r in s.active && CleanUpAll(s, order).active[r] == s.active[r]
    ensures CleanUpAll(s, order).triggers == s.triggers
    ensures forall info :: info in CleanUpAll(s, order).history ==>
      info in s.history || exists r :: r in order && r in s.active && info == (if s.active[r].status.Running? then s.active[r].Complete() else s.active[r])
    decreases |order|
  {
    if order != [] {
      var n := |order| - 1;
      CleanedUp(s, order[..n]);
      assert order[n] in order && forall r :: r in order[..n] ==> r in order;
    }
  }

  lemma StepKeepsNoErrors(s: State, step: Step)
    requires NoErrors(s) && Enabled(s, step)
    ensures NoErrors(Do(s, step))
  {
    if step.Cleanup? { CleanedUp(s, step.order); }
  }

  lemma {:induction false} NoErrorsAlways(run: seq<State>, steps: seq<Step>, serial: bool, k: nat)
    requires IsRun(run, steps, serial) && k < |run|
    ensures NoErrors(run[k])
  {
    hide Do, Enabled;
    if k > 0 {
      NoErrorsAlways(run, steps, serial, k - 1);
      StepKeepsNoErrors(run[k - 1], steps[k - 1]);
    }
  }

  /** In every reachable state each job of the history was put there by a step that says
      what became of it: failed with the error that its task recorded, or completed. */
  lemma {:induction false} HistoryExplained(run: seq<State>, steps: seq<Step>, serial: bool, k: nat, info: JobInfo)
    requires IsRun(run, steps, serial) && k < |run| && info in run[k].history
    ensures Explained(run, steps, k, info)
    decreases k
  {
    hide Do, Enabled, Bookkeeping;
    if k > 0 {
      if info in run[k - 1].history {
        HistoryExplained(run, steps, serial, k - 1, info);
        var j: nat :| j < k - 1 && MovedBy(run, steps, j, info);
      } else {
        BookkeepingAlways(run, steps, serial, k - 1);
        NoErrorsAlways(run, steps, serial, k - 1);
        NewInHistory(run[k - 1], steps[k - 1], info);
        assert MovedBy(run, steps, k - 1, info);
      }
    }
  }

  lemma NewInHistory(s: State, step: Step, info: JobInfo)
    requires Enabled(s, step) && Bookkeeping(s) && NoErrors(s) && info in Do(s, step).history && info !in s.history
    ensures MovedBy([s], [step], 0, info)
  {
    hide IdsOnce, HistoryOk;
    if step.Cleanup? {
      CleanedUp(s, step.order);
      var r :| r in step.order && r in s.active && info == (if s.active[r].status.Running? then s.active[r].Complete() else s.active[r]);
      assert WasActive(s, r, info);
    }
  }

  /** So a failed job has the error that its own task recorded. */
  lemma FailedHasError(run: seq<State>, steps: seq<Step>, serial: bool, k: nat, info: JobInfo) returns (j: nat)
    requires IsRun(run, steps, serial) && k < |run| && info in run[k].history && info.status.Failed?
    ensures j < k && j < |steps| && steps[j].TaskRecord? && steps[j].error.Some? && info.error == steps[j].error
    ensures steps[j].id in run[j].tasks && WasActive(run[j], run[j].tasks[steps[j].id].repository, info)
  {
    HistoryExplained(run, steps, serial, k, info);
    j :| j < k && MovedBy(run, steps, j, info);
  }

  // ----- Single flight

  ghost predicate IsLive(s: State, id: nat) {
    id in s.tasks && s.tasks[id].phase.Live?
  }

  /** A live task is the one its repository's entry is for, or is about to be. */
  ghost predicate Tracked(s: State, id: nat)
    requires id in s.tasks
  {
    var r := s.tasks[id].repository;
    (exists th :: IsSpawned(s, th) && s.triggers[th].info.id == id && s.triggers[th].info.repository == r)
    || (r in s.active && s.active[r].id == id && forall th :: th in s.triggers ==> s.triggers[th].Repository() != r)
  }

  ghost predicate OneFlight(s: State) {
    && (forall th, ot :: th in s.triggers && ot in s.triggers && th != ot ==> s.triggers[th].Repository() != s.triggers[ot].Repository())
    && forall id :: IsLive(s, id) ==> Tracked(s, id)
  }

  /** Two live tasks of one repository are the same task. */
  lemma LiveOnce(s: State, id: nat, other: nat)
    requires OneFlight(s) && IsLive(s, id) && IsLive(s, other)
    requires s.tasks[id].repository == s.tasks[other].repository
    ensures id == other
  {
    assert Tracked(s, id) && Tracked(s, other);
  }

  lemma TrackedSame(s: State, t: State, id: nat)
    requires id in s.tasks && id in t.tasks && s.tasks[id].repository == t.tasks[id].repository && Tracked(s, id)
    requires s.triggers == t.triggers
    requires var r := s.tasks[id].repository; r in s.active ==> r in t.active && t.active[r] == s.active[r]
    ensures Tracked(t, id)
  {
    if exists th :: IsSpawned(s, th) && s.triggers[th].info.id == id && s.triggers[th].info.repository == s.tasks[id].repository {
      var th :| IsSpawned(s, th) && s.triggers[th].info.id == id && s.triggers[th].info.repository == s.tasks[id].repository;
      assert IsSpawned(t, th);
    }
  }

  /** A step that ends a task and may take its repository's entry out. */
  lemma EndKeepsOneFlight(s: State, t: State, id: nat)
    requires OneFlight(s) && id in s.tasks
    requires t.triggers == s.triggers && t.tasks.Keys == s.tasks.Keys
    requires !IsLive(t, id) && forall o :: o in s.tasks && o != id ==> t.tasks[o] == s.tasks[o]
    requires (t.active == s.active) || (t.active == s.active - {s.tasks[id].repository} && IsLive(s, id))
    ensures OneFlight(t)
  {
    forall o | IsLive(t, o) ensures Tracked(t, o) {
      assert o != id && IsLive(s, o);
      if t.active != s.active && s.tasks[o].repository == s.tasks[id].repository {
        LiveOnce(s, o, id);
      }
      TrackedSame(s, t, o);
    }
  }

  lemma CheckKeepsOneFlight(s: State, step: Step)
    requires Bookkeeping(s) && OneFlight(s) && step.TriggerCheck? && Enabled(s, step) && Serial(s, step)
    ensures OneFlight(Do(s, step))
  {
    hide IdsOnce, HistoryOk;
    var t := Do(s, step);
    if !AnswersTrigger(s, step.repository) {
      forall id | IsLive(t, id) ensures Tracked(t, id) {
        assert IsLive(s, id) && Tracked(s, id);
        if exists th :: IsSpawned(s, th) && s.triggers[th].info.id == id && s.triggers[th].info.repository == s.tasks[id].repository {
          var th :| IsSpawned(s, th) && s.triggers[th].info.id == id && s.triggers[th].info.repository == s.tasks[id].repository;
          assert IsSpawned(t, th) && t.triggers[th] == s.triggers[th];
        }
      }
    }
  }

  lemma SpawnKeepsOneFlight(s: State, step: Step)
    requires Bookkeeping(s) && OneFlight(s) && step.TriggerSpawn? && Enabled(s, step)
    ensures OneFlight(Do(s, step))
  {
    hide IdsOnce, HistoryOk;
    var t, thread := Do(s, step), step.thread;
    forall id | IsLive(t, id) ensures Tracked(t, id) {
      if id == s.nextId {
        assert IsSpawned(t, thread);
      } else {
        assert IsLive(s, id) && Tracked(s, id);
        if exists th :: IsSpawned(s, th) && s.triggers[th].info.id == id && s.triggers[th].info.repository == s.tasks[id].repository {
          var th :| IsSpawned(s, th) && s.triggers[th].info.id == id && s.triggers[th].info.repository == s.tasks[id].repository;
          assert th != thread && IsSpawned(t, th) && t.triggers[th] == s.triggers[th];
        }
      }
    }
  }

  lemma InsertKeepsOneFlight(s: State, step: Step)
    requires Bookkeeping(s) && OneFlight(s) && step.TriggerInsert? && Enabled(s, step)
    ensures OneFlight(Do(s, step))
  {
    hide IdsOnce, HistoryOk;
    var t, thread := Do(s, step), step.thread;
    var info := s.triggers[thread].info;
    forall id | IsLive(t, id) ensures Tracked(t, id) {
      assert IsLive(s, id) && Tracked(s, id);
      if exists th :: IsSpawned(s, th) && s.triggers[th].info.id == id && s.triggers[th].info.repository == s.tasks[id].repository {
        var th :| IsSpawned(s, th) && s.triggers[th].info.id == id && s.triggers[th].info.repository == s.tasks[id].repository;
        if th != thread { assert IsSpawned(t, th) && t.triggers[th] == s.triggers[th]; }
      } else {
        assert s.triggers[thread].Repository() == info.repository;
      }
    }
  }

  /** Cleaning up keeps the entries of live tasks, and everything else. */
  lemma {:induction false} CleanUpAllKeeps(s: State, order: seq<string>)
    ensures
      var t := CleanUpAll(s, order);
      && t.triggers == s.triggers && t.tasks == s.tasks && t.nextId == s.nextId
      && forall r :: r in s.active && r !in order ==> r in t.active && t.active[r] == s.active[r]
    decreases |order|
  {
    if order != [] { CleanUpAllKeeps(s, order[..|order| - 1]); }
  }

  lemma CleanupKeepsOneFlight(s: State, step: Step)
    requires Bookkeeping(s) && OneFlight(s) && step.Cleanup? && Enabled(s, step)
    ensures OneFlight(Do(s, step))
  {
    hide IdsOnce, HistoryOk, CleanUpAll;
    var t := CleanUpAll(s, step.order);
    CleanUpAllKeeps(s, step.order);
    forall id | IsLive(t, id) ensures Tracked(t, id) {
      assert IsLive(s, id) && Tracked(s, id);
      var r := s.tasks[id].repository;
      if r in s.active && s.active[r].id == id {
        assert Unfinished(s, id) && r !in step.order;
        TrackedSame(s, t, id);
      } else {
        var th :| IsSpawned(s, th) && s.triggers[th].info.id == id && s.triggers[th].info.repository == s.tasks[id].repository;
        assert IsSpawned(t, th);
      }
    }
  }

  lemma StepKeepsOneFlight(s: State, step: Step)
    requires Bookkeeping(s) && OneFlight(s) && Enabled(s, step) && Serial(s, step)
    ensures OneFlight(Do(s, step))
  {
    hide OneFlight, Bookkeeping;
    match step {
      case TriggerCheck(_, _, _) => CheckKeepsOneFlight(s, step);
      case TriggerSpawn(_) => SpawnKeepsOneFlight(s, step);
      case TriggerInsert(_) => InsertKeepsOneFlight(s, step);
      case TaskRecord(id, _) => EndKeepsOneFlight(s, Do(s, step), id);
      case TaskReturn(id) => EndKeepsOneFlight(s, Do(s, step), id);
      case TaskDies(id) => EndKeepsOneFlight(s, Do(s, step), id);
      case TaskDiesRecording(id) => EndKeepsOneFlight(s, Do(s, step), id);
      case Cancel(id) =>
      case Cleanup(order) => CleanupKeepsOneFlight(s, step);
    }
  }

  lemma {:induction false} OneFlightAlways(run: seq<State>, steps: seq<Step>, k: nat)
    requires IsRun(run, steps, true) && k < |run|
    ensures OneFlight(run[k])
  {
    hide Bookkeeping, Do, OneFlight;
    if k > 0 {
      OneFlightAlways(run, steps, k - 1);
      BookkeepingAlways(run, steps, true, k - 1);
      StepKeepsOneFlight(run[k - 1], steps[k - 1]);
    } else {
      assert OneFlight(INITIAL) by { hide *; InitialOneFlight(); }
    }
  }

  lemma InitialOneFlight()
    ensures OneFlight(INITIAL)
  {
  }

  /** If triggers of one repository never overlap, then in every reachable state each
      repository has at most one live task, and a trigger that starts while there is
      one is answered with that task's job id. */
  lemma SingleFlight(run: seq<State>, steps: seq<Step>, k: nat, id: nat)
    requires IsRun(run, steps, true) && k < |run| && IsLive(run[k], id)
    ensures forall other :: IsLive(run[k], other) && run[k].tasks[other].repository == run[k].tasks[id].repository ==> other == id
    ensures forall step: Step :: step.TriggerCheck? && step.repository == run[k].tasks[id].repository && Serial(run[k], step) ==>
      AnswersTrigger(run[k], step.repository) && run[k].active[step.repository].id == id
  {
    hide Do, Bookkeeping;
    var s := run[k];
    OneFlightAlways(run, steps, k);
    forall other | IsLive(s, other) && s.tasks[other].repository == s.tasks[id].repository ensures other == id {
      LiveOnce(s, id, other);
    }
    forall step: Step | step.TriggerCheck? && step.repository == s.tasks[id].repository && Serial(s, step)
      ensures AnswersTrigger(s, step.repository) && s.active[step.repository].id == id
    {
      assert Tracked(s, id);
    }
  }

  /** Without that condition the property fails: two triggers that both check before
      either inserts start two live tasks for one repository. */
  lemma OverlappingTriggersRace(repository: string)
    ensures exists run, steps :: IsRun(run, steps, false) && TwoLive(run[|run| - 1], repository)
  {
    var s1 := Do(INITIAL, TriggerCheck(0, repository, None));
    var s2 := Do(s1, TriggerCheck(1, repository, None));
    var s3 := Do(s2, TriggerSpawn(0));
    var s4 := Do(s3, TriggerSpawn(1));
    var run := [INITIAL, s1, s2, s3, s4];
    var steps := [TriggerCheck(0, repository, None), TriggerCheck(1, repository, None), TriggerSpawn(0), TriggerSpawn(1)];
    assert IsRun(run, steps, false);
    assert IsLive(s4, 0) && IsLive(s4, 1);
    assert TwoLive(run[|run| - 1], repository);
  }

  /** In general: wherever two triggers of one repository are past the check and neither
      has spawned its task, two live tasks are two steps away. */
  lemma OverlapLeadsToRace(run: seq<State>, steps: seq<Step>, serial: bool, th: nat, ot: nat) returns (run': seq<State>, steps': seq<Step>)
    requires IsRun(run, steps, serial) && th != ot
    requires
      var s := run[|run| - 1];
      && th in s.triggers && ot in s.triggers && s.triggers[th].Checked? && s.triggers[ot].Checked?
      && s.triggers[th].Repository() == s.triggers[ot].Repository()
    ensures IsRun(run', steps', serial) && run <= run' && |run'| == |run| + 2
    ensures TwoLive(run'[|run'| - 1], run[|run| - 1].triggers[th].Repository())
  {
    var s := run[|run| - 1];
    BookkeepingAlways(run, steps, serial, |run| - 1);
    var t := Do(s, TriggerSpawn(th));
    assert Enabled(t, TriggerSpawn(ot));
    var u := Do(t, TriggerSpawn(ot));
    run', steps' := run + [t, u], steps + [TriggerSpawn(th), TriggerSpawn(ot)];
    forall k | 0 <= k < |steps'|
      ensures Enabled(run'[k], steps'[k]) && (serial ==> Serial(run'[k], steps'[k])) && run'[k + 1] == Do(run'[k], steps'[k])
    {
      if k < |steps| { assert run'[k] == run[k] && run'[k + 1] == run[k + 1] && steps'[k] == steps[k]; }
    }
    assert IsLive(u, s.nextId) && IsLive(u, t.nextId);
  }

  ghost predicate TwoLive(s: State, repository: string) {
    exists id, other :: id != other && IsLive(s, id) && IsLive(s, other)
                        && s.tasks[id].repository == s.tasks[other].repository == repository
  }
}
