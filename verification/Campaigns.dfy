/** What a trigger answers when anything comes between its sections, and what the trigger
    of a whole campaign does. */
module Campaigns {
  import opened Common
  import opened JobProtocol

  ghost predicate StepOf(step: Step, thread: nat) {
    match step
    case TriggerCheck(th, _, _) => th == thread
    case TriggerSpawn(th) => th == thread
    case TriggerInsert(th) => th == thread
    case _ => false
  }

  /** None of the steps from `p` to `q`, these excluded, is the thread's. */
  ghost predicate OnlyOthers(steps: seq<Step>, thread: nat, p: nat, q: nat) {
    forall k :: p < k < q && k < |steps| ==> !StepOf(steps[k], thread)
  }

  /** The thread's sections after a check that was not answered. */
  ghost predicate Starts(run: seq<State>, steps: seq<Step>, thread: nat, p: nat, m: nat, q: nat, id: nat) {
    && p < m < q < |steps| <= |run|
    && steps[m] == TriggerSpawn(thread) && steps[q] == TriggerInsert(thread)
    && OnlyOthers(steps, thread, p, m) && OnlyOthers(steps, thread, m, q)
    && id == run[m].nextId
  }

  /** A whole trigger, with its first section at step `p` and its last one at step `q`; it
      answers `id`. */
  ghost predicate IsTrigger(run: seq<State>, steps: seq<Step>, thread: nat, repository: string, campaign: Option<string>, p: nat, q: nat, id: nat) {
    && p <= q < |steps| <= |run|
    && steps[p] == TriggerCheck(thread, repository, campaign)
    && if AnswersTrigger(run[p], repository) then q == p && id == run[p].active[repository].id
       else exists m: nat :: Starts(run, steps, thread, p, m, q, id)
  }

  /** The job that was running at the check, or else a new one that has taken the
      repository's place at the end. */
  ghost predicate Answered(run: seq<State>, repository: string, campaign: Option<string>, p: nat, q: nat, id: nat)
    requires p <= q && q + 1 < |run|
  {
    if AnswersTrigger(run[p], repository) then
      && run[p].active[repository].id == id && id in run[p].tasks && run[p].tasks[id].repository == repository
      && (run[p].tasks[id].phase == Live || run[p].tasks[id].phase == Recorded)
    else
      && id !in run[p].tasks && run[p].nextId <= id < run[q + 1].nextId
      && repository in run[q + 1].active && run[q + 1].active[repository] == JobInfo(id, repository, campaign, Running, None)
      && id in run[q + 1].tasks && run[q + 1].tasks[id].repository == repository
  }

  lemma {:induction false} CleanUpKeepsTriggers(s: State, order: seq<string>)
    ensures CleanUpAll(s, order).triggers == s.triggers && CleanUpAll(s, order).nextId == s.nextId
    decreases |order|
  {
    if order != [] { CleanUpKeepsTriggers(s, order[..|order| - 1]); }
  }

  lemma OtherStep(s: State, step: Step, thread: nat)
    requires Enabled(s, step)
    ensures s.nextId <= Do(s, step).nextId <= s.nextId + 1
    ensures !StepOf(step, thread) && thread in s.triggers ==>
      thread in Do(s, step).triggers && Do(s, step).triggers[thread] == s.triggers[thread]
  {
    if step.Cleanup? { CleanUpKeepsTriggers(s, step.order); }
  }

  lemma {:induction false} IdsGrow(run: seq<State>, steps: seq<Step>, serial: bool, p: nat, q: nat)
    requires IsRun(run, steps, serial) && p <= q < |run|
    ensures run[p].nextId <= run[q].nextId
  {
    hide Do, Enabled;
    if p < q {
      IdsGrow(run, steps, serial, p, q - 1);
      OtherStep(run[q - 1], steps[q - 1], 0);
    }
  }

  /** What a thread has decided stays until its own next section. */
  lemma {:induction false} TriggerStays(run: seq<State>, steps: seq<Step>, serial: bool, thread: nat, p: nat, q: nat)
    requires IsRun(run, steps, serial) && p < q < |run| && OnlyOthers(steps, thread, p, q)
    requires thread in run[p + 1].triggers
    ensures thread in run[q].triggers && run[q].triggers[thread] == run[p + 1].triggers[thread]
  {
    hide Do, Enabled;
    if p + 1 < q {
      TriggerStays(run, steps, serial, thread, p, q - 1);
      assert !StepOf(steps[q - 1], thread);
      OtherStep(run[q - 1], steps[q - 1], thread);
    }
  }

  lemma StepDone(run: seq<State>, steps: seq<Step>, serial: bool, k: nat)
    requires IsRun(run, steps, serial) && k < |steps|
    ensures Enabled(run[k], steps[k]) && run[k + 1] == Do(run[k], steps[k])
  {
  }

  /** Whatever comes in between, a trigger answers with the job that was running when it
      checked, or starts a job of its own and answers with that. */
  lemma TriggerAnswer(run: seq<State>, steps: seq<Step>, serial: bool, thread: nat, repository: string, campaign: Option<string>, p: nat, q: nat, id: nat)
    requires IsRun(run, steps, serial) && IsTrigger(run, steps, thread, repository, campaign, p, q, id)
    ensures q + 1 < |run| && Answered(run, repository, campaign, p, q, id)
  {
    hide IsRun, Bookkeeping, Starts, OnlyOthers;
    assert |run| == |steps| + 1 by { RunLength(run, steps, serial); }
    BookkeepingAlways(run, steps, serial, p);
    if AnswersTrigger(run[p], repository) {
      ActiveTask(run[p], repository);
    } else {
      var m: nat :| Starts(run, steps, thread, p, m, q, id);
      StartedJob(run, steps, serial, thread, repository, campaign, p, m, q, id);
    }
  }

  lemma RunLength(run: seq<State>, steps: seq<Step>, serial: bool)
    requires IsRun(run, steps, serial)
    ensures |run| == |steps| + 1
  {
  }

  lemma ActiveTask(s: State, repository: string)
    requires Bookkeeping(s) && repository in s.active
    ensures s.active[repository].id in s.tasks && s.tasks[s.active[repository].id].repository == repository
  {
  }

  lemma StartedJob(run: seq<State>, steps: seq<Step>, serial: bool, thread: nat, repository: string, campaign: Option<string>, p: nat, m: nat, q: nat, id: nat)
    requires IsRun(run, steps, serial) && Starts(run, steps, thread, p, m, q, id)
    requires steps[p] == TriggerCheck(thread, repository, campaign) && !AnswersTrigger(run[p], repository)
    ensures q + 1 < |run| && Answered(run, repository, campaign, p, q, id)
    ensures run[m].nextId == id && run[m + 1].nextId == id + 1
  {
    hide IsRun, Bookkeeping, OnlyOthers;
    assert |run| == |steps| + 1 by { RunLength(run, steps, serial); }
    StepDone(run, steps, serial, p);
    TriggerStays(run, steps, serial, thread, p, m);
    StepDone(run, steps, serial, m);
    TriggerStays(run, steps, serial, thread, m, q);
    StepDone(run, steps, serial, q);
    BookkeepingAlways(run, steps, serial, p);
    BookkeepingAlways(run, steps, serial, q + 1);
    IdsGrow(run, steps, serial, p, m);
    IdsGrow(run, steps, serial, m + 1, q + 1);
    assert repository in run[q + 1].active;
    ActiveTask(run[q + 1], repository);
    TaskIds(run[p], id);
  }

  lemma TaskIds(s: State, id: nat)
    requires Bookkeeping(s) && s.nextId <= id
    ensures id !in s.tasks
  {
  }

  /** The trigger of a campaign: one trigger after the other by one thread, each with its
      first and last section, anything in between. */
  ghost predicate IsCampaign(run: seq<State>, steps: seq<Step>, thread: nat, repositories: seq<string>, campaign: string,
                             at: seq<(nat, nat)>, ids: seq<nat>) {
    && |at| == |ids| == |repositories|
    && (forall k :: 0 <= k < |at| ==> IsTrigger(run, steps, thread, repositories[k], Some(campaign), at[k].0, at[k].1, ids[k]))
    && forall j, k :: 0 <= j < k < |at| ==> at[j].1 < at[k].0
  }

  ghost predicate StartedAt(run: seq<State>, repository: string, p: nat)
    requires p < |run|
  {
    !AnswersTrigger(run[p], repository)
  }

  /** Every repository gets the job that was running at its own trigger or a new one, and
      the new ones are all different. */
  lemma CampaignAnswers(run: seq<State>, steps: seq<Step>, serial: bool, thread: nat, repositories: seq<string>, campaign: string,
                        at: seq<(nat, nat)>, ids: seq<nat>)
    requires IsRun(run, steps, serial) && IsCampaign(run, steps, thread, repositories, campaign, at, ids)
    ensures forall k :: 0 <= k < |ids| ==>
      at[k].0 <= at[k].1 && at[k].1 + 1 < |run| && Answered(run, repositories[k], Some(campaign), at[k].0, at[k].1, ids[k])
    ensures forall j, k :: 0 <= j < k < |ids| && StartedAt(run, repositories[j], at[j].0) && StartedAt(run, repositories[k], at[k].0) ==>
      ids[j] < ids[k]
  {
    hide IsRun, IsTrigger, Answered;
    forall k | 0 <= k < |ids|
      ensures at[k].0 <= at[k].1 && at[k].1 + 1 < |run| && Answered(run, repositories[k], Some(campaign), at[k].0, at[k].1, ids[k])
    {
      Positions(run, steps, thread, repositories[k], Some(campaign), at[k].0, at[k].1, ids[k]);
      TriggerAnswer(run, steps, serial, thread, repositories[k], Some(campaign), at[k].0, at[k].1, ids[k]);
    }
    forall j, k | 0 <= j < k < |ids| && StartedAt(run, repositories[j], at[j].0) && StartedAt(run, repositories[k], at[k].0)
      ensures ids[j] < ids[k]
    {
      NewIdsBetween(run, repositories[j], Some(campaign), at[j].0, at[j].1, ids[j]);
      NewIdsBetween(run, repositories[k], Some(campaign), at[k].0, at[k].1, ids[k]);
      IdsGrow(run, steps, serial, at[j].1 + 1, at[k].0);
    }
  }

  lemma Positions(run: seq<State>, steps: seq<Step>, thread: nat, repository: string, campaign: Option<string>, p: nat, q: nat, id: nat)
    requires IsTrigger(run, steps, thread, repository, campaign, p, q, id)
    ensures p <= q < |steps|
  {
  }

  lemma NewIdsBetween(run: seq<State>, repository: string, campaign: Option<string>, p: nat, q: nat, id: nat)
    requires p <= q && q + 1 < |run| && Answered(run, repository, campaign, p, q, id) && StartedAt(run, repository, p)
    ensures run[p].nextId <= id < run[q + 1].nextId
  {
  }
}
