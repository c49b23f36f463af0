/** The manager itself: each method is one critical section, and does exactly one step
    of the protocol. */
module JobManager {
  import opened Common
  import opened JobProtocol

  datatype Statistics = Statistics(activeJobs: nat, runningJobs: nat, historical: nat, completed: nat, failed: nat)

  /** The handle of a task is not finished. */
  predicate StillRuns(tasks: map<nat, Task>, id: nat) {
    id in tasks && (tasks[id].phase == Live || tasks[id].phase == Recorded)
  }

  /** `moved` are the jobs of the repositories `order`, completed if they were running. */
  ghost predicate MovedJobs(active: map<string, JobInfo>, order: seq<string>, moved: seq<JobInfo>) {
    |moved| == |order| && forall i :: 0 <= i < |order| ==> order[i] in active && MovedJob(active[order[i]], moved[i])
  }

  ghost predicate MovedJob(job: JobInfo, moved: JobInfo) {
    moved == JobInfo(job.id, job.repository, job.campaign, if job.status == Running then Completed else job.status, job.error)
  }

  ghost function Last100(all: seq<JobInfo>): seq<JobInfo> {
    if |all| <= 100 then all else all[|all| - 100..]
  }

  lemma NothingMoved(active: map<string, JobInfo>, order: seq<string>, history: seq<JobInfo>)
    ensures MovedJobs(active, order[..0], []) && (|history| <= 100 ==> history == Last100(history + []))
  {
    assert history + [] == history;
  }

  lemma CleanUpNone(s: State, order: seq<string>)
    ensures CleanUpAll(s, order[..0]) == s
  {
  }

  lemma CleanUpNext(s: State, order: seq<string>, i: nat)
    requires i < |order|
    ensures CleanUpAll(s, order[..i + 1]) == CleanUp(CleanUpAll(s, order[..i]), order[i])
  {
    assert order[..i + 1][..i] == order[..i];
  }

  lemma OneMoved(active: map<string, JobInfo>, order: seq<string>, moved: seq<JobInfo>, r: string, info: JobInfo, history: seq<JobInfo>)
    requires MovedJobs(active, order, moved) && r in active && MovedJob(active[r], info)
    ensures MovedJobs(active, order + [r], moved + [info])
    ensures Push(Last100(history + moved), info) == Last100(history + (moved + [info]))
  {
    var all := history + moved;
    assert history + (moved + [info]) == all + [info];
    if |all| > 100 {
      assert (all[|all| - 100..] + [info])[1..] == (all + [info])[|all| - 99..];
    }
  }

  class GeneratorManager {
    var active: map<string, JobInfo>
    var history: seq<JobInfo>
    /** The runtime's: the tasks spawned so far, and the triggers under way. */
    var tasks: map<nat, Task>
    var triggers: map<nat, Trigger>
    var nextId: nat

    function Snapshot(): State
      reads this
    {
      State(active, history, tasks, triggers, nextId)
    }

    constructor ()
      ensures Snapshot() == INITIAL
    {
      active, history, tasks, triggers, nextId := map[], [], map[], map[], 0;
    }

    /** First section of a trigger: answer it with the running job, if there is one. */
    method Check(thread: nat, repository: string, campaign: Option<string>) returns (answer: Option<nat>)
      requires thread !in triggers
      modifies this
      ensures Snapshot() == Do(old(Snapshot()), TriggerCheck(thread, repository, campaign))
      ensures answer.Some? <==>
        repository in active && StillRuns(tasks, active[repository].id)
      ensures active == old(active) && history == old(history) && tasks == old(tasks) && nextId == old(nextId)
      ensures triggers == if answer.Some? then old(triggers) else old(triggers)[thread := Checked(repository, campaign)]
      ensures answer.Some? <==> thread !in triggers
      ensures answer.Some? ==> repository in active && answer.value == active[repository].id && Unfinished(Snapshot(), answer.value)
    {
      if repository in active {
        var existing := active[repository];
        if existing.id in tasks && !tasks[existing.id].phase.Done? {
          return Some(existing.id);
        }
      }
      triggers := triggers[thread := Checked(repository, campaign)];
      answer := None;
    }

    /** Second section: make the job and spawn its task. */
    method Spawn(thread: nat)
      requires thread in triggers && triggers[thread].Checked?
      modifies this
      ensures Snapshot() == Do(old(Snapshot()), TriggerSpawn(thread))
      ensures active == old(active) && history == old(history) && nextId == old(nextId) + 1
      ensures
        var t := old(triggers)[thread];
        && tasks == old(tasks)[old(nextId) := Task(t.repository, Live)]
        && triggers == old(triggers)[thread := Spawned(JobInfo(old(nextId), t.repository, t.campaign, Running, None))]
    {
      var t := triggers[thread];
      var info := NewJob(nextId, t.repository, t.campaign);
      info := info.Start();
      tasks := tasks[info.id := Task(t.repository, Live)];
      triggers := triggers[thread := Spawned(info)];
      nextId := nextId + 1;
    }

    /** Third section: store the job, replacing whatever the repository had. */
    method Insert(thread: nat) returns (id: nat)
      requires thread in triggers && triggers[thread].Spawned?
      modifies this
      ensures Snapshot() == Do(old(Snapshot()), TriggerInsert(thread))
      ensures history == old(history) && tasks == old(tasks) && nextId == old(nextId) && triggers == old(triggers) - {thread}
      ensures active == old(active)[old(triggers)[thread].info.repository := old(triggers)[thread].info]
      ensures id == old(triggers)[thread].info.id
      ensures old(triggers)[thread].info.repository in active && active[old(triggers)[thread].info.repository].id == id
    {
      var info := triggers[thread].info;
      active := active[info.repository := info];
      triggers := triggers - {thread};
      id := info.id;
    }

    /** A whole trigger, when nothing comes between its sections. */
    method TriggerRepository(thread: nat, repository: string, campaign: Option<string>) returns (id: nat)
      requires thread !in triggers && Bookkeeping(Snapshot())
      modifies this
      ensures Bookkeeping(Snapshot()) && triggers == old(triggers) && history == old(history)
      ensures repository in active && active[repository].id == id && Unfinished(Snapshot(), id)
      ensures old(AnswersTrigger(Snapshot(), repository)) ==> Snapshot() == old(Snapshot())
      ensures !old(AnswersTrigger(Snapshot(), repository)) ==>
        id == old(nextId) && tasks == old(tasks)[id := Task(repository, Live)]
        && active == old(active)[repository := JobInfo(id, repository, campaign, Running, None)]
    {
      hide Bookkeeping;
      CheckKeepsBookkeeping(Snapshot(), TriggerCheck(thread, repository, campaign));
      var answer := Check(thread, repository, campaign);
      if answer.Some? {
        return answer.value;
      }
      SpawnKeepsBookkeeping(Snapshot(), TriggerSpawn(thread));
      Spawn(thread);
      InsertKeepsBookkeeping(Snapshot(), TriggerInsert(thread));
      id := Insert(thread);
    }

    /** Trigger every repository of a campaign, one after the other. A repository that is
        listed twice gets one job. */
    method TriggerCampaign(thread: nat, repositories: seq<string>, campaign: string) returns (ids: seq<nat>)
      requires thread !in triggers && Bookkeeping(Snapshot())
      modifies this
      ensures Bookkeeping(Snapshot()) && triggers == old(triggers) && history == old(history)
      ensures |ids| == |repositories|
      ensures forall k :: 0 <= k < |ids| ==>
        repositories[k] in active && active[repositories[k]].id == ids[k] && Unfinished(Snapshot(), ids[k])
      ensures forall r :: r !in repositories ==> (r in active <==> r in old(active)) && (r in active ==> active[r] == old(active)[r])
    {
      hide Bookkeeping;
      ids := [];
      for k := 0 to |repositories|
        invariant Bookkeeping(Snapshot()) && triggers == old(triggers) && history == old(history)
        invariant |ids| == k
        invariant forall j :: 0 <= j < k ==>
          repositories[j] in active && active[repositories[j]].id == ids[j] && Unfinished(Snapshot(), ids[j])
        invariant forall r :: r !in repositories ==> (r in active <==> r in old(active)) && (r in active ==> active[r] == old(active)[r])
      {
        FreshId(Snapshot());
        var id := TriggerRepository(thread, repositories[k], Some(campaign));
        ids := ids + [id];
      }
    }

    method PushHistory(info: JobInfo)
      modifies this`history
      ensures history == Push(old(history), info)
      ensures history == (if |old(history)| >= 100 then old(history)[1..] else old(history)) + [info]
    {
      history := history + [info];
      if |history| > HISTORY_LIMIT {
        history := history[1..];
      }
    }

    /** What a task does with its result. */
    method RecordResult(id: nat, error: Option<string>)
      requires id in tasks && tasks[id].phase.Live?
      modifies this
      ensures Snapshot() == Do(old(Snapshot()), TaskRecord(id, error))
      ensures triggers == old(triggers) && nextId == old(nextId) && tasks == old(tasks)[id := Task(old(tasks)[id].repository, Recorded)]
      ensures
        var r := old(tasks)[id].repository;
        if r in old(active) then
          var job, n := old(active)[r], |history| - 1;
          && active == old(active) - {r} && n >= 0
          && history[..n] == (if |old(history)| >= 100 then old(history)[1..] else old(history))
          && history[n] == match error
             case None => JobInfo(job.id, job.repository, job.campaign, Completed, job.error)
             case Some(message) => JobInfo(job.id, job.repository, job.campaign, Failed, Some(message))
        else
          active == old(active) && history == old(history)
    {
      var repository := tasks[id].repository;
      if repository in active {
        var info := active[repository];
        active := active - {repository};
        if error.None? {
          info := info.Complete();
        } else {
          info := info.Fail(error.value);
        }
        PushHistory(info);
      }
      tasks := tasks[id := tasks[id].(phase := Recorded)];
    }

    /** Cancelling asks the task to stop; it changes nothing by itself. */
    method CancelJob(id: nat) returns (found: bool)
      ensures found <==> exists r :: r in active && active[r].id == id
    {
      var left := active.Keys;
      while left != {}
        invariant left <= active.Keys
        invariant forall r :: r in active && r !in left ==> active[r].id != id
      {
        var r :| r in left;
        if active[r].id == id {
          return true;
        }
        left := left - {r};
      }
      found := false;
    }

    /** Move every job whose handle is finished to the history. */
    method CleanupFinishedJobs() returns (count: nat, ghost order: seq<string>, ghost moved: seq<JobInfo>)
      modifies this`active, this`history
      ensures forall r :: r in active <==> r in old(active) && StillRuns(tasks, old(active)[r].id)
      ensures forall r :: r in active ==> active[r] == old(active)[r]
      ensures NoDup(order) && forall r :: r in order <==> r in old(active) && r !in active
      ensures MovedJobs(old(active), order, moved)
      ensures |old(history)| <= 100 ==> history == Last100(old(history) + moved)
      ensures Enabled(old(Snapshot()), Cleanup(order))
      ensures Snapshot() == Do(old(Snapshot()), Cleanup(order))
      ensures count == |order|
    {
      hide MovedJobs, Last100, CleanUpAll, StillRuns;
      var toRemove := FinishedRepositories();
      count, order, moved := |toRemove|, toRemove, [];
      ghost var start := Snapshot();
      NothingMoved(start.active, toRemove, start.history);
      CleanUpNone(start, toRemove);
      for i := 0 to |toRemove|
        invariant Snapshot() == CleanUpAll(start, toRemove[..i])
        invariant forall r :: r in active <==> r in start.active && r !in toRemove[..i]
        invariant forall r :: r in active ==> active[r] == start.active[r]
        invariant MovedJobs(start.active, toRemove[..i], moved)
        invariant |start.history| <= 100 ==> history == Last100(start.history + moved)
      {
        var repository := toRemove[i];
        assert repository in toRemove && toRemove[..i + 1] == toRemove[..i] + [repository];
        if repository in active {
          var info := active[repository];
          active := active - {repository};
          if info.status.Running? {
            info := info.Complete();
          }
          OneMoved(start.active, toRemove[..i], moved, repository, info, start.history);
          moved := moved + [info];
          PushHistory(info);
        }
        CleanUpNext(start, toRemove, i);
      }
      assert toRemove[..|toRemove|] == toRemove;
    }

    method FinishedRepositories() returns (names: seq<string>)
      ensures NoDup(names)
      ensures forall r :: r in names <==> r in active && !Unfinished(Snapshot(), active[r].id)
      ensures forall r :: r in names <==> r in active && !StillRuns(tasks, active[r].id)
    {
      names := [];
      var left := active.Keys;
      while left != {}
        invariant left <= active.Keys && NoDup(names)
        invariant forall r :: r in names <==> r in active && r !in left && !Unfinished(Snapshot(), active[r].id)
      {
        var r :| r in left;
        if !(active[r].id in tasks && !tasks[active[r].id].phase.Done?) {
          names := names + [r];
        }
        left := left - {r};
      }
    }

    /** Look a job up, first among the active ones. In every reachable state it is the
        only job with that id. */
    method GetJobInfo(id: nat) returns (found: Option<JobInfo>)
      requires Bookkeeping(Snapshot())
      ensures found.None? ==> (forall r :: r in active ==> active[r].id != id) && forall k :: 0 <= k < |history| ==> history[k].id != id
      ensures found.Some? ==>
        && found.value.id == id
        && (forall r :: r in active && active[r].id == id ==> active[r] == found.value)
        && (forall k :: 0 <= k < |history| && history[k].id == id ==> history[k] == found.value)
        && (found.value.status.Running? <==> exists r :: r in active && active[r].id == id)
    {
      var left := active.Keys;
      while left != {}
        invariant left <= active.Keys
        invariant forall r :: r in active && r !in left ==> active[r].id != id
      {
        var r :| r in left;
        if active[r].id == id {
          return Some(active[r]);
        }
        left := left - {r};
      }
      for k := 0 to |history|
        invariant forall j :: 0 <= j < k ==> history[j].id != id
      {
        if history[k].id == id {
          return Some(history[k]);
        }
      }
      found := None;
    }

    method CountRunning() returns (running: nat)
      ensures running == |set r | r in active && Unfinished(Snapshot(), active[r].id)|
      ensures running == |set r | r in active && StillRuns(tasks, active[r].id)|
    {
      running := 0;
      var left := active.Keys;
      ghost var seen: set<string> := {};
      while left != {}
        invariant left <= active.Keys
        invariant seen == set r | r in active && r !in left && StillRuns(tasks, active[r].id)
        invariant running == |seen|
      {
        var r :| r in left;
        if active[r].id in tasks && !tasks[active[r].id].phase.Done? {
          running := running + 1;
          seen := seen + {r};
        }
        left := left - {r};
      }
      assert seen == set r | r in active && StillRuns(tasks, active[r].id);
      assert seen == set r | r in active && Unfinished(Snapshot(), active[r].id);
    }

    method CountFinished() returns (completed: nat, failed: nat)
      ensures completed == Count(history, Completed) && failed == Count(history, Failed)
    {
      completed, failed := 0, 0;
      for k := 0 to |history|
        invariant completed == Count(history[..k], Completed) && failed == Count(history[..k], Failed)
      {
        assert history[..k + 1][..k] == history[..k];
        if history[k].status.Completed? {
          completed := completed + 1;
        }
        if history[k].status.Failed? {
          failed := failed + 1;
        }
      }
      assert history[..|history|] == history;
    }

    /** Counters over one consistent view; they add up in every reachable state. */
    method GetStatistics() returns (stats: Statistics)
      requires Bookkeeping(Snapshot())
      ensures stats.activeJobs == |active| && stats.historical == |history| <= 100
      ensures stats.runningJobs == |set r | r in active && Unfinished(Snapshot(), active[r].id)|
      ensures stats.runningJobs == |set r | r in active && StillRuns(tasks, active[r].id)|
      ensures stats.completed == |WithStatus(history, Completed)| && stats.failed == |WithStatus(history, Failed)|
      ensures stats.completed == Count(history, Completed) && stats.failed == Count(history, Failed)
      ensures stats.completed + stats.failed == stats.historical
    {
      hide WithStatus, Bookkeeping;
      var running := CountRunning();
      var completed, failed := CountFinished();
      HistoryFinished(Snapshot());
      CompletedAndFailed(history);
      CountIs(history, Completed);
      CountIs(history, Failed);
      stats := Statistics(|active|, running, |history|, completed, failed);
    }
  }
}
