/** Generating several repositories with a bounded number of tasks at a time. */
module FanOut {
  import opened Common

  datatype Event = Started(repository: string) | Finished(repository: string)

  /** How many tasks are started and not yet waited for. */
  function InFlight(events: seq<Event>): int {
    if events == [] then 0
    else InFlight(events[..|events| - 1]) + if events[|events| - 1].Started? then 1 else -1
  }

  /** Those that are started and not finished. */
  function Running(events: seq<Event>): set<string> {
    set e | e in events && e.Started? && Finished(e.repository) !in events :: e.repository
  }

  /** No event happens twice, and a repository is finished only after it is started. */
  ghost predicate Orderly(events: seq<Event>) {
    && NoDup(events)
    && forall i :: 0 <= i < |events| && events[i].Finished? ==> Started(events[i].repository) in events[..i]
  }

  lemma OrderlyPrefix(events: seq<Event>, n: nat)
    requires Orderly(events) && n <= |events|
    ensures Orderly(events[..n])
  {
    assert forall i :: 0 <= i < n ==> events[..n][..i] == events[..i];
  }

  lemma OneStarted(before: seq<Event>, r: string)
    requires Orderly(before + [Started(r)])
    ensures r !in Running(before) && Running(before + [Started(r)]) == Running(before) + {r}
  {
    var events := before + [Started(r)];
    assert forall i :: 0 <= i < |before| ==> events[i] == before[i] && events[..i] == before[..i];
    assert events[|before|] == Started(r);
    assert Started(r) !in before;
    OrderlyPrefix(events, |before|);
    FinishedWasStarted(before, r);
  }

  lemma FinishedWasStarted(events: seq<Event>, r: string)
    requires Orderly(events)
    ensures Finished(r) in events ==> Started(r) in events
  {
    if Finished(r) in events {
      var i :| 0 <= i < |events| && events[i] == Finished(r);
      assert Started(r) in events[..i];
    }
  }

  lemma OneFinished(before: seq<Event>, r: string)
    requires Orderly(before + [Finished(r)])
    ensures r in Running(before) && Running(before + [Finished(r)]) == Running(before) - {r}
  {
    var events := before + [Finished(r)];
    assert events[..|before|] == before && events[|before|] == Finished(r);
    assert Started(r) in before;
    assert forall i :: 0 <= i < |before| ==> events[i] == before[i];
    assert Finished(r) !in before;
  }

  /** In flight are those that are started and not finished. */
  lemma {:induction false} InFlightIs(events: seq<Event>)
    requires Orderly(events)
    ensures InFlight(events) == |Running(events)|
    decreases |events|
  {
    hide Orderly, Running;
    if events == [] {
      assert Running([]) == {} by { NoneRunning(); }
    } else {
      var n := |events| - 1;
      OrderlyPrefix(events, n);
      InFlightIs(events[..n]);
      assert events == events[..n] + [events[n]];
      if events[n].Started? { OneStarted(events[..n], events[n].repository); } else { OneFinished(events[..n], events[n].repository); }
    }
  }

  lemma NoneRunning()
    ensures Running([]) == {}
  {
  }

  ghost predicate Bounded(events: seq<Event>, most: int) {
    forall n :: 0 <= n <= |events| ==> 0 <= InFlight(events[..n]) <= most
  }

  function Names(s: seq<string>): set<string> {
    set r | r in s
  }

  function Failing(done: set<string>, succeeds: string -> bool): set<string> {
    set r | r in done && !succeeds(r)
  }

  ghost predicate Tasks(events: seq<Event>, tasks: seq<string>, done: set<string>) {
    && Orderly(events) && NoDup(tasks) && InFlight(events) == |tasks|
    && (forall r :: Started(r) in events <==> r in tasks || r in done)
    && (forall r :: Finished(r) in events <==> r in done)
    && forall r :: r in tasks ==> r !in done
  }

  lemma Start(events: seq<Event>, tasks: seq<string>, done: set<string>, most: int, r: string)
    requires Tasks(events, tasks, done) && r !in tasks && r !in done
    requires Bounded(events, most) && |tasks| < most
    ensures Tasks(events + [Started(r)], tasks + [r], done) && Bounded(events + [Started(r)], most)
  {
    hide NoDup;
    var more := events + [Started(r)];
    Extend(events, Started(r), most);
    assert NoDup(tasks + [r]) by { hide *; AddDistinct(tasks, r); }
    forall q ensures Started(q) in more <==> q in tasks + [r] || q in done {
    }
  }

  lemma Finish(events: seq<Event>, tasks: seq<string>, done: set<string>, most: int, i: nat)
    requires Tasks(events, tasks, done) && i < |tasks| && Bounded(events, most)
    ensures Tasks(events + [Finished(tasks[i])], tasks[..i] + tasks[i + 1..], done + {tasks[i]})
    ensures Bounded(events + [Finished(tasks[i])], most)
  {
    hide NoDup;
    var r := tasks[i];
    var left := tasks[..i] + tasks[i + 1..];
    Extend(events, Finished(r), most);
    Without(tasks, i);
  }

  lemma AddDistinct<T>(s: seq<T>, x: T)
    requires NoDup(s) && x !in s
    ensures NoDup(s + [x])
  {
  }

  lemma Without<T>(s: seq<T>, i: nat)
    requires NoDup(s) && i < |s|
    ensures NoDup(s[..i] + s[i + 1..]) && forall x :: x in s[..i] + s[i + 1..] <==> x in s && x != s[i]
  {
    var t := s[..i] + s[i + 1..];
    assert forall k :: 0 <= k < |t| ==> t[k] == s[if k < i then k else k + 1];
    forall x | x in s && x != s[i] ensures x in t {
      var k :| 0 <= k < |s| && s[k] == x;
      assert t[if k < i then k else k - 1] == x;
    }
  }

  lemma Extend(events: seq<Event>, e: Event, most: int)
    requires Orderly(events) && Bounded(events, most) && e !in events
    requires e.Finished? ==> Started(e.repository) in events
    requires 0 <= InFlight(events) + (if e.Started? then 1 else -1) <= most
    ensures Orderly(events + [e]) && Bounded(events + [e], most)
    ensures InFlight(events + [e]) == InFlight(events) + if e.Started? then 1 else -1
  {
    hide InFlight;
    var more := events + [e];
    assert more[..|events|] == events;
    assert InFlight(more) == InFlight(events) + if e.Started? then 1 else -1 by { hide *; CountOne(events, e); }
    forall n | 0 <= n <= |more| ensures 0 <= InFlight(more[..n]) <= most {
      if n <= |events| { assert more[..n] == events[..n]; } else { assert more[..n] == more; }
    }
    forall i | 0 <= i < |more| && more[i].Finished? ensures Started(more[i].repository) in more[..i] {
      assert i < |events| ==> more[..i] == events[..i];
    }
  }

  lemma CountOne(events: seq<Event>, e: Event)
    ensures InFlight(events + [e]) == InFlight(events) + if e.Started? then 1 else -1
  {
    assert (events + [e])[..|events|] == events;
  }

  lemma NothingStarted(most: int)
    requires most >= 0
    ensures Tasks([], [], {}) && Bounded([], most)
  {
  }

  /** One more finished repository. */
  method Count(ghost done: set<string>, r: string, succeeds: string -> bool, failed: nat) returns (now: nat)
    requires r !in done && failed == |Failing(done, succeeds)|
    ensures now == |Failing(done + {r}, succeeds)|
  {
    now := failed;
    assert Failing(done + {r}, succeeds) == Failing(done, succeeds) + if succeeds(r) then {} else {r};
    if !succeeds(r) {
      now := now + 1;
    }
  }

  /** In whatever order the tasks finish: every repository is started once and finished
      once, at no point are more than `maxConcurrent` (and at least one) in flight, and the
      error counts the repositories that failed. */
  method GenerateRepositories(repositories: seq<string>, maxConcurrent: nat, succeeds: string -> bool)
    returns (error: Option<nat>, ghost events: seq<Event>)
    requires NoDup(repositories)
    ensures Orderly(events) && Bounded(events, if maxConcurrent > 1 then maxConcurrent else 1)
    ensures forall r :: Started(r) in events <==> r in repositories
    ensures forall r :: Finished(r) in events <==> r in repositories
    ensures
      var failing := |Failing(Names(repositories), succeeds)|;
      error == if failing == 0 then None else Some(failing)
    ensures error.None? <==> forall r :: r in repositories ==> succeeds(r)
    ensures error.Some? ==> error.value == |set r | r in repositories && !succeeds(r)|
    ensures forall n :: 0 <= n <= |events| ==> |Running(events[..n])| <= if maxConcurrent > 1 then maxConcurrent else 1
  {
    hide Orderly, Bounded, InFlight, Tasks, Failing, Accounted;
    var tasks: seq<string> := [];
    var failed := 0;
    ghost var done: set<string> := {};
    ghost var most := if maxConcurrent > 1 then maxConcurrent else 1;
    events := [];
    NothingStarted(most);
    AccountNone();
    assert Failing({}, succeeds) == {} by { hide *; FailingNone(succeeds); }
    for n := 0 to |repositories|
      invariant Tasks(events, tasks, done) && Bounded(events, most)
      invariant |tasks| < most
      invariant failed == |Failing(done, succeeds)|
      invariant Accounted(repositories[..n], tasks, done)
    {
      var r := repositories[n];
      assert r !in repositories[..n];
      assert repositories[..n + 1] == repositories[..n] + [r];
      assert r !in tasks && r !in done by { hide *; NotAccounted(repositories[..n], tasks, done, r); }
      Start(events, tasks, done, most, r);
      AccountStart(repositories[..n], tasks, done, r);
      events, tasks := events + [Started(r)], tasks + [r];
      if |tasks| >= maxConcurrent {
        var i :| 0 <= i < |tasks|;
        InTasks(events, tasks, done, i);
        failed := Count(done, tasks[i], succeeds, failed);
        Finish(events, tasks, done, most, i);
        AccountFinish(repositories[..n + 1], tasks, done, i);
        events, done := events + [Finished(tasks[i])], done + {tasks[i]};
        tasks := tasks[..i] + tasks[i + 1..];
      }
    }
    assert repositories[..|repositories|] == repositories;
    while tasks != []
      invariant Tasks(events, tasks, done) && Bounded(events, most)
      invariant failed == |Failing(done, succeeds)|
      invariant Accounted(repositories, tasks, done)
      decreases |tasks|
    {
      InTasks(events, tasks, done, 0);
      failed := Count(done, tasks[0], succeeds, failed);
      Finish(events, tasks, done, most, 0);
      AccountFinish(repositories, tasks, done, 0);
      events, done := events + [Finished(tasks[0])], done + {tasks[0]};
      assert tasks[..0] + tasks[1..] == tasks[1..];
      tasks := tasks[1..];
    }
    Ended(events, done);
    assert done == Names(repositories) && forall r :: r in done <==> r in repositories by { hide *; AllAccounted(repositories, done); }
    error := if failed > 0 then Some(failed) else None;
    Summary(repositories, succeeds, events, most);
  }

  ghost predicate Accounted(repositories: seq<string>, tasks: seq<string>, done: set<string>) {
    forall r :: r in repositories <==> r in tasks || r in done
  }

  lemma AccountStart(repositories: seq<string>, tasks: seq<string>, done: set<string>, r: string)
    requires Accounted(repositories, tasks, done)
    ensures Accounted(repositories + [r], tasks + [r], done)
  {
  }

  lemma AccountFinish(repositories: seq<string>, tasks: seq<string>, done: set<string>, i: nat)
    requires Accounted(repositories, tasks, done) && i < |tasks|
    ensures Accounted(repositories, tasks[..i] + tasks[i + 1..], done + {tasks[i]})
  {
    assert tasks == tasks[..i] + [tasks[i]] + tasks[i + 1..];
  }

  lemma NotAccounted(repositories: seq<string>, tasks: seq<string>, done: set<string>, r: string)
    requires Accounted(repositories, tasks, done) && r !in repositories
    ensures r !in tasks && r !in done
  {
  }

  lemma AccountNone()
    ensures Accounted([], [], {})
  {
  }

  lemma AllAccounted(repositories: seq<string>, done: set<string>)
    requires Accounted(repositories, [], done)
    ensures done == Names(repositories) && forall r :: r in done <==> r in repositories
  {
  }

  lemma FailingNone(succeeds: string -> bool)
    ensures Failing({}, succeeds) == {}
  {
  }

  lemma Summary(repositories: seq<string>, succeeds: string -> bool, events: seq<Event>, most: nat)
    requires Orderly(events) && Bounded(events, most)
    ensures Failing(Names(repositories), succeeds) == set r | r in repositories && !succeeds(r)
    ensures Failing(Names(repositories), succeeds) == {} <==> forall r :: r in repositories ==> succeeds(r)
    ensures forall n :: 0 <= n <= |events| ==> |Running(events[..n])| <= most
  {
    hide Running, InFlight;
    if !forall r :: r in repositories ==> succeeds(r) {
      var r :| r in repositories && !succeeds(r);
      assert r in Failing(Names(repositories), succeeds);
    }
    forall n | 0 <= n <= |events| ensures |Running(events[..n])| <= most {
      OrderlyPrefix(events, n);
      InFlightIs(events[..n]);
    }
  }

  lemma InTasks(events: seq<Event>, tasks: seq<string>, done: set<string>, i: nat)
    requires Tasks(events, tasks, done) && i < |tasks|
    ensures tasks[i] !in done
  {
    assert tasks[i] in tasks;
  }

  lemma Ended(events: seq<Event>, done: set<string>)
    requires Tasks(events, [], done)
    ensures Orderly(events) && forall r :: (Started(r) in events <==> r in done) && (Finished(r) in events <==> r in done)
  {
  }
}
