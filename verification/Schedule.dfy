/** Scheduling: one regular item, a batch of them, and an item scheduled by hand. */
module Schedule {
  import opened Common
  import opened Queue
  import opened Estimate

  datatype Candidate = Candidate(value: Option<int>, successChance: Option<real>, command: string, context: Option<string>)

  /** What the database holds besides the queue, and what it computes from it: averages of
      run durations, and a codebase's share of the largest value (none for an unknown
      codebase, nothing at all when the division fails). */
  datatype Environment = Environment(
    candidates: map<Key, Candidate>,
    runs: (string, string) -> seq<Run>,
    pairAverage: (string, string) -> Option<int>,
    codebaseAverage: string -> Option<int>,
    campaignAverage: string -> Option<int>,
    normalized: string -> Option<Option<real>>)

  datatype Error = CandidateUnavailable | Sql | Panic

  datatype Outcome<T> = Done(value: T) | Failed(error: Error)

  /** The arguments of `do_schedule_regular` that are not fixed by the key. */
  datatype Request = Request(
    key: Key, command: Option<string>, value: Option<real>, successChance: Option<real>, normalized: Option<real>,
    context: Option<string>, requester: Option<string>)

  // ----- One regular item

  predicate NeedsCandidate(r: Request) {
    r.value.None? || r.successChance.None? || r.command.None?
  }

  /** The request with what the candidate adds to it. */
  function Completed(env: Environment, r: Request): Outcome<Request> {
    if !NeedsCandidate(r) then Done(r)
    else if r.key !in env.candidates then Failed(CandidateUnavailable)
    else
      var c := env.candidates[r.key];
      Done(r.(
        value := if r.value.Some? then r.value else if c.value.Some? then Some(c.value.value as real) else None,
        successChance := if r.successChance.Some? then r.successChance else c.successChance,
        command := Some(r.command.GetOr(c.command)),
        context := if r.context.Some? then r.context else c.context))
  }

  ghost function DurationOf(env: Environment, key: Key): int {
    EstimatedDuration(env.runs(key.codebase, key.suite), env.codebaseAverage(key.codebase), env.campaignAverage(key.suite))
  }

  ghost function CostOverValue(env: Environment, r: Request, normalized: Option<real>): Option<real> {
    var runs := env.runs(r.key.codebase, r.key.suite);
    CalculateOffset(DurationOf(env, r.key), normalized, Probability(runs, r.context), r.value, |Counted(runs)|)
  }

  /** The call of `add` that a request leads to, or why there is none. */
  ghost function Planned(env: Environment, request: Request, defaultOffset: real, bucket: Bucket, refresh: bool): Outcome<Call> {
    var completed := Completed(env, request);
    if completed.Failed? then Failed(completed.error) else
    var r := completed.value;
    if DurationOf(env, r.key) < 0 then Failed(Panic) else
    var normalized := if r.normalized.Some? then Some(r.normalized) else env.normalized(r.key.codebase);
    if normalized.None? then Failed(Sql) else
    var offset := CostOverValue(env, r, normalized.value);
    if offset.None? || r.command.GetOr("") == "" then Failed(Panic) else
    Done(Call(r.key, bucket, defaultOffset + offset.value,
      Payload(r.context, Some(DurationOf(env, r.key)), refresh, Some(r.requester.GetOr("scheduler")), r.command.value)))
  }

  /** Nothing happens on a failed plan or a dry run; otherwise the planned call is made,
      and the outcome is an error if and only if the database does not accept it. */
  ghost predicate RegularResult(planned: Outcome<Call>, dryRun: bool, before: Table, id: nat, after: Table,
      outcome: Outcome<(real, int, int, Bucket)>)
  {
    match planned
    case Failed(e) => outcome == Failed(e) && after == before
    case Done(call) =>
      if dryRun then
        outcome == Done((call.offset, call.payload.duration.GetOr(0), -1, call.bucket)) && after == before
      else if Accepted(before, call) then
        && after == AfterAdd(before, id, call) && call.key in after
        && outcome == Done((call.offset, call.payload.duration.GetOr(0), after[call.key].id, after[call.key].bucket))
      else
        outcome == Failed(Sql) && after == before
  }

  method DoScheduleRegular(env: Environment, queue: Queue, request: Request, defaultOffset: real, bucket: Option<Bucket>, refresh: bool, dryRun: bool)
    returns (outcome: Outcome<(real, int, int, Bucket)>)
    requires queue.Valid()
    modifies queue
    ensures queue.Valid() && queue.nextId <= old(queue.nextId) + 1
    ensures outcome.Done? && !dryRun ==> queue.nextId == old(queue.nextId) + 1
    ensures RegularResult(Planned(env, request, defaultOffset, bucket.GetOr(Default), refresh), dryRun,
                          old(queue.rows), old(queue.nextId), queue.rows, outcome)
  {
    hide EstimatedDuration, Probability, Counted, CalculateOffset, ValidTable, Accepted, AfterAdd;
    var completed := Completed(env, request);
    if completed.Failed? {
      return Failed(completed.error);
    }
    var r := completed.value;
    var codebase, suite := r.key.codebase, r.key.suite;
    var probability, duration, total :=
      EstimateSuccess(env.runs(codebase, suite), r.context, env.codebaseAverage(codebase), env.campaignAverage(suite));
    if duration < 0 {
      return Failed(Panic);
    }
    var normalized := r.normalized;
    if normalized.None? {
      var fetched := env.normalized(codebase);
      if fetched.None? {
        return Failed(Sql);
      }
      normalized := fetched.value;
    }
    var offset := CalculateOffset(duration, normalized, probability, r.value, total);
    if offset.None? {
      return Failed(Panic);
    }
    var actual, command := bucket.GetOr(Default), r.command.GetOr("");
    if command == "" {
      return Failed(Panic);
    }
    if dryRun {
      return Done((defaultOffset + offset.value, duration, -1, actual));
    }
    var call := Call(r.key, actual, defaultOffset + offset.value,
      Payload(r.context, Some(duration), refresh, Some(r.requester.GetOr("scheduler")), command));
    AcceptedKept(queue.rows, queue.nextId, call);
    var answer := queue.Add(call);
    outcome := if answer.None? then Failed(Sql) else Done((call.offset, duration, answer.value.0, answer.value.1));
  }

  lemma AcceptedKept(rows: Table, id: nat, call: Call)
    ensures if Accepted(rows, call) then call.key in AfterAdd(rows, id, call) else AfterAdd(rows, id, call) == rows
  {
  }

  // ----- A batch

  datatype BulkRequest = BulkRequest(key: Key, command: string, context: string, value: int, successChance: real)

  /** The largest value of a codebase, when it is positive. */
  ghost predicate IsMaximum(values: map<string, int>, m: Option<int>) {
    match m
    case None => forall c :: c in values ==> values[c] <= 0
    case Some(v) => v > 0 && (exists c :: c in values && values[c] == v) && forall c :: c in values ==> values[c] <= v
  }

  method MaximumValue(values: map<string, int>) returns (m: Option<int>)
    ensures IsMaximum(values, m)
  {
    m := None;
    var left := values.Keys;
    while left != {}
      invariant left <= values.Keys
      invariant IsMaximum(map c | c in values && c !in left :: values[c], m)
    {
      var c :| c in left;
      left := left - {c};
      ghost var seen := map d | d in values && d !in left :: values[d];
      assert seen[c] == values[c];
      if values[c] > m.GetOr(0) {
        m := Some(values[c]);
      } else if m.Some? {
        var d :| d in values && d !in left + {c} && values[d] == m.value;
        assert seen[d] == m.value;
      }
    }
    assert (map c | c in values && c !in left :: values[c]) == values;
  }

  predicate SameCodebaseBefore(todo: seq<BulkRequest>, i: nat)
    requires i < |todo|
  {
    exists j :: 0 <= j < i && todo[j].key.codebase == todo[i].key.codebase
  }

  function Share(value: int, maximum: int): real
    requires maximum > 0
  {
    var share := value as real / maximum as real;
    if share <= 1.0 then share else 1.0
  }

  /** A codebase's value counts for its first request only. */
  function NormalizedFor(values: map<string, int>, maximum: Option<int>, todo: seq<BulkRequest>, i: nat): real
    requires i < |todo| && (maximum.Some? ==> maximum.value > 0)
  {
    if maximum.None? then 1.0
    else if todo[i].key.codebase in values && !SameCodebaseBefore(todo, i) then Share(values[todo[i].key.codebase], maximum.value)
    else Share(0, maximum.value)
  }

  /** In numbers: the first request of a codebase gets the share of its value in the largest
      one, at most one; later ones, and those of a codebase without a value, get nothing;
      and everything gets one when no value is positive. */
  lemma NormalizedIs(values: map<string, int>, maximum: Option<int>, todo: seq<BulkRequest>, i: nat)
    requires i < |todo| && IsMaximum(values, maximum)
    ensures
      var codebase, normalized := todo[i].key.codebase, NormalizedFor(values, maximum, todo, i);
      if forall c :: c in values ==> values[c] <= 0 then normalized == 1.0
      else
        && maximum.Some? && maximum.value > 0
        && if codebase in values && forall j :: 0 <= j < i ==> todo[j].key.codebase != codebase
           then normalized == values[codebase] as real / maximum.value as real <= 1.0
           else normalized == 0.0
  {
    if maximum.Some? && todo[i].key.codebase in values {
      var x, y := values[todo[i].key.codebase] as real, maximum.value as real;
      assert x <= y;
      QuotientOrder(x, y, y);
      assert y / y == 1.0;
    }
  }

  /** What stays the same during a batch. */
  datatype Batch = Batch(
    env: Environment, values: map<string, int>, todo: seq<BulkRequest>,
    defaultOffset: real, bucket: Bucket, requester: Option<string>, refresh: bool)

  function RequestFor(b: Batch, normalized: real, r: BulkRequest): Request {
    Request(r.key, Some(r.command), Some(r.value as real), Some(r.successChance), Some(normalized), Some(r.context), b.requester)
  }

  ghost function PlannedAt(b: Batch, maximum: Option<int>, i: nat): Outcome<Call>
    requires i < |b.todo| && IsMaximum(b.values, maximum)
  {
    Planned(b.env, RequestFor(b, NormalizedFor(b.values, maximum, b.todo, i), b.todo[i]), b.defaultOffset, b.bucket, b.refresh)
  }

  ghost function TableAfterCalls(rows: Table, id: nat, calls: seq<Call>): Table
    decreases |calls|
  {
    if calls == [] then rows
    else AfterAdd(TableAfterCalls(rows, id, calls[..|calls| - 1]), id + |calls| - 1, calls[|calls| - 1])
  }

  ghost predicate AllAccepted(rows: Table, id: nat, calls: seq<Call>) {
    forall i :: 0 <= i < |calls| ==> Accepted(TableAfterCalls(rows, id, calls[..i]), calls[i])
  }

  ghost predicate PlannedCalls(b: Batch, maximum: Option<int>, calls: seq<Call>) {
    && IsMaximum(b.values, maximum) && |calls| <= |b.todo|
    && forall i :: 0 <= i < |calls| ==> PlannedAt(b, maximum, i) == Done(calls[i])
  }

  lemma OneMoreCall(rows: Table, id: nat, calls: seq<Call>, call: Call)
    requires AllAccepted(rows, id, calls) && Accepted(TableAfterCalls(rows, id, calls), call)
    ensures AllAccepted(rows, id, calls + [call])
    ensures TableAfterCalls(rows, id, calls + [call]) == AfterAdd(TableAfterCalls(rows, id, calls), id + |calls|, call)
  {
    hide Accepted, AfterAdd, TableAfterCalls;
    var more := calls + [call];
    assert more[..|calls|] == calls;
    forall i | 0 <= i < |more| ensures Accepted(TableAfterCalls(rows, id, more[..i]), more[i]) {
      if i < |calls| { assert more[..i] == calls[..i] && more[i] == calls[i]; }
    }
    assert TableAfterCalls(rows, id, more) == AfterAdd(TableAfterCalls(rows, id, more[..|calls|]), id + |calls|, call) by {
      hide *;
      Unfold(rows, id, more);
    }
  }

  lemma Unfold(rows: Table, id: nat, calls: seq<Call>)
    requires calls != []
    ensures TableAfterCalls(rows, id, calls)
      == AfterAdd(TableAfterCalls(rows, id, calls[..|calls| - 1]), id + |calls| - 1, calls[|calls| - 1])
  {
  }

  /** The batch stops at the first request that fails; those before it stay in the queue.
      It is done if and only if none fails. */
  method BulkAddToQueue(queue: Queue, b: Batch, dryRun: bool) returns (outcome: Outcome<()>, ghost maximum: Option<int>, ghost calls: seq<Call>)
    requires queue.Valid()
    modifies queue
    ensures queue.Valid()
    ensures PlannedCalls(b, maximum, calls) && (outcome.Done? <==> |calls| == |b.todo|)
    ensures dryRun ==> queue.rows == old(queue.rows)
    ensures !dryRun ==> queue.rows == TableAfterCalls(old(queue.rows), old(queue.nextId), calls)
    ensures !dryRun ==> AllAccepted(old(queue.rows), old(queue.nextId), calls)
    ensures outcome.Failed? ==>
      var next := PlannedAt(b, maximum, |calls|);
      if next.Failed? then outcome.error == next.error
      else !dryRun && outcome.error == Sql && !Accepted(queue.rows, next.value)
  {
    hide Planned, IsMaximum, ValidTable, Accepted, AfterAdd, TableAfterCalls, AllAccepted, Share;
    var left := b.values;
    var max := MaximumValue(b.values);
    maximum, calls := max, [];
    ghost var rows, id := queue.rows, queue.nextId;
    assert TableAfterCalls(rows, id, []) == rows && AllAccepted(rows, id, []) by { hide *; NoCallsYet(rows, id); }
    for i := 0 to |b.todo|
      invariant queue.Valid() && |calls| == i && PlannedCalls(b, max, calls)
      invariant forall c :: c in left <==> c in b.values && (max.Some? ==> forall j :: 0 <= j < i ==> b.todo[j].key.codebase != c)
      invariant forall c :: c in left ==> left[c] == b.values[c]
      invariant dryRun ==> queue.rows == rows
      invariant !dryRun ==> queue.nextId == id + i && queue.rows == TableAfterCalls(rows, id, calls)
      invariant !dryRun ==> AllAccepted(rows, id, calls)
    {
      var r := b.todo[i];
      var normalized := 1.0;
      if max.Some? {
        normalized := Share(if r.key.codebase in left then left[r.key.codebase] else 0, max.value);
        left := left - {r.key.codebase};
      }
      assert normalized == NormalizedFor(b.values, max, b.todo, i);
      var request := RequestFor(b, normalized, r);
      var one := DoScheduleRegular(b.env, queue, request, b.defaultOffset, Some(b.bucket), b.refresh, dryRun);
      if one.Failed? {
        return Failed(one.error), max, calls;
      }
      ghost var call := PlannedAt(b, max, i).value;
      if !dryRun {
        OneMoreCall(rows, id, calls, call);
      }
      calls := calls + [call];
    }
    outcome := Done(());
  }

  lemma NoCallsYet(rows: Table, id: nat)
    ensures TableAfterCalls(rows, id, []) == rows && AllAccepted(rows, id, [])
  {
  }

  // ----- The order of a batch

  function Offset(calls: seq<Call>, i: nat): int
    requires i < |calls|
  {
    Truncate(calls[i].offset)
  }

  /** Distinct keys that are not in the queue, one bucket, no negative offset. */
  ghost predicate FreshBatch(rows: Table, calls: seq<Call>) {
    && (forall i :: 0 <= i < |calls| ==> calls[i].key !in rows && Offset(calls, i) >= 0)
    && (forall i, j :: 0 <= i < j < |calls| ==> calls[i].key != calls[j].key && calls[i].bucket == calls[j].bucket)
  }

  /** What the offset of call `i` is relative to. */
  ghost function BaseAt(rows: Table, calls: seq<Call>, i: nat): int
    requires i <= |calls|
  {
    if rows == map[] && i > 0 then Offset(calls, 0) else Base(rows)
  }

  ghost predicate RowsOf(rows: Table, id: nat, calls: seq<Call>, after: Table) {
    && (forall k :: k in rows ==> k in after && after[k] == rows[k])
    && (forall i :: 0 <= i < |calls| ==> calls[i].key in after && after[calls[i].key] == NewRow(rows, id, calls, i))
    && (forall k :: k in after ==> k in rows || exists i :: 0 <= i < |calls| && calls[i].key == k)
  }

  ghost function NewRow(rows: Table, id: nat, calls: seq<Call>, i: nat): Row
    requires i < |calls|
  {
    Row(id + i, calls[i].key, calls[i].bucket, BaseAt(rows, calls, i) + Offset(calls, i), calls[i].payload)
  }

  lemma FreshPrefix(rows: Table, id: nat, calls: seq<Call>)
    requires calls != [] && FreshBatch(rows, calls) && AllAccepted(rows, id, calls)
    ensures FreshBatch(rows, calls[..|calls| - 1]) && AllAccepted(rows, id, calls[..|calls| - 1])
    ensures Accepted(TableAfterCalls(rows, id, calls[..|calls| - 1]), calls[|calls| - 1])
  {
    hide Accepted, TableAfterCalls;
    var before := calls[..|calls| - 1];
    forall i | 0 <= i < |before| ensures calls[i].key !in rows && Offset(before, i) == Offset(calls, i) >= 0 && before[..i] == calls[..i] {
    }
  }

  lemma {:induction false} BatchRows(rows: Table, id: nat, calls: seq<Call>)
    requires ValidTable(rows, id) && FreshBatch(rows, calls) && AllAccepted(rows, id, calls)
    ensures RowsOf(rows, id, calls, TableAfterCalls(rows, id, calls))
    ensures ValidTable(TableAfterCalls(rows, id, calls), id + |calls|)
    ensures Base(TableAfterCalls(rows, id, calls)) == BaseAt(rows, calls, |calls|)
    decreases |calls|
  {
    hide Accepted, AllAccepted, AfterAdd, Base, ValidTable, TableAfterCalls, RowsOf, FreshBatch;
    if calls == [] {
      NoCallsYet(rows, id);
      assert RowsOf(rows, id, calls, rows) by { hide *; NoRows(rows, id); assert calls == []; }
    } else {
      var n := |calls| - 1;
      var before := TableAfterCalls(rows, id, calls[..n]);
      FreshPrefix(rows, id, calls);
      BatchRows(rows, id, calls[..n]);
      Unfold(rows, id, calls);
      AddKeepsValid(before, id + n, calls[n]);
      BaseOfPrefix(rows, calls);
      AddRow(rows, id, calls, before);
      BaseAfterAdd(rows, id, calls, before);
    }
  }

  lemma NoRows(rows: Table, id: nat)
    ensures RowsOf(rows, id, [], rows)
  {
  }

  lemma BaseOfPrefix(rows: Table, calls: seq<Call>)
    requires calls != []
    ensures forall i: nat :: i < |calls| ==> BaseAt(rows, calls[..|calls| - 1], i) == BaseAt(rows, calls, i)
  {
    hide Base, Truncate;
    var before := calls[..|calls| - 1];
    assert before != [] ==> before[0] == calls[0];
  }

  lemma AddRow(rows: Table, id: nat, calls: seq<Call>, before: Table)
    requires calls != [] && FreshBatch(rows, calls)
    requires RowsOf(rows, id, calls[..|calls| - 1], before) && Accepted(before, calls[|calls| - 1])
    requires Base(before) == BaseAt(rows, calls, |calls| - 1)
    requires forall i: nat :: i < |calls| ==> BaseAt(rows, calls[..|calls| - 1], i) == BaseAt(rows, calls, i)
    ensures RowsOf(rows, id, calls, AfterAdd(before, id + |calls| - 1, calls[|calls| - 1]))
    ensures calls[|calls| - 1].key !in before && Offset(calls, |calls| - 1) >= 0
    ensures AfterAdd(before, id + |calls| - 1, calls[|calls| - 1]) == before[calls[|calls| - 1].key := NewRow(rows, id, calls, |calls| - 1)]
  {
    hide Base, BaseAt, Truncate, RowsOf;
    var n := |calls| - 1;
    var call := calls[n];
    NotYetThere(rows, id, calls, before);
    OneMoreRow(rows, id, calls, before);
    assert AfterAdd(before, id + n, call) == before[call.key := NewRow(rows, id, calls, n)];
  }

  lemma NotYetThere(rows: Table, id: nat, calls: seq<Call>, before: Table)
    requires calls != [] && FreshBatch(rows, calls) && RowsOf(rows, id, calls[..|calls| - 1], before)
    ensures calls[|calls| - 1].key !in before && Offset(calls, |calls| - 1) >= 0
  {
    hide Truncate, NewRow;
    var n := |calls| - 1;
    assert forall i :: 0 <= i < n ==> calls[..n][i] == calls[i];
  }

  lemma OneMoreRow(rows: Table, id: nat, calls: seq<Call>, before: Table)
    requires calls != [] && FreshBatch(rows, calls) && RowsOf(rows, id, calls[..|calls| - 1], before)
    requires calls[|calls| - 1].key !in before
    requires forall i: nat :: i < |calls| ==> BaseAt(rows, calls[..|calls| - 1], i) == BaseAt(rows, calls, i)
    ensures RowsOf(rows, id, calls, before[calls[|calls| - 1].key := NewRow(rows, id, calls, |calls| - 1)])
  {
    hide Base, BaseAt, Truncate;
    var n := |calls| - 1;
    var some, call := calls[..n], calls[n];
    var after := before[call.key := NewRow(rows, id, calls, n)];
    forall i | 0 <= i < n ensures NewRow(rows, id, some, i) == NewRow(rows, id, calls, i) && some[i] == calls[i] && calls[i].key != call.key {
    }
    hide NewRow, FreshBatch;
    forall i | 0 <= i < |calls| ensures calls[i].key in after && after[calls[i].key] == NewRow(rows, id, calls, i) {
      if i < n { assert some[i] == calls[i]; }
    }
    forall k | k in after ensures k in rows || exists i :: 0 <= i < |calls| && calls[i].key == k {
      if k in before && k !in rows {
        var i :| 0 <= i < |some| && some[i].key == k;
        assert calls[i].key == k;
      } else if k !in before {
        assert calls[n].key == k;
      }
    }
  }

  lemma BaseAfterAdd(rows: Table, id: nat, calls: seq<Call>, before: Table)
    requires calls != [] && RowsOf(rows, id, calls[..|calls| - 1], before)
    requires calls[|calls| - 1].key !in before && Offset(calls, |calls| - 1) >= 0
    requires Base(before) == BaseAt(rows, calls, |calls| - 1)
    ensures Base(before[calls[|calls| - 1].key := NewRow(rows, id, calls, |calls| - 1)]) == BaseAt(rows, calls, |calls|)
  {
    hide Base, Truncate, RowsOf;
    var n := |calls| - 1;
    var row := NewRow(rows, id, calls, n);
    var after := before[calls[n].key := row];
    assert IsBase(before, Base(before));
    EmptyBefore(rows, id, calls[..n], before);
    var m := BaseAt(rows, calls, |calls|);
    if before == map[] {
      assert after[calls[n].key].priority == m;
    } else {
      var k :| k in before && before[k].priority == Base(before);
      assert after[k].priority == m;
    }
    assert IsBase(after, m);
    BaseUnique(after, m);
  }

  lemma EmptyBefore(rows: Table, id: nat, calls: seq<Call>, before: Table)
    requires RowsOf(rows, id, calls, before)
    ensures before == map[] <==> rows == map[] && calls == []
  {
    hide NewRow;
    if before != map[] {
      var k :| k in before;
    }
    if rows != map[] {
      var k :| k in rows;
      assert k in before;
    }
    if calls != [] { assert calls[0].key in before; }
  }

  ghost predicate Sooner(calls: seq<Call>, i: nat, j: nat)
    requires i < |calls| && j < |calls|
  {
    Offset(calls, i) < Offset(calls, j) || (Offset(calls, i) == Offset(calls, j) && i < j)
  }

  /** With something in the queue, a batch leaves its smallest priority and its rows
      alone, and the new rows are in the order of the truncated offsets, and for equal
      ones in the order of the batch. */
  lemma BatchOrder(rows: Table, id: nat, calls: seq<Call>)
    requires ValidTable(rows, id) && FreshBatch(rows, calls) && AllAccepted(rows, id, calls) && rows != map[]
    ensures
      var after := TableAfterCalls(rows, id, calls);
      && Base(after) == Base(rows)
      && (forall k :: k in rows ==> k in after && after[k] == rows[k])
      && (forall i :: 0 <= i < |calls| ==> calls[i].key in after)
      && forall i: nat, j: nat :: i < |calls| && j < |calls| && i != j ==>
          (Precedes(after[calls[i].key], after[calls[j].key]) <==> Sooner(calls, i, j))
  {
    hide AllAccepted, TableAfterCalls, ValidTable, Base, Truncate;
    BatchRows(rows, id, calls);
  }

  /** Into an empty queue, the first row becomes what the others are relative to: it comes
      first whatever its offset, so that order holds if and only if no offset is smaller. */
  lemma EmptyQueueOrder(id: nat, calls: seq<Call>)
    requires FreshBatch(map[], calls) && AllAccepted(map[], id, calls)
    ensures
      var after := TableAfterCalls(map[], id, calls);
      && (forall i :: 0 <= i < |calls| ==> calls[i].key in after)
      && (InOrder(calls, after) <==> forall j :: 0 <= j < |calls| ==> Offset(calls, 0) <= Offset(calls, j))
  {
    hide AllAccepted, TableAfterCalls, ValidTable, Truncate;
    assert ValidTable(map[], id) by { hide *; EmptyIsValid(id); }
    BatchRows(map[], id, calls);
    var after := TableAfterCalls(map[], id, calls);
    assert Base(map[]) == 0;
    hide Base;
    forall i: nat, j: nat | i < |calls| && j < |calls| && i != j
      ensures Precedes(after[calls[i].key], after[calls[j].key]) <==> (i == 0 || (j != 0 && Sooner(calls, i, j)))
    {
      assert after[calls[i].key] == NewRow(map[], id, calls, i) && after[calls[j].key] == NewRow(map[], id, calls, j);
    }
    hide Precedes, NewRow, FreshBatch, RowsOf;
    if InOrder(calls, after) {
      forall j | 0 <= j < |calls| ensures Offset(calls, 0) <= Offset(calls, j) {
        if j > 0 { assert Precedes(after[calls[0].key], after[calls[j].key]); }
      }
    }
  }

  lemma FirstInserted(call: Call)
    requires Accepted(map[], call) && Truncate(call.offset) == 2
    ensures AfterAdd(map[], 0, call) == map[call.key := Row(0, call.key, call.bucket, 2, call.payload)]
  {
    BaseUnique(map[], 0);
  }

  /** For instance, not if the second offset is the smaller one. */
  lemma EmptyQueueOutOfOrder(first: Call, second: Call)
    requires first.key != second.key && first.bucket == second.bucket
    requires first.payload.command != "" && second.payload.command != "" && first.offset == 2.0 && second.offset == 1.0
    ensures
      var calls := [first, second];
      && FreshBatch(map[], calls) && AllAccepted(map[], 0, calls)
      && (forall i :: 0 <= i < |calls| ==> calls[i].key in TableAfterCalls(map[], 0, calls))
      && !InOrder(calls, TableAfterCalls(map[], 0, calls))
  {
    hide InOrder, AfterAdd, Base;
    var calls := [first, second];
    assert Truncate(2.0) == 2 && Truncate(1.0) == 1;
    assert Offset(calls, 0) == 2 && Offset(calls, 1) == 1;
    assert calls[..0] == [] && calls[..1] == [first] && [first][..0] == [];
    assert Accepted(map[], first);
    var after := AfterAdd(map[], 0, first);
    assert TableAfterCalls(map[], 0, [first]) == after;
    assert after == map[first.key := Row(0, first.key, first.bucket, 2, first.payload)] by { FirstInserted(first); }
    assert IsBase(after, 2) by { assert after[first.key].priority == 2; }
    BaseUnique(after, 2);
    EmptyQueueOrder(0, calls);
  }

  ghost predicate InOrder(calls: seq<Call>, after: Table)
    requires forall i :: 0 <= i < |calls| ==> calls[i].key in after
  {
    forall i: nat, j: nat :: i < |calls| && j < |calls| && i != j ==>
      (Precedes(after[calls[i].key], after[calls[j].key]) <==> Sooner(calls, i, j))
  }

  /** The batch was handed out in that order: whatever is asked for next, of two rows of
      the batch the sooner one comes first. */
  lemma HandedOutInOrder(rows: Table, id: nat, calls: seq<Call>, address: string -> Address, s: seq<Row>, p: nat, q: nat, i: nat, j: nat)
    requires ValidTable(rows, id) && FreshBatch(rows, calls) && AllAccepted(rows, id, calls) && rows != map[]
    requires IsListing(TableAfterCalls(rows, id, calls), NO_FILTER, address, s)
    requires i < |calls| && j < |calls| && i != j && p < |s| && q < |s|
    requires s[p].key == calls[i].key && s[q].key == calls[j].key
    ensures p < q <==> Sooner(calls, i, j)
  {
    hide AllAccepted, TableAfterCalls, ValidTable, Base, Truncate, FreshBatch, Rank;
    var after := TableAfterCalls(rows, id, calls);
    BatchOrder(rows, id, calls);
    KeysDiffer(rows, calls, i, j);
    assert s[p] == after[calls[i].key] && s[q] == after[calls[j].key];
    if p < q { assert Precedes(s[p], s[q]); } else { assert Precedes(s[q], s[p]); }
  }

  lemma KeysDiffer(rows: Table, calls: seq<Call>, i: nat, j: nat)
    requires FreshBatch(rows, calls) && i < |calls| && j < |calls| && i != j
    ensures calls[i].key != calls[j].key
  {
    if j < i { assert calls[j].key != calls[i].key; }
  }

  lemma EmptyIsValid(id: nat)
    ensures ValidTable(map[], id)
  {
  }

  /** What a planned call asks for: the cost over the value, on top of the default offset. */
  lemma PlannedOffset(env: Environment, request: Request, defaultOffset: real, bucket: Bucket, refresh: bool)
    requires Planned(env, request, defaultOffset, bucket, refresh).Done?
    ensures
      var call := Planned(env, request, defaultOffset, bucket, refresh).value;
      && call.key == request.key && call.bucket == bucket && call.payload.command != ""
      && call.offset > defaultOffset
      && (request.value.None? || request.successChance.None? || request.command.None? ==> request.key in env.candidates)
      && call.payload.command == (if request.command.Some? then request.command.value else env.candidates[request.key].command)
      && call.payload.context == ContextFor(env, request) && call.payload.refresh == refresh
      && call.payload.duration == Some(DurationOf(env, request.key))
      && call.payload.requester == (if request.requester.Some? then request.requester else Some("scheduler"))
      && exists normalized :: IsNormalized(env, request, normalized) &&
           call.offset == defaultOffset + Cost(DurationOf(env, request.key)) / EstimatedValue(normalized,
             Probability(env.runs(request.key.codebase, request.key.suite), ContextFor(env, request)),
             CandidateValue(ValueFor(env, request), |Counted(env.runs(request.key.codebase, request.key.suite))|))
  {
    hide Cost, EstimatedValue, Probability, Counted, EstimatedDuration, CandidateValue;
    var r := Completed(env, request).value;
    var runs := env.runs(r.key.codebase, r.key.suite);
    var normalized := if r.normalized.Some? then r.normalized else env.normalized(r.key.codebase).value;
    ProbabilityInRange(runs, r.context);
    OffsetExists(DurationOf(env, r.key), normalized, Probability(runs, r.context), r.value, |Counted(runs)|);
    assert IsNormalized(env, request, normalized);
  }

  /** The candidate's context counts when it is needed for something and none is given. */
  ghost function ContextFor(env: Environment, request: Request): Option<string> {
    if request.context.None? && (request.value.None? || request.successChance.None? || request.command.None?) && request.key in env.candidates
    then env.candidates[request.key].context
    else request.context
  }

  /** And its value when none is given. */
  ghost function ValueFor(env: Environment, request: Request): Option<real> {
    if request.value.Some? || request.key !in env.candidates || env.candidates[request.key].value.None? then request.value
    else Some(env.candidates[request.key].value.value as real)
  }

  ghost predicate IsNormalized(env: Environment, request: Request, normalized: Option<real>) {
    if request.normalized.Some? then normalized == request.normalized else env.normalized(request.key.codebase) == Some(normalized)
  }

  /** And why there is none: the candidate is needed and missing, the share cannot be
      computed, or an assertion fails. */
  lemma PlanFails(env: Environment, request: Request, defaultOffset: real, bucket: Bucket, refresh: bool)
    ensures
      var planned := Planned(env, request, defaultOffset, bucket, refresh);
      var missing := (request.value.None? || request.successChance.None? || request.command.None?) && request.key !in env.candidates;
      var duration := DurationOf(env, request.key);
      && (planned == Failed(CandidateUnavailable) <==> missing)
      && (planned == Failed(Sql) <==> !missing && duration >= 0 && request.normalized.None? && env.normalized(request.key.codebase).None?)
      && (planned == Failed(Panic) <==>
           !missing && (duration < 0 || (!(request.normalized.None? && env.normalized(request.key.codebase).None?)
             && (CandidateValue(ValueFor(env, request), |Counted(env.runs(request.key.codebase, request.key.suite))|) <= 0.0
               || (request.command == Some("") || (request.command.None? && env.candidates[request.key].command == ""))))))
  {
    hide Cost, EstimatedValue, Probability, Counted, EstimatedDuration, CandidateValue;
    var completed := Completed(env, request);
    if completed.Done? && DurationOf(env, request.key) >= 0 {
      var r := completed.value;
      var runs := env.runs(r.key.codebase, r.key.suite);
      ProbabilityInRange(runs, r.context);
      if r.normalized.Some? {
        OffsetExists(DurationOf(env, r.key), r.normalized, Probability(runs, r.context), r.value, |Counted(runs)|);
      } else if env.normalized(r.key.codebase).Some? {
        OffsetExists(DurationOf(env, r.key), env.normalized(r.key.codebase).value, Probability(runs, r.context), r.value, |Counted(runs)|);
      }
    }
  }

  /** A batch planned with a default offset that is not negative, for distinct keys that
      are not in the queue, is one that `BatchOrder` speaks about. */
  lemma PlannedBatch(b: Batch, maximum: Option<int>, calls: seq<Call>, rows: Table)
    requires PlannedCalls(b, maximum, calls) && b.defaultOffset >= 0.0
    requires forall i :: 0 <= i < |b.todo| ==> b.todo[i].key !in rows
    requires forall i, j :: 0 <= i < j < |b.todo| ==> b.todo[i].key != b.todo[j].key
    ensures FreshBatch(rows, calls)
    ensures forall i :: 0 <= i < |calls| ==> calls[i].key == b.todo[i].key && calls[i].bucket == b.bucket
  {
    hide Planned;
    forall i | 0 <= i < |calls| ensures calls[i].key == b.todo[i].key && calls[i].bucket == b.bucket && Offset(calls, i) >= 0 {
      assert PlannedAt(b, maximum, i) == Done(calls[i]);
      PlannedOffset(b.env, RequestFor(b, NormalizedFor(b.values, maximum, b.todo, i), b.todo[i]), b.defaultOffset, b.bucket, b.refresh);
    }
  }

  /** What the calls of a batch are: each has its request's key, command and context, and an
      offset from the request's value, its codebase's share, and its history. */
  lemma BulkCallIs(b: Batch, maximum: Option<int>, calls: seq<Call>, i: nat)
    requires PlannedCalls(b, maximum, calls) && i < |calls|
    ensures
      var r, call := b.todo[i], calls[i];
      var runs, duration := b.env.runs(r.key.codebase, r.key.suite), DurationOf(b.env, r.key);
      && call.key == r.key && call.bucket == b.bucket
      && call.payload == Payload(Some(r.context), Some(duration), b.refresh, Some(b.requester.GetOr("scheduler")), r.command)
      && call.offset == b.defaultOffset + Cost(duration) / EstimatedValue(Some(NormalizedFor(b.values, maximum, b.todo, i)),
           Probability(runs, Some(r.context)), CandidateValue(Some(r.value as real), |Counted(runs)|))
  {
    hide Cost, EstimatedValue, Probability, Counted, EstimatedDuration, CandidateValue, NormalizedFor, Planned;
    assert PlannedAt(b, maximum, i) == Done(calls[i]);
    PlannedOffset(b.env, RequestFor(b, NormalizedFor(b.values, maximum, b.todo, i), b.todo[i]), b.defaultOffset, b.bucket, b.refresh);
  }

  // ----- An item scheduled by hand

  lemma FirstIfDefault(rows: Table, id: nat, call: Call)
    requires ValidTable(rows, id)
    ensures Accepted(rows, call) && call.offset == -1.0 && !(call.key in rows && Rank(rows[call.key].bucket) < Rank(call.bucket)) ==>
      var after := AfterAdd(rows, id, call);
      && call.key in after && after[call.key].bucket == call.bucket
      && forall k :: k in after && k != call.key && after[k].bucket == call.bucket ==> Precedes(after[call.key], after[k])
  {
    if Accepted(rows, call) && call.offset == -1.0 { DefaultOffsetGoesFirst(rows, id, call); }
  }

  const DEFAULT_SCHEDULE_OFFSET: real := -1.0

  /** The pair's average, or the codebase's, or the campaign's, or 15 seconds. */
  function AverageDuration(env: Environment, key: Key): int {
    var pair := env.pairAverage(key.codebase, key.suite);
    if pair.Some? then pair.value
    else if env.codebaseAverage(key.codebase).Some? then env.codebaseAverage(key.codebase).value
    else env.campaignAverage(key.suite).GetOr(DEFAULT_ESTIMATED_DURATION)
  }

  /** Any candidate of the codebase and the campaign will do for the command, whatever its
      change set. */
  predicate SamePair(a: Key, b: Key) {
    a.codebase == b.codebase && a.suite == b.suite
  }

  /** The command given, or that of such a candidate. */
  ghost predicate IsCommand(env: Environment, key: Key, command: Option<string>, line: string) {
    match command
    case Some(given) => line == given
    case None => exists k :: k in env.candidates && SamePair(k, key) && env.candidates[k].command == line
  }

  function ManualCall(env: Environment, key: Key, bucket: Bucket, offset: Option<real>, refresh: bool,
      requester: Option<string>, duration: Option<int>, line: string): Call
  {
    Call(key, bucket, offset.GetOr(DEFAULT_SCHEDULE_OFFSET),
      Payload(None, Some(duration.GetOr(AverageDuration(env, key))), refresh, requester, line))
  }

  /** One call of `add`; with the default offset the item goes before all others of its
      bucket, unless it was in a stronger one already. */
  method DoSchedule(env: Environment, queue: Queue, key: Key, bucket: Bucket, offset: Option<real>, refresh: bool,
      requester: Option<string>, duration: Option<int>, command: Option<string>)
    returns (outcome: Outcome<(real, int, int, Bucket)>)
    requires queue.Valid()
    modifies queue
    ensures queue.Valid()
    ensures outcome.Done? ==>
      && outcome.value.0 == (if offset.Some? then offset.value else -1.0)
      && outcome.value.1 == (
           if duration.Some? then duration.value
           else if env.pairAverage(key.codebase, key.suite).Some? then env.pairAverage(key.codebase, key.suite).value
           else if env.codebaseAverage(key.codebase).Some? then env.codebaseAverage(key.codebase).value
           else if env.campaignAverage(key.suite).Some? then env.campaignAverage(key.suite).value
           else 15_000_000)
    ensures command.Some? && outcome.Done? && !(key in old(queue.rows) && Rank(old(queue.rows)[key].bucket) < Rank(bucket)) ==>
      key in queue.rows && queue.rows[key].payload == Payload(None, Some(outcome.value.1), refresh, requester, command.value)
    ensures command.None? && (forall k :: k in env.candidates ==> k.codebase != key.codebase || k.suite != key.suite) ==>
      outcome == Failed(CandidateUnavailable) && queue.rows == old(queue.rows)
    ensures command.None? && outcome.Done? && !(key in old(queue.rows) && Rank(old(queue.rows)[key].bucket) < Rank(bucket)) ==>
      exists k :: k in env.candidates && k.codebase == key.codebase && k.suite == key.suite && key in queue.rows
        && queue.rows[key].payload == Payload(None, Some(outcome.value.1), refresh, requester, env.candidates[k].command)
    ensures (forall line :: !IsCommand(env, key, command, line)) ==>
      outcome == Failed(CandidateUnavailable) && queue.rows == old(queue.rows)
    ensures (exists line :: IsCommand(env, key, command, line)) ==>
      exists line :: IsCommand(env, key, command, line)
        && RegularResult(Done(ManualCall(env, key, bucket, offset, refresh, requester, duration, line)), false,
                         old(queue.rows), old(queue.nextId), queue.rows, outcome)
    ensures outcome.Done? && offset.GetOr(-1.0) == -1.0 && !(key in old(queue.rows) && Rank(old(queue.rows)[key].bucket) < Rank(bucket)) ==>
      && key in queue.rows && queue.rows[key].bucket == bucket
      && forall k :: k in queue.rows && k != key && queue.rows[k].bucket == bucket ==> Precedes(queue.rows[key], queue.rows[k])
  {
    hide ValidTable, AfterAdd, Accepted, Precedes, Rank;
    var used := offset.GetOr(DEFAULT_SCHEDULE_OFFSET);
    var line := command.GetOr("");
    if command.None? {
      if forall k :: k in env.candidates ==> !SamePair(k, key) {
        return Failed(CandidateUnavailable);
      }
      var k :| k in env.candidates && SamePair(k, key);
      line := env.candidates[k].command;
    }
    assert IsCommand(env, key, command, line);
    var estimated := duration.GetOr(AverageDuration(env, key));
    var call := Call(key, bucket, used, Payload(None, Some(estimated), refresh, requester, line));
    assert call == ManualCall(env, key, bucket, offset, refresh, requester, duration, line);
    FirstIfDefault(queue.rows, queue.nextId, call);
    AcceptedKept(queue.rows, queue.nextId, call);
    var answer := queue.Add(call);
    outcome := if answer.None? then Failed(Sql) else Done((used, estimated, answer.value.0, answer.value.1));
  }
}
