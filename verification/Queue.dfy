/** The build queue: a table with a unique key, rows with a bucket and a priority that
    is relative to the smallest one, an upsert, and ordered queries. */
module Queue {
  import opened Common

  datatype Bucket = UpdateExistingMp | Manual | Control | Hook | Reschedule | UpdateNewMp | MissingDeps | Default

  /** The order of the bucket type; lower is stronger. */
  function Rank(b: Bucket): nat {
    match b
    case UpdateExistingMp => 0
    case Manual => 1
    case Control => 2
    case Hook => 3
    case Reschedule => 4
    case UpdateNewMp => 5
    case MissingDeps => 6
    case Default => 7
  }

  /** No change set and an empty one are the same key. */
  datatype Key = Key(codebase: string, suite: string, changeSet: string)

  datatype Payload = Payload(context: Option<string>, duration: Option<int>, refresh: bool, requester: Option<string>, command: string)

  datatype Row = Row(id: nat, key: Key, bucket: Bucket, priority: int, payload: Payload)

  type Table = map<Key, Row>

  const MIN_BIGINT: int := -0x8000_0000_0000_0000
  const MAX_BIGINT: int := 0x7fff_ffff_ffff_ffff

  predicate IsBigint(x: int) {
    MIN_BIGINT <= x <= MAX_BIGINT
  }

  /** Conversion to a 64-bit integer: towards zero, and saturating. */
  function Truncate(x: real): (n: int)
    ensures IsBigint(n)
  {
    var t := if x >= 0.0 then x.Floor else -(-x).Floor;
    if t < MIN_BIGINT then MIN_BIGINT else if t > MAX_BIGINT then MAX_BIGINT else t
  }

  /** Truncation takes away less than one, towards zero, unless it saturates. */
  lemma TruncateTowardsZero(x: real)
    ensures 0.0 <= x < 0x8000_0000_0000_0000 as real ==> Truncate(x) as real <= x < Truncate(x) as real + 1.0
    ensures -(0x8000_0000_0000_0001 as real) < x <= 0.0 ==> Truncate(x) as real - 1.0 < x <= Truncate(x) as real
    ensures x >= 0x8000_0000_0000_0000 as real ==> Truncate(x) == 0x7fff_ffff_ffff_ffff
    ensures x <= -(0x8000_0000_0000_0001 as real) ==> Truncate(x) == -0x8000_0000_0000_0000
  {
  }

  // ----- The table

  ghost predicate ValidTable(rows: Table, nextId: nat) {
    && (forall k :: k in rows ==> rows[k].key == k && rows[k].id < nextId && IsBigint(rows[k].priority))
    && forall k, l :: k in rows && l in rows && k != l ==> rows[k].id != rows[l].id
  }

  ghost predicate IsBase(rows: Table, m: int) {
    && (rows == map[] ==> m == 0)
    && (rows != map[] ==> exists k :: k in rows && rows[k].priority == m)
    && forall k :: k in rows ==> m <= rows[k].priority
  }

  lemma {:induction false} BaseExists(rows: Table, keys: set<Key>) returns (m: int)
    requires keys <= rows.Keys && keys != {}
    ensures (exists k :: k in keys && rows[k].priority == m) && forall k :: k in keys ==> m <= rows[k].priority
    decreases keys
  {
    var k :| k in keys;
    m := rows[k].priority;
    if keys != {k} {
      var rest := keys - {k};
      assert rest != {} by { assert keys == rest + {k}; }
      var n := BaseExists(rows, rest);
      if n < m { m := n; }
    }
  }

  /** COALESCE(MIN(priority), 0) */
  ghost function Base(rows: Table): (m: int)
    ensures IsBase(rows, m)
  {
    assert exists m :: IsBase(rows, m) by {
      if rows == map[] {
        assert IsBase(rows, 0);
      } else {
        assert rows.Keys != {} by { assert exists k :: k in rows; }
        var m := BaseExists(rows, rows.Keys);
        assert IsBase(rows, m);
      }
    }
    var m :| IsBase(rows, m);
    m
  }

  lemma BaseUnique(rows: Table, m: int)
    requires IsBase(rows, m)
    ensures m == Base(rows)
  {
  }

  /** One call of `add`. */
  datatype Call = Call(key: Key, bucket: Bucket, offset: real, payload: Payload)

  ghost function PriorityOf(rows: Table, call: Call): int {
    Base(rows) + Truncate(call.offset)
  }

  /** Whether the database accepts the call: the command is not empty and the priority
      is in range. */
  ghost predicate Accepted(rows: Table, call: Call) {
    call.payload.command != "" && IsBigint(PriorityOf(rows, call))
  }

  /** The row after the upsert: the stronger bucket wins, and of equal ones the new call. */
  function Upserted(rows: Table, id: nat, call: Call, priority: int): Row {
    if call.key !in rows then Row(id, call.key, call.bucket, priority, call.payload)
    else if Rank(rows[call.key].bucket) >= Rank(call.bucket) then Row(rows[call.key].id, call.key, call.bucket, priority, call.payload)
    else rows[call.key]
  }

  ghost function AfterAdd(rows: Table, id: nat, call: Call): Table {
    if Accepted(rows, call) then rows[call.key := Upserted(rows, id, call, PriorityOf(rows, call))] else rows
  }

  lemma AddKeepsValid(rows: Table, id: nat, call: Call)
    requires ValidTable(rows, id)
    ensures ValidTable(AfterAdd(rows, id, call), id + 1)
  {
    hide Base;
  }

  // ----- Upserts of one key, over any sequence of calls

  ghost function TableAfter(calls: seq<Call>): Table
    decreases |calls|
  {
    if calls == [] then map[] else AfterAdd(TableAfter(calls[..|calls| - 1]), |calls| - 1, calls[|calls| - 1])
  }

  ghost predicate AcceptedAt(calls: seq<Call>, i: nat)
    requires i < |calls|
  {
    Accepted(TableAfter(calls[..i]), calls[i])
  }

  /** Call `i` was accepted and was for `key`. */
  ghost predicate ForKey(calls: seq<Call>, i: nat, key: Key) {
    i < |calls| && calls[i].key == key && AcceptedAt(calls, i)
  }

  ghost predicate IsFirst(calls: seq<Call>, key: Key, first: nat) {
    ForKey(calls, first, key) && forall i: nat :: ForKey(calls, i, key) ==> first <= i
  }

  /** `last` is the last of the calls with the strongest bucket. */
  ghost predicate IsLastStrongest(calls: seq<Call>, key: Key, last: nat) {
    && ForKey(calls, last, key)
    && forall i: nat :: ForKey(calls, i, key) ==>
        Rank(calls[last].bucket) < Rank(calls[i].bucket) || (Rank(calls[last].bucket) == Rank(calls[i].bucket) && i <= last)
  }

  ghost predicate AnyForKey(calls: seq<Call>, key: Key) {
    exists i: nat :: ForKey(calls, i, key)
  }

  /** The row of `key` in terms of the calls alone. */
  ghost predicate IsFolded(calls: seq<Call>, key: Key, first: nat, last: nat) {
    && IsFirst(calls, key, first) && IsLastStrongest(calls, key, last)
    && key in TableAfter(calls)
    && TableAfter(calls)[key] ==
         Row(first, key, calls[last].bucket, PriorityOf(TableAfter(calls[..last]), calls[last]), calls[last].payload)
  }

  ghost predicate SameCalls(calls: seq<Call>, key: Key) {
    calls != [] && forall i: nat :: i < |calls| - 1 ==> (ForKey(calls, i, key) <==> ForKey(calls[..|calls| - 1], i, key))
  }

  lemma CallsAreSame(calls: seq<Call>, key: Key)
    requires calls != []
    ensures SameCalls(calls, key)
    ensures ForKey(calls, |calls| - 1, key) <==>
      calls[|calls| - 1].key == key && Accepted(TableAfter(calls[..|calls| - 1]), calls[|calls| - 1])
  {
    hide Accepted, TableAfter;
    var before := calls[..|calls| - 1];
    forall i: nat | i < |calls| - 1 ensures ForKey(calls, i, key) <==> ForKey(before, i, key) {
      assert before[..i] == calls[..i] && before[i] == calls[i];
    }
  }

  lemma FirstStays(calls: seq<Call>, key: Key, first: nat)
    requires SameCalls(calls, key) && IsFirst(calls[..|calls| - 1], key, first)
    ensures IsFirst(calls, key, first)
  {
    hide AcceptedAt;
    var before := calls[..|calls| - 1];
    forall i: nat | ForKey(calls, i, key) ensures first <= i {
      if i < |calls| - 1 { assert ForKey(before, i, key); }
    }
  }

  lemma LastStays(calls: seq<Call>, key: Key, last: nat)
    requires SameCalls(calls, key) && IsLastStrongest(calls[..|calls| - 1], key, last)
    requires ForKey(calls, |calls| - 1, key) ==> Rank(calls[last].bucket) < Rank(calls[|calls| - 1].bucket)
    ensures IsLastStrongest(calls, key, last)
  {
    hide AcceptedAt, Rank;
    var before := calls[..|calls| - 1];
    assert ForKey(calls, last, key);
    forall i: nat | ForKey(calls, i, key)
      ensures Rank(calls[last].bucket) < Rank(calls[i].bucket) || (Rank(calls[last].bucket) == Rank(calls[i].bucket) && i <= last)
    {
      if i < |before| { assert ForKey(before, i, key) && before[i] == calls[i] && before[last] == calls[last]; }
    }
  }

  lemma LastMoves(calls: seq<Call>, key: Key, last: nat)
    requires SameCalls(calls, key) && IsLastStrongest(calls[..|calls| - 1], key, last) && ForKey(calls, |calls| - 1, key)
    requires Rank(calls[last].bucket) >= Rank(calls[|calls| - 1].bucket)
    ensures IsLastStrongest(calls, key, |calls| - 1)
  {
    hide AcceptedAt, Rank;
    var before := calls[..|calls| - 1];
    forall i: nat | ForKey(calls, i, key)
      ensures Rank(calls[|before|].bucket) < Rank(calls[i].bucket) || (Rank(calls[|before|].bucket) == Rank(calls[i].bucket) && i <= |before|)
    {
      if i < |before| { assert ForKey(before, i, key) && before[i] == calls[i] && before[last] == calls[last]; }
    }
  }

  lemma FoldOther(calls: seq<Call>, key: Key, first: nat, last: nat)
    requires calls != [] && SameCalls(calls, key) && !ForKey(calls, |calls| - 1, key)
    requires IsFolded(calls[..|calls| - 1], key, first, last)
    requires key in TableAfter(calls) && TableAfter(calls)[key] == TableAfter(calls[..|calls| - 1])[key]
    ensures IsFolded(calls, key, first, last)
  {
    hide TableAfter, PriorityOf, AcceptedAt, SameCalls, IsFirst, IsLastStrongest, Rank;
    FoldBounds(calls[..|calls| - 1], key, first, last);
    FirstStays(calls, key, first);
    LastStays(calls, key, last);
    assert calls[..|calls| - 1][..last] == calls[..last] && calls[..|calls| - 1][last] == calls[last];
  }

  lemma FoldBounds(calls: seq<Call>, key: Key, first: nat, last: nat)
    requires IsFirst(calls, key, first) && IsLastStrongest(calls, key, last)
    ensures first < |calls| && last < |calls|
  {
  }

  lemma FoldUpdate(calls: seq<Call>, key: Key, first: nat, last: nat, newLast: nat)
    requires calls != [] && SameCalls(calls, key) && ForKey(calls, |calls| - 1, key)
    requires IsFolded(calls[..|calls| - 1], key, first, last)
    requires newLast == if Rank(calls[last].bucket) >= Rank(calls[|calls| - 1].bucket) then |calls| - 1 else last
    requires key in TableAfter(calls)
    requires TableAfter(calls)[key] == Upserted(TableAfter(calls[..|calls| - 1]), |calls| - 1, calls[|calls| - 1],
                                                PriorityOf(TableAfter(calls[..|calls| - 1]), calls[|calls| - 1]))
    ensures IsFolded(calls, key, first, newLast)
  {
    hide TableAfter, PriorityOf, AcceptedAt, SameCalls, IsFirst, IsLastStrongest, Rank;
    FoldBounds(calls[..|calls| - 1], key, first, last);
    FirstStays(calls, key, first);
    assert calls[..|calls| - 1][..last] == calls[..last] && calls[..|calls| - 1][last] == calls[last];
    assert calls[|calls| - 1].key == key;
    if newLast == last { LastStays(calls, key, last); } else { LastMoves(calls, key, last); }
  }

  lemma FoldInsert(calls: seq<Call>, key: Key)
    requires SameCalls(calls, key) && ForKey(calls, |calls| - 1, key) && !AnyForKey(calls[..|calls| - 1], key)
    requires key in TableAfter(calls)
    requires TableAfter(calls)[key] == Row(|calls| - 1, key, calls[|calls| - 1].bucket,
      PriorityOf(TableAfter(calls[..|calls| - 1]), calls[|calls| - 1]), calls[|calls| - 1].payload)
    ensures IsFolded(calls, key, |calls| - 1, |calls| - 1)
  {
    hide TableAfter, PriorityOf, AcceptedAt;
    forall i: nat | ForKey(calls, i, key) ensures i == |calls| - 1 {
    }
  }

  /** After any sequence of calls, a key has one row if and only if a call for it was
      accepted: with the id of the first of them, and the bucket, priority and payload
      of the last one that asked for the strongest bucket. */
  lemma {:induction false} UpsertFold(calls: seq<Call>, key: Key) returns (first: nat, last: nat)
    ensures key in TableAfter(calls) <==> AnyForKey(calls, key)
    ensures key in TableAfter(calls) ==> IsFolded(calls, key, first, last)
    decreases |calls|
  {
    hide PriorityOf, Base, IsFolded, SameCalls, ForKey, Accepted;
    first, last := 0, 0;
    if calls == [] {
      assert !AnyForKey(calls, key) by { hide *; NoCalls(key); }
    } else {
      var n := |calls| - 1;
      first, last := UpsertFold(calls[..n], key);
      CallsAreSame(calls, key);
      AnyForKeyStep(calls, key);
      if ForKey(calls, n, key) {
        if key in TableAfter(calls[..n]) {
          var newLast := StrongestOf(calls, key, first, last);
          FoldUpdate(calls, key, first, last, newLast);
          last := newLast;
        } else {
          FoldInsert(calls, key);
          first, last := n, n;
        }
      } else if key in TableAfter(calls[..n]) {
        FoldOther(calls, key, first, last);
      }
    }
  }

  lemma NoCalls(key: Key)
    ensures !AnyForKey([], key)
  {
  }

  lemma AnyForKeyStep(calls: seq<Call>, key: Key)
    requires SameCalls(calls, key)
    ensures AnyForKey(calls, key) <==> AnyForKey(calls[..|calls| - 1], key) || ForKey(calls, |calls| - 1, key)
  {
    hide AcceptedAt;
    if AnyForKey(calls, key) {
      var i: nat :| ForKey(calls, i, key);
      assert i < |calls| - 1 ==> ForKey(calls[..|calls| - 1], i, key);
    }
    if AnyForKey(calls[..|calls| - 1], key) {
      var i: nat :| ForKey(calls[..|calls| - 1], i, key);
      assert ForKey(calls, i, key);
    }
  }

  lemma StrongestOf(calls: seq<Call>, key: Key, first: nat, last: nat) returns (newLast: nat)
    requires calls != [] && IsFolded(calls[..|calls| - 1], key, first, last)
    ensures last < |calls|
    ensures newLast == if Rank(calls[last].bucket) >= Rank(calls[|calls| - 1].bucket) then |calls| - 1 else last
  {
    newLast := if Rank(calls[last].bucket) >= Rank(calls[|calls| - 1].bucket) then |calls| - 1 else last;
  }

  // ----- Order

  predicate Precedes(a: Row, b: Row) {
    Rank(a.bucket) < Rank(b.bucket)
    || (Rank(a.bucket) == Rank(b.bucket) && (a.priority < b.priority || (a.priority == b.priority && a.id < b.id)))
  }

  /** The order of the queue: first by bucket, in the order of the bucket type, then by
      priority, then by id. */
  lemma BucketsInOrder(a: Row, b: Row, i: nat, j: nat)
    requires
      var buckets := [UpdateExistingMp, Manual, Control, Hook, Reschedule, UpdateNewMp, MissingDeps, Default];
      i < 8 && j < 8 && a.bucket == buckets[i] && b.bucket == buckets[j]
    ensures i < j ==> Precedes(a, b) && !Precedes(b, a)
    ensures i == j && a.priority < b.priority ==> Precedes(a, b) && !Precedes(b, a)
    ensures i == j && a.priority == b.priority ==> (Precedes(a, b) <==> a.id < b.id)
  {
  }

  /** When a call with the default offset of -1 ends up with the bucket it asked for, its
      row precedes every other row of its bucket; it ends up with it if and only if no
      row of a stronger bucket was there. */
  lemma DefaultOffsetGoesFirst(rows: Table, id: nat, call: Call)
    requires ValidTable(rows, id) && Accepted(rows, call) && call.offset == -1.0
    ensures
      var after := AfterAdd(rows, id, call);
      && (after[call.key].bucket == call.bucket <==> !(call.key in rows && Rank(rows[call.key].bucket) < Rank(call.bucket)))
      && (after[call.key].bucket == call.bucket ==>
          after[call.key].payload == call.payload
          && forall k :: k in after && k != call.key && after[k].bucket == call.bucket ==> Precedes(after[call.key], after[k]))
  {
    assert (1.0).Floor == 1;
    assert Truncate(-1.0) == -1;
  }

  // ----- Queries

  /** A codebase's address: none at all, one without a host part, or a host. */
  datatype Address = NoUrl | NoHost | Host(name: string)

  datatype Filter = Filter(
    handedOut: Option<set<nat>>, codebase: Option<string>, campaign: Option<string>, excludedHosts: Option<set<string>>)

  const NO_FILTER: Filter := Filter(None, None, None, None)

  // ----- The statement

  /** The conditions, each with a numbered placeholder of its own. */
  datatype Condition = NotHandedOut | CodebaseIs | CampaignIs | HostNotExcluded

  datatype Value = Numbers(ids: set<nat>) | Name(name: string) | Names(names: set<string>)

  function Placeholder(c: Condition): nat {
    match c
    case NotHandedOut => 1
    case CodebaseIs => 2
    case CampaignIs => 3
    case HostNotExcluded => 4
  }

  predicate Takes(c: Condition, v: Value) {
    match c
    case NotHandedOut => v.Numbers?
    case CodebaseIs => v.Name?
    case CampaignIs => v.Name?
    case HostNotExcluded => v.Names?
  }

  /** A statement has as many parameters as its largest placeholder says. */
  function Parameters(conditions: seq<Condition>): nat {
    if conditions == [] then 0
    else
      var rest, last := Parameters(conditions[..|conditions| - 1]), Placeholder(conditions[|conditions| - 1]);
      if last > rest then last else rest
  }

  /** Every placeholder has a value of its type. */
  predicate Bound(conditions: seq<Condition>, values: seq<Value>) {
    forall c :: c in conditions ==> Placeholder(c) <= |values| && Takes(c, values[Placeholder(c) - 1])
  }

  /** The server executes a statement if exactly its parameters are bound, by values of
      their types. */
  predicate Executable(conditions: seq<Condition>, values: seq<Value>) {
    Parameters(conditions) == |values| && Bound(conditions, values)
  }

  /** The conditions that are pushed for a filter, and the values that are bound, one after
      the other. */
  function Conditions(f: Filter): seq<Condition> {
    Pushed(Pushed(Pushed(Pushed([], f.handedOut.Some?, NotHandedOut), f.codebase.Some?, CodebaseIs),
                  f.campaign.Some?, CampaignIs),
           f.excludedHosts.Some?, HostNotExcluded)
  }

  function Pushed(conditions: seq<Condition>, given: bool, c: Condition): seq<Condition> {
    if given then conditions + [c] else conditions
  }

  function Values(f: Filter): seq<Value> {
    (if f.handedOut.Some? then [Numbers(f.handedOut.value)] else []) + (if f.codebase.Some? then [Name(f.codebase.value)] else [])
    + (if f.campaign.Some? then [Name(f.campaign.value)] else []) + (if f.excludedHosts.Some? then [Names(f.excludedHosts.value)] else [])
  }

  /** No filter is left out before one that is given. */
  predicate WellBound(f: Filter) {
    && (f.codebase.Some? ==> f.handedOut.Some?)
    && (f.campaign.Some? ==> f.codebase.Some?)
    && (f.excludedHosts.Some? ==> f.campaign.Some?)
  }

  lemma BoundIfExecutable(conditions: seq<Condition>, values: seq<Value>)
    requires Executable(conditions, values)
    ensures Bound(conditions, values)
  {
  }

  lemma ParametersMore(conditions: seq<Condition>, given: bool, c: Condition)
    ensures Parameters(Pushed(conditions, given, c)) ==
      if given && Placeholder(c) > Parameters(conditions) then Placeholder(c) else Parameters(conditions)
  {
    assert (conditions + [c])[..|conditions|] == conditions;
  }

  /** The largest placeholder is that of the last filter given. */
  lemma ParametersOf(f: Filter)
    ensures Parameters(Conditions(f)) ==
      if f.excludedHosts.Some? then 4 else if f.campaign.Some? then 3 else if f.codebase.Some? then 2 else if f.handedOut.Some? then 1 else 0
  {
    hide Parameters, Pushed;
    var one := Pushed([], f.handedOut.Some?, NotHandedOut);
    var two := Pushed(one, f.codebase.Some?, CodebaseIs);
    var three := Pushed(two, f.campaign.Some?, CampaignIs);
    assert Parameters([]) == 0 by { NoParameters(); }
    ParametersMore([], f.handedOut.Some?, NotHandedOut);
    ParametersMore(one, f.codebase.Some?, CodebaseIs);
    ParametersMore(two, f.campaign.Some?, CampaignIs);
    ParametersMore(three, f.excludedHosts.Some?, HostNotExcluded);
  }

  lemma NoParameters()
    ensures Parameters([]) == 0
  {
  }

  /** The placeholders are numbered, but the values are bound by position: so the statement
      can be executed if and only if the filters given are the first ones. */
  lemma ExecutableIffWellBound(f: Filter)
    ensures Executable(Conditions(f), Values(f)) <==> WellBound(f)
  {
    hide Parameters;
    ParametersOf(f);
  }

  /** For instance, not with a codebase alone: one value is bound, to a statement with two
      parameters. */
  lemma CodebaseAlone(codebase: string)
    ensures
      var f := NO_FILTER.(codebase := Some(codebase));
      && Conditions(f) == [CodebaseIs] && Values(f) == [Name(codebase)] && Parameters(Conditions(f)) == 2
      && !Executable(Conditions(f), Values(f))
  {
    ParametersOf(NO_FILTER.(codebase := Some(codebase)));
  }

  // ----- Its conditions, in three-valued logic

  function Not(b: Option<bool>): Option<bool> {
    if b.Some? then Some(!b.value) else None
  }

  function And(a: Option<bool>, b: Option<bool>): Option<bool> {
    if a == Some(false) || b == Some(false) then Some(false)
    else if a == Some(true) && b == Some(true) then Some(true)
    else None
  }

  /** `x = ANY(values)`: unknown when `x` is missing, unless there is nothing to compare with. */
  function EqualsAny<T(==)>(x: Option<T>, values: set<T>): Option<bool> {
    if values == {} then Some(false) else if x.None? then None else Some(x.value in values)
  }

  /** What the regular expression takes out of an address. */
  function HostOf(address: Address): Option<string> {
    if address.Host? then Some(address.name) else None
  }

  function Holds(c: Condition, v: Value, address: string -> Address, row: Row): Option<bool>
    requires Takes(c, v)
  {
    match c
    case NotHandedOut => Not(EqualsAny(Some(row.id), v.ids))
    case CodebaseIs => Some(row.key.codebase == v.name)
    case CampaignIs => Some(row.key.suite == v.name)
    case HostNotExcluded =>
      var a := address(row.key.codebase);
      Not(And(Some(!a.NoUrl?), EqualsAny(HostOf(a), v.names)))
  }

  /** The WHERE clause joins the conditions. */
  function Where(conditions: seq<Condition>, values: seq<Value>, address: string -> Address, row: Row): Option<bool>
    requires Bound(conditions, values)
  {
    if conditions == [] then Some(true)
    else
      var n := |conditions| - 1;
      And(Where(conditions[..n], values, address, row), Holds(conditions[n], values[Placeholder(conditions[n]) - 1], address, row))
  }

  // ----- What they select

  /** The rows that a filter asks for. */
  predicate Passes(f: Filter, address: string -> Address, row: Row) {
    && (f.handedOut.Some? ==> row.id !in f.handedOut.value)
    && (f.codebase.Some? ==> row.key.codebase == f.codebase.value)
    && (f.campaign.Some? ==> row.key.suite == f.campaign.value)
    && (f.excludedHosts.Some? ==> HostPasses(f.excludedHosts.value, address(row.key.codebase)))
  }

  predicate HostPasses(excluded: set<string>, address: Address) {
    match address
    case NoUrl => true
    case NoHost => excluded == {}
    case Host(h) => h !in excluded
  }

  /** A codebase without an address always passes the host condition; one whose address has
      no host makes it unknown, and is dropped, as soon as any host is excluded. */
  lemma HostCondition(excluded: set<string>, address: string -> Address, row: Row)
    ensures
      var holds := Holds(HostNotExcluded, Names(excluded), address, row);
      && (holds == Some(true) <==> HostPasses(excluded, address(row.key.codebase)))
      && (holds == None <==> address(row.key.codebase).NoHost? && excluded != {})
  {
  }

  /** A conjunction is true when all its parts are. */
  lemma WhereMore(conditions: seq<Condition>, given: bool, c: Condition, values: seq<Value>, address: string -> Address, row: Row)
    requires Bound(Pushed(conditions, given, c), values)
    ensures Bound(conditions, values) && (given ==> Placeholder(c) <= |values| && Takes(c, values[Placeholder(c) - 1]))
    ensures Where(Pushed(conditions, given, c), values, address, row) == Some(true) <==>
      && Where(conditions, values, address, row) == Some(true)
      && (given ==> Holds(c, values[Placeholder(c) - 1], address, row) == Some(true))
  {
    hide Holds, Takes, Placeholder;
    assert (conditions + [c])[..|conditions|] == conditions && (conditions + [c])[|conditions|] == c;
  }

  /** When the statement can be executed, its WHERE clause is true of the rows that the
      filter asks for, and of no others. */
  lemma WhereSelects(f: Filter, address: string -> Address, row: Row)
    requires Executable(Conditions(f), Values(f))
    ensures Where(Conditions(f), Values(f), address, row) == Some(true) <==> Passes(f, address, row)
  {
    hide Where, Parameters, Pushed, Bound, HostPasses;
    var values := Values(f);
    var one := Pushed([], f.handedOut.Some?, NotHandedOut);
    var two := Pushed(one, f.codebase.Some?, CodebaseIs);
    var three := Pushed(two, f.campaign.Some?, CampaignIs);
    ExecutableIffWellBound(f);
    WhereMore(three, f.excludedHosts.Some?, HostNotExcluded, values, address, row);
    WhereMore(two, f.campaign.Some?, CampaignIs, values, address, row);
    WhereMore(one, f.codebase.Some?, CodebaseIs, values, address, row);
    WhereMore([], f.handedOut.Some?, NotHandedOut, values, address, row);
    assert Where([], values, address, row) == Some(true) by { NoConditions(values, address, row); }
    if f.excludedHosts.Some? { HostCondition(f.excludedHosts.value, address, row); }
  }

  lemma NoConditions(values: seq<Value>, address: string -> Address, row: Row)
    ensures Where([], values, address, row) == Some(true)
  {
  }

  /** `r` is the row that the ordered query with LIMIT 1 gives. */
  ghost predicate IsNext(rows: Table, f: Filter, address: string -> Address, r: Option<Row>) {
    match r
    case None => forall k :: k in rows ==> !Passes(f, address, rows[k])
    case Some(row) =>
      && row.key in rows && rows[row.key] == row && Passes(f, address, row)
      && forall k :: k in rows && Passes(f, address, rows[k]) && k != row.key ==> Precedes(row, rows[k])
  }

  /** `s` lists the rows that pass, in order. */
  ghost predicate IsListing(rows: Table, f: Filter, address: string -> Address, s: seq<Row>) {
    && (forall i :: 0 <= i < |s| ==> s[i].key in rows && rows[s[i].key] == s[i] && Passes(f, address, s[i]))
    && (forall k :: k in rows && Passes(f, address, rows[k]) ==> InSeq(s, rows[k]))
    && forall i, j :: 0 <= i < j < |s| ==> Precedes(s[i], s[j])
  }

  ghost predicate InSeq(s: seq<Row>, row: Row) {
    exists i :: 0 <= i < |s| && s[i] == row
  }

  /** So in any listing, a row of a stronger bucket comes before one of a weaker one. */
  lemma ListedByBucket(rows: Table, f: Filter, address: string -> Address, s: seq<Row>, p: nat, q: nat, i: nat, j: nat)
    requires IsListing(rows, f, address, s) && p < |s| && q < |s| && i < j < 8
    requires
      var buckets := [UpdateExistingMp, Manual, Control, Hook, Reschedule, UpdateNewMp, MissingDeps, Default];
      s[p].bucket == buckets[i] && s[q].bucket == buckets[j]
    ensures p < q
  {
    BucketsInOrder(s[p], s[q], i, j);
    hide Precedes;
  }

  /** The rows that pass, in order, up to the limit. */
  ghost predicate IsPage(rows: Table, f: Filter, address: string -> Address, limit: Option<nat>, items: seq<Row>) {
    exists all :: IsListing(rows, f, address, all)
      && items == if limit.Some? && limit.value < |all| then all[..limit.value] else all
  }

  function Ids(s: seq<Row>): set<nat> {
    set i | 0 <= i < |s| :: s[i].id
  }

  function Assigned(ids: set<nat>): Filter {
    Filter(Some(ids), None, None, None)
  }

  /** Asking for the next item again and again, with what was handed out so far as the
      assigned items, goes through the listing: the n-th answer is its n-th row, and
      when it is used up there is none. */
  lemma DrainFollowsListing(rows: Table, nextId: nat, address: string -> Address, s: seq<Row>, n: nat, r: Option<Row>)
    requires ValidTable(rows, nextId) && IsListing(rows, NO_FILTER, address, s) && n <= |s|
    requires IsNext(rows, Assigned(Ids(s[..n])), address, r)
    ensures r == if n < |s| then Some(s[n]) else None
  {
    var handed := Ids(s[..n]);
    forall i | 0 <= i < |s| ensures s[i].id in handed <==> i < n {
      if i < n { assert s[..n][i] == s[i]; }
      if s[i].id in handed {
        var j :| 0 <= j < n && s[..n][j].id == s[i].id;
        assert s[j].key == s[i].key;
        assert j < i ==> Precedes(s[j], s[i]);
        assert i < j ==> Precedes(s[i], s[j]);
      }
    }
    if r.Some? {
      assert Passes(NO_FILTER, address, r.value);
      assert InSeq(s, r.value);
      var i :| 0 <= i < |s| && s[i] == r.value;
      assert i >= n;
      if i > n {
        assert Passes(Assigned(handed), address, s[n]);
        assert false;
      }
    } else if n < |s| {
      assert Passes(Assigned(handed), address, rows[s[n].key]);
      assert false;
    }
  }

  /** And any sequence of answers that goes on until there is none is the listing. */
  lemma DrainIsListing(rows: Table, nextId: nat, address: string -> Address, answers: seq<Row>, s: seq<Row>)
    requires ValidTable(rows, nextId) && IsListing(rows, NO_FILTER, address, s)
    requires forall n :: 0 <= n < |answers| ==> IsNext(rows, Assigned(Ids(answers[..n])), address, Some(answers[n]))
    requires IsNext(rows, Assigned(Ids(answers)), address, None)
    ensures answers == s
  {
    DrainPrefix(rows, nextId, address, answers, s, |answers|);
    assert answers[..|answers|] == answers;
    DrainFollowsListing(rows, nextId, address, s, |answers|, None);
  }

  lemma {:induction false} DrainPrefix(rows: Table, nextId: nat, address: string -> Address, answers: seq<Row>, s: seq<Row>, n: nat)
    requires ValidTable(rows, nextId) && IsListing(rows, NO_FILTER, address, s)
    requires forall k :: 0 <= k < |answers| ==> IsNext(rows, Assigned(Ids(answers[..k])), address, Some(answers[k]))
    requires n <= |answers|
    ensures n <= |s| && answers[..n] == s[..n]
  {
    hide IsListing, ValidTable, IsNext, Ids;
    if n > 0 {
      DrainPrefix(rows, nextId, address, answers, s, n - 1);
      DrainFollowsListing(rows, nextId, address, s, n - 1, Some(answers[n - 1]));
      assert answers[..n] == answers[..n - 1] + [answers[n - 1]];
    }
  }

  // ----- The operations

  class Queue {
    var rows: Table
    /** The next value of the serial column; every attempt to insert uses one up. */
    var nextId: nat

    ghost predicate Valid()
      reads this
    {
      ValidTable(rows, nextId)
    }

    constructor ()
      ensures Valid() && rows == map[] && nextId == 0
    {
      rows, nextId := map[], 0;
    }

    method MinimumPriority() returns (m: int)
      ensures m == Base(rows)
    {
      m := 0;
      var left := rows.Keys;
      var found := false;
      while left != {}
        invariant left <= rows.Keys
        invariant !found ==> left == rows.Keys && m == 0
        invariant found ==> exists k :: k in rows && rows[k].priority == m
        invariant forall k :: k in rows && k !in left ==> m <= rows[k].priority
      {
        var k :| k in left;
        if !found || rows[k].priority < m {
          m := rows[k].priority;
        }
        found, left := true, left - {k};
      }
      BaseUnique(rows, m);
    }

    /** Insert a row or update the one with the same key; the answer is the row's id and
        bucket, or an error. */
    method Add(call: Call) returns (answer: Option<(nat, Bucket)>)
      requires Valid()
      modifies this
      ensures Valid() && nextId == old(nextId) + 1
      ensures rows == AfterAdd(old(rows), old(nextId), call)
      ensures answer == if Accepted(old(rows), call) then Some((rows[call.key].id, rows[call.key].bucket)) else None
      ensures answer.None? ==> rows == old(rows)
      ensures answer.Some? ==>
        && call.key in rows && rows == old(rows)[call.key := rows[call.key]]
        && var row, priority := rows[call.key], Base(old(rows)) + Truncate(call.offset);
        if call.key !in old(rows) then row == Row(old(nextId), call.key, call.bucket, priority, call.payload)
        else
          var existing := old(rows)[call.key];
          if Rank(existing.bucket) < Rank(call.bucket) then row == existing
          else row == Row(existing.id, call.key, call.bucket, priority, call.payload)
      ensures answer.Some? <==>
        call.payload.command != "" && -0x8000_0000_0000_0000 <= Base(old(rows)) + Truncate(call.offset) <= 0x7fff_ffff_ffff_ffff
    {
      AddKeepsValid(rows, nextId, call);
      var base := MinimumPriority();
      var priority := base + Truncate(call.offset);
      var id := nextId;
      nextId := nextId + 1;
      if call.payload.command == "" || !IsBigint(priority) {
        return None;
      }
      var row := Row(id, call.key, call.bucket, priority, call.payload);
      if call.key in rows {
        var existing := rows[call.key];
        if Rank(existing.bucket) >= Rank(call.bucket) {
          row := row.(id := existing.id);
        } else {
          row := existing;
        }
      }
      rows := rows[call.key := row];
      answer := Some((row.id, row.bucket));
    }

    /** Build the statement and execute it: the first row that passes, or no answer at all
        when the server rejects the statement. */
    method NextItem(f: Filter, address: string -> Address) returns (answer: Option<Option<Row>>)
      requires Valid()
      ensures answer.Some? <==> WellBound(f)
      ensures answer.Some? ==> IsNext(rows, f, address, answer.value)
      ensures answer.Some? && answer.value.Some? ==>
        var row := answer.value.value;
        && row.key in rows && rows[row.key] == row
        && (f.handedOut.Some? ==> row.id !in f.handedOut.value)
        && (f.codebase.Some? ==> row.key.codebase == f.codebase.value)
        && (f.campaign.Some? ==> row.key.suite == f.campaign.value)
        && (f.excludedHosts.Some? ==> match address(row.key.codebase)
            case NoUrl => true
            case NoHost => f.excludedHosts.value == {}
            case Host(h) => h !in f.excludedHosts.value)
    {
      var conditions: seq<Condition>, values: seq<Value> := [], [];
      if f.handedOut.Some? { conditions := conditions + [NotHandedOut]; }
      if f.codebase.Some? { conditions := conditions + [CodebaseIs]; }
      if f.campaign.Some? { conditions := conditions + [CampaignIs]; }
      if f.excludedHosts.Some? { conditions := conditions + [HostNotExcluded]; }
      if f.handedOut.Some? { values := values + [Numbers(f.handedOut.value)]; }
      if f.codebase.Some? { values := values + [Name(f.codebase.value)]; }
      if f.campaign.Some? { values := values + [Name(f.campaign.value)]; }
      if f.excludedHosts.Some? { values := values + [Names(f.excludedHosts.value)]; }
      assert conditions == Conditions(f) && values == Values(f);
      ExecutableIffWellBound(f);
      answer := FetchOptional(f, conditions, values, address);
    }

    /** What the server answers. */
    method FetchOptional(ghost f: Filter, conditions: seq<Condition>, values: seq<Value>, address: string -> Address)
      returns (answer: Option<Option<Row>>)
      requires Valid() && conditions == Conditions(f) && values == Values(f)
      ensures answer.Some? <==> Executable(conditions, values)
      ensures answer.Some? ==> IsNext(rows, f, address, answer.value)
    {
      hide Executable, Bound, Where, Conditions, Values, Passes;
      if !Executable(conditions, values) {
        return None;
      }
      assert Bound(conditions, values) by { BoundIfExecutable(conditions, values); }
      var best: Option<Row> := None;
      var left := rows.Keys;
      while left != {}
        invariant left <= rows.Keys
        invariant best.Some? ==>
          && best.value.key in rows && best.value.key !in left && rows[best.value.key] == best.value
          && Passes(f, address, best.value)
        invariant forall k :: k in rows && k !in left && Passes(f, address, rows[k]) ==>
          best.Some? && (k == best.value.key || Precedes(best.value, rows[k]))
      {
        var k :| k in left;
        WhereSelects(f, address, rows[k]);
        if Where(conditions, values, address, rows[k]) == Some(true) && (best.None? || Precedes(rows[k], best.value)) {
          best := Some(rows[k]);
        }
        left := left - {k};
      }
      answer := Some(best);
    }

    /** The rows in order, optionally of one campaign, and at most `limit` of them. */
    method IterQueue(limit: Option<nat>, campaign: Option<string>, ghost address: string -> Address) returns (items: seq<Row>)
      requires Valid()
      ensures IsPage(rows, NO_FILTER.(campaign := campaign), address, limit, items)
      ensures limit.Some? ==> |items| <= limit.value
      ensures forall i :: 0 <= i < |items| ==>
        items[i].key in rows && rows[items[i].key] == items[i] && (campaign.Some? ==> items[i].key.suite == campaign.value)
      ensures forall i, j :: 0 <= i < j < |items| ==> Precedes(items[i], items[j])
      ensures limit.None? || |items| < limit.value ==>
        forall k :: k in rows && (campaign.Some? ==> rows[k].key.suite == campaign.value) ==> InSeq(items, rows[k])
    {
      items := [];
      ghost var f := NO_FILTER.(campaign := campaign);
      var left := rows.Keys;
      while left != {}
        invariant left <= rows.Keys
        invariant forall i :: 0 <= i < |items| ==>
          items[i].key in rows && items[i].key !in left && rows[items[i].key] == items[i] && Passes(f, address, items[i])
        invariant forall k :: k in rows && k !in left && Passes(f, address, rows[k]) ==> InSeq(items, rows[k])
        invariant forall i, j :: 0 <= i < j < |items| ==> Precedes(items[i], items[j])
      {
        var k :| k in left;
        if campaign.None? || rows[k].key.suite == campaign.value {
          items := InsertInOrder(items, rows[k]);
        }
        left := left - {k};
      }
      assert IsListing(rows, f, address, items);
      if limit.Some? && limit.value < |items| {
        items := items[..limit.value];
      }
    }
  }

  /** Insert a row into an ordered list. */
  method InsertInOrder(s: seq<Row>, row: Row) returns (t: seq<Row>)
    requires forall i, j :: 0 <= i < j < |s| ==> Precedes(s[i], s[j])
    requires forall i :: 0 <= i < |s| ==> s[i].id != row.id
    ensures forall i, j :: 0 <= i < j < |t| ==> Precedes(t[i], t[j])
    ensures forall i :: 0 <= i < |t| ==> t[i] == row || InSeq(s, t[i])
    ensures InSeq(t, row) && forall i :: 0 <= i < |s| ==> InSeq(t, s[i])
  {
    hide Precedes;
    var k := 0;
    while k < |s| && Precedes(s[k], row)
      invariant 0 <= k <= |s|
      invariant forall i :: 0 <= i < k ==> Precedes(s[i], row)
    {
      k := k + 1;
    }
    t := s[..k] + [row] + s[k..];
    forall i | k <= i < |s| ensures Precedes(row, s[i]) {
      Ordered(row, s[k], s[i]);
    }
    Inserted(s, row, k);
  }

  lemma Ordered(a: Row, b: Row, c: Row)
    requires a.id != b.id && !Precedes(b, a) && (b == c || Precedes(b, c))
    ensures Precedes(a, c)
  {
  }

  lemma Inserted(s: seq<Row>, row: Row, k: nat)
    requires k <= |s| && forall i, j :: 0 <= i < j < |s| ==> Precedes(s[i], s[j])
    requires (forall i :: 0 <= i < k ==> Precedes(s[i], row)) && forall i :: k <= i < |s| ==> Precedes(row, s[i])
    ensures
      var t := s[..k] + [row] + s[k..];
      && (forall i, j :: 0 <= i < j < |t| ==> Precedes(t[i], t[j]))
      && (forall i :: 0 <= i < |t| ==> t[i] == row || InSeq(s, t[i]))
      && InSeq(t, row) && forall i :: 0 <= i < |s| ==> InSeq(t, s[i])
  {
    hide Precedes;
    var t := s[..k] + [row] + s[k..];
    assert t[k] == row;
    assert forall i :: 0 <= i < k ==> t[i] == s[i];
    assert forall i :: k <= i < |s| ==> t[i + 1] == s[i];
    assert forall i :: k < i < |t| ==> t[i] == s[i - 1];
  }
}
