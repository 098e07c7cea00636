/** The deterministic scheduler: at most one run per connection and evaluation, spaced by its interval. */
module Scheduler {
  import opened Wrappers
  import opened Arithmetic
  import opened Ordering

  const MAX_TIMESTAMP_MILLIS := MAX_I64

  datatype Entry = Entry(intervalMillis: nat, nextDueAt: int)

  datatype Planned = Planned(connectionId: Id, scheduledAt: int, runAt: int, catchUp: bool)

  type Entries = map<Id, Entry>

  /** A time one interval later, stopping at the last timestamp. */
  function AddInterval(at: int, intervalMillis: nat): int {
    var interval := if intervalMillis <= MAX_TIMESTAMP_MILLIS then intervalMillis else MAX_TIMESTAMP_MILLIS;
    if at + interval <= MAX_I64 then at + interval else MAX_I64
  }

  predicate Due(e: Entry, now: int) { now >= e.nextDueAt }

  function Evaluated(e: Entry, now: int): Entry {
    if Due(e, now) then e.(nextDueAt := AddInterval(now, e.intervalMillis)) else e
  }

  /** The plans of an evaluation, in the order of connection ids. */
  function PlansFor(entries: Entries, ids: seq<Id>, now: int, catchUp: bool): seq<Planned> {
    if ids == [] then []
    else
      var front := PlansFor(entries, ids[..|ids| - 1], now, catchUp);
      var id := ids[|ids| - 1];
      if id in entries && Due(entries[id], now) then front + [Planned(id, entries[id].nextDueAt, now, catchUp)] else front
  }

  function EntriesAfter(entries: Entries, now: int): Entries {
    map id | id in entries :: Evaluated(entries[id], now)
  }

  function OrderedIds(entries: Entries): (ids: seq<Id>)
    ensures forall id :: id in ids <==> id in entries
    ensures forall i, j :: 0 <= i < j < |ids| ==> IdLess(ids[i], ids[j])
  {
    IdOrder();
    Listing(entries.Keys, IdLess)
  }

  class Scheduler {
    var entries: Entries

    constructor ()
      ensures entries == map[]
    {
      entries := map[];
    }

    /** A zero interval is refused; otherwise the entry replaces any former one. */
    method Register(id: Id, intervalMillis: nat, nextDueAt: int) returns (ok: bool)
      modifies this
      ensures ok <==> intervalMillis > 0
      ensures entries == if ok then old(entries)[id := Entry(intervalMillis, nextDueAt)] else old(entries)
    {
      if intervalMillis == 0 { return false; }
      entries := entries[id := Entry(intervalMillis, nextDueAt)];
      ok := true;
    }

    method Plan(now: int, catchUp: bool) returns (plans: seq<Planned>)
      modifies this
      ensures entries == EntriesAfter(old(entries), now)
      ensures plans == PlansFor(old(entries), OrderedIds(old(entries)), now, catchUp)
    {
      hide AddInterval, PartlyAfter, PlansFor, EntriesAfter, OrderedIds, IdLess;
      ghost var before, done := entries, {};
      var ids := OrderedIds(entries);
      DistinctIds(ids);
      NoneAfter(before, now);
      NoPlans(before, now, catchUp);
      plans := [];
      for k := 0 to |ids|
        invariant plans == PlansFor(before, ids[..k], now, catchUp)
        invariant forall id :: id in done <==> id in ids[..k]
        invariant entries == PartlyAfter(before, done, now)
      {
        assert ids[k] in ids && ids[k] !in ids[..k];
        PlansSnoc(before, ids, k, now, catchUp);
        assert ids[..k + 1] == ids[..k] + [ids[k]];
        OneMoreAfter(before, done, ids[k], now);
        var entry := entries[ids[k]];
        if Due(entry, now) {
          plans := plans + [Planned(ids[k], entry.nextDueAt, now, catchUp)];
          entries := entries[ids[k] := entry.(nextDueAt := AddInterval(now, entry.intervalMillis))];
        }
        done := done + {ids[k]};
      }
      assert ids[..|ids|] == ids;
      AllAfter(before, done, now);
    }
  }

  lemma NoPlans(entries: Entries, now: int, catchUp: bool)
    ensures PlansFor(entries, [], now, catchUp) == []
  {
  }

  lemma PlansSnoc(entries: Entries, ids: seq<Id>, k: nat, now: int, catchUp: bool)
    requires k < |ids|
    ensures PlansFor(entries, ids[..k + 1], now, catchUp)
         == PlansFor(entries, ids[..k], now, catchUp)
            + if ids[k] in entries && Due(entries[ids[k]], now) then [Planned(ids[k], entries[ids[k]].nextDueAt, now, catchUp)] else []
  {
    hide Due;
    assert ids[..k + 1][..k] == ids[..k];
  }

  /** The entries once some of them have been evaluated. */
  function PartlyAfter(entries: Entries, done: set<Id>, now: int): Entries {
    map id | id in entries :: if id in done then Evaluated(entries[id], now) else entries[id]
  }

  lemma NoneAfter(entries: Entries, now: int)
    ensures PartlyAfter(entries, {}, now) == entries
  {
  }

  lemma AllAfter(entries: Entries, done: set<Id>, now: int)
    requires forall id :: id in entries ==> id in done
    ensures PartlyAfter(entries, done, now) == EntriesAfter(entries, now)
  {
  }

  lemma OneMoreAfter(entries: Entries, done: set<Id>, id: Id, now: int)
    requires id in entries && id !in done
    ensures id in PartlyAfter(entries, done, now) && PartlyAfter(entries, done, now)[id] == entries[id]
    ensures PartlyAfter(entries, done + {id}, now)
         == if Due(entries[id], now) then PartlyAfter(entries, done, now)[id := Evaluated(entries[id], now)] else PartlyAfter(entries, done, now)
  {
  }

  lemma DistinctIds(ids: seq<Id>)
    requires forall i, j :: 0 <= i < j < |ids| ==> IdLess(ids[i], ids[j])
    ensures forall i, j :: 0 <= i < j < |ids| ==> ids[i] != ids[j]
  {
    IdOrder();
  }

  /** An evaluation plans exactly the due connections, once each and in order. */
  lemma PlansAreTheDue(entries: Entries, now: int, catchUp: bool)
    ensures var plans := PlansFor(entries, OrderedIds(entries), now, catchUp);
            && (forall i, j :: 0 <= i < j < |plans| ==> IdLess(plans[i].connectionId, plans[j].connectionId))
            && (forall id :: id in entries && Due(entries[id], now) ==> Planned(id, entries[id].nextDueAt, now, catchUp) in plans)
            && (forall p :: p in plans ==>
                  p.connectionId in entries && Due(entries[p.connectionId], now)
                  && p == Planned(p.connectionId, entries[p.connectionId].nextDueAt, now, catchUp))
  {
    PlansOfIds(entries, OrderedIds(entries), now, catchUp);
  }

  lemma {:induction false} PlansOfIds(entries: Entries, ids: seq<Id>, now: int, catchUp: bool)
    requires forall i, j :: 0 <= i < j < |ids| ==> IdLess(ids[i], ids[j])
    ensures var plans := PlansFor(entries, ids, now, catchUp);
            && (forall i, j :: 0 <= i < j < |plans| ==> IdLess(plans[i].connectionId, plans[j].connectionId))
            && (forall id :: id in ids && id in entries && Due(entries[id], now) ==> Planned(id, entries[id].nextDueAt, now, catchUp) in plans)
            && (forall p :: p in plans ==>
                  p.connectionId in ids && p.connectionId in entries && Due(entries[p.connectionId], now)
                  && p == Planned(p.connectionId, entries[p.connectionId].nextDueAt, now, catchUp))
  {
    hide Due, IdLess;
    if ids != [] {
      var front, last := ids[..|ids| - 1], ids[|ids| - 1];
      PlansOfIds(entries, front, now, catchUp);
      assert ids == front + [last];
      var before := PlansFor(entries, front, now, catchUp);
      forall p | p in before ensures IdLess(p.connectionId, last) {
        var k :| 0 <= k < |front| && front[k] == p.connectionId;
        assert ids[k] == front[k];
      }
      assert forall i :: 0 <= i < |before| ==> before[i] in before;
    }
  }

  // ----- spacing -----

  /** The times at which an entry ran over a sequence of evaluations, whatever the clock showed. */
  function Runs(e: Entry, clock: seq<int>): seq<int>
    decreases |clock|
  {
    if clock == [] then []
    else
      var rest := Runs(Evaluated(e, clock[0]), clock[1..]);
      if Due(e, clock[0]) then [clock[0]] + rest else rest
  }

  function Earliest(a: int, b: int): int { if a < b then a else b }

  lemma {:induction false} RunsAreDue(e: Entry, clock: seq<int>)
    requires e.intervalMillis > 0 && forall t :: t in clock ==> 0 <= t <= MAX_I64
    ensures var runs := Runs(e, clock);
            && (forall k :: 0 <= k < |runs| ==> 0 <= runs[k] <= MAX_I64)
            && (runs != [] ==> runs[0] >= e.nextDueAt)
            && (forall k :: 0 <= k < |runs| - 1 ==> runs[k + 1] >= Earliest(runs[k] + e.intervalMillis, MAX_I64))
    decreases |clock|
  {
    if clock != [] {
      assert clock[0] in clock && forall t :: t in clock[1..] ==> t in clock;
      RunsAreDue(Evaluated(e, clock[0]), clock[1..]);
      var rest := Runs(Evaluated(e, clock[0]), clock[1..]);
      if Due(e, clock[0]) {
        var runs := [clock[0]] + rest;
        forall k | 0 <= k < |runs| - 1 ensures runs[k + 1] >= Earliest(runs[k] + e.intervalMillis, MAX_I64) {
          if k > 0 { assert runs[k] == rest[k - 1] && runs[k + 1] == rest[k]; }
        }
      }
    }
  }

  /** Any two runs are apart by the interval for every run between them, up to the last timestamp. */
  lemma {:induction false} RunsAreSpaced(e: Entry, clock: seq<int>, i: nat, j: nat)
    requires e.intervalMillis > 0 && forall t :: t in clock ==> 0 <= t <= MAX_I64
    requires i <= j < |Runs(e, clock)|
    ensures Runs(e, clock)[j] >= Earliest(Runs(e, clock)[i] + (j - i) * e.intervalMillis, MAX_I64)
    decreases j
  {
    RunsAreDue(e, clock);
    hide Runs;
    if i < j {
      RunsAreSpaced(e, clock, i, j - 1);
      assert (j - i) * e.intervalMillis == (j - 1 - i) * e.intervalMillis + e.intervalMillis;
    }
  }

  function CountWithin(runs: seq<int>, a: int, b: int): nat {
    if runs == [] then 0 else CountWithin(runs[..|runs| - 1], a, b) + if a <= runs[|runs| - 1] <= b then 1 else 0
  }

  lemma {:induction false} CountSpan(runs: seq<int>, a: int, b: int, i: nat, j: int)
    requires i <= j + 1 && forall k :: 0 <= k < |runs| && a <= runs[k] <= b ==> i <= k <= j
    ensures CountWithin(runs, a, b) <= j - i + 1
    decreases |runs|
  {
    if runs != [] {
      var n := |runs| - 1;
      if a <= runs[n] <= b {
        CountSpan(runs[..n], a, b, i, n - 1);
      } else {
        CountSpan(runs[..n], a, b, i, j);
      }
    }
  }

  lemma {:induction false} FirstAndLast(runs: seq<int>, a: int, b: int) returns (i: nat, j: nat)
    requires exists k :: 0 <= k < |runs| && a <= runs[k] <= b
    ensures i <= j < |runs| && a <= runs[i] <= b && a <= runs[j] <= b
    ensures forall k :: 0 <= k < |runs| && a <= runs[k] <= b ==> i <= k <= j
    decreases |runs|
  {
    var n := |runs| - 1;
    if exists k :: 0 <= k < n && a <= runs[k] <= b {
      var front := runs[..n];
      var k :| 0 <= k < n && a <= runs[k] <= b;
      assert a <= front[k] <= b;
      i, j := FirstAndLast(front, a, b);
      if a <= runs[n] <= b { j := n; }
      assert forall k :: 0 <= k < n ==> front[k] == runs[k];
    } else {
      i, j := n, n;
    }
  }

  lemma SpanFits(first: int, last: int, n: int, interval: int, a: int, b: int)
    requires interval > 0 && last >= Earliest(first + n * interval, MAX_I64) && a <= first && last <= b < MAX_I64
    ensures n <= (b - a) / interval
  {
    QuotientAtLeast(n, interval, b - a);
  }

  /** Any window [a, b] that ends before the last timestamp holds at most 1 + (b - a) / interval runs. */
  lemma WindowBound(e: Entry, clock: seq<int>, a: int, b: int)
    requires e.intervalMillis > 0 && forall t :: t in clock ==> 0 <= t <= MAX_I64
    requires a <= b < MAX_I64
    ensures CountWithin(Runs(e, clock), a, b) <= 1 + (b - a) / e.intervalMillis
  {
    hide Runs, CountWithin;
    var runs := Runs(e, clock);
    if exists k :: 0 <= k < |runs| && a <= runs[k] <= b {
      var i, j := FirstAndLast(runs, a, b);
      CountSpan(runs, a, b, i, j);
      RunsAreSpaced(e, clock, i, j);
      SpanFits(runs[i], runs[j], j - i, e.intervalMillis, a, b);
    } else {
      CountSpan(runs, a, b, 0, -1);
      QuotientAtLeast(0, e.intervalMillis, b - a);
    }
  }

  // ----- the scheduler over a sequence of evaluations -----

  /** The run times planned for one connection. */
  function PlannedRuns(plans: seq<Planned>, id: Id): seq<int> {
    if plans == [] then []
    else PlannedRuns(plans[..|plans| - 1], id) + (if plans[|plans| - 1].connectionId == id then [plans[|plans| - 1].runAt] else [])
  }

  /** A due (false) or wake (true) evaluation at a time. */
  datatype Evaluation = Evaluation(now: int, catchUp: bool)

  function AllRuns(entries: Entries, evaluations: seq<Evaluation>, id: Id): seq<int>
    decreases |evaluations|
  {
    if evaluations == [] then []
    else
      var v := evaluations[0];
      PlannedRuns(PlansFor(entries, OrderedIds(entries), v.now, v.catchUp), id) + AllRuns(EntriesAfter(entries, v.now), evaluations[1..], id)
  }

  function ClockOf(evaluations: seq<Evaluation>): seq<int> {
    seq(|evaluations|, i requires 0 <= i < |evaluations| => evaluations[i].now)
  }

  lemma PlannedRunsSnoc(plans: seq<Planned>, p: Planned, id: Id)
    ensures PlannedRuns(plans + [p], id) == PlannedRuns(plans, id) + if p.connectionId == id then [p.runAt] else []
  {
    assert (plans + [p])[..|plans|] == plans;
  }

  lemma {:induction false} PlannedOnce(entries: Entries, ids: seq<Id>, k: nat, now: int, catchUp: bool, id: Id)
    requires k <= |ids| && forall i, j :: 0 <= i < j < |ids| ==> ids[i] != ids[j]
    ensures PlannedRuns(PlansFor(entries, ids[..k], now, catchUp), id)
         == if id in ids[..k] && id in entries && Due(entries[id], now) then [now] else []
  {
    hide Due, PlansFor;
    if k == 0 {
      NoPlans(entries, now, catchUp);
    } else {
      PlannedOnce(entries, ids, k - 1, now, catchUp, id);
      PlansSnoc(entries, ids, k - 1, now, catchUp);
      var last := ids[k - 1];
      assert ids[..k] == ids[..k - 1] + [last] && last !in ids[..k - 1];
      assert forall x: seq<int> :: x + [] == x && [] + x == x;
      assert forall p: seq<Planned> :: p + [] == p;
      if last in entries && Due(entries[last], now) {
        PlannedRunsSnoc(PlansFor(entries, ids[..k - 1], now, catchUp), Planned(last, entries[last].nextDueAt, now, catchUp), id);
      }
    }
  }

  lemma RunsAtOnce(entries: Entries, v: Evaluation, id: Id)
    requires id in entries
    ensures PlannedRuns(PlansFor(entries, OrderedIds(entries), v.now, v.catchUp), id) == if Due(entries[id], v.now) then [v.now] else []
  {
    hide Due, PlansFor, PlannedRuns;
    var ids := OrderedIds(entries);
    DistinctIds(ids);
    PlannedOnce(entries, ids, |ids|, v.now, v.catchUp, id);
    assert ids[..|ids|] == ids;
  }

  /** Whatever else is registered, a connection runs exactly as its own entry and the clock decide. */
  lemma {:induction false} RunsOfConnection(entries: Entries, evaluations: seq<Evaluation>, id: Id)
    requires id in entries
    ensures AllRuns(entries, evaluations, id) == Runs(entries[id], ClockOf(evaluations))
    decreases |evaluations|
  {
    hide Due, PlansFor, PlannedRuns, OrderedIds, Evaluated;
    if evaluations != [] {
      var v, clock := evaluations[0], ClockOf(evaluations);
      RunsAtOnce(entries, v, id);
      RunsOfConnection(EntriesAfter(entries, v.now), evaluations[1..], id);
      assert clock[0] == v.now && clock[1..] == ClockOf(evaluations[1..]);
    }
  }

  /** Over any due and wake evaluations with any clock: successive runs of a connection are at least its interval apart, up to the
      last timestamp, and any window that ends before it holds at most 1 + (b - a) / interval of them. */
  lemma ConnectionRunsAreSpaced(entries: Entries, evaluations: seq<Evaluation>, id: Id, a: int, b: int)
    requires id in entries && entries[id].intervalMillis > 0 && a <= b < MAX_I64
    requires forall v :: v in evaluations ==> 0 <= v.now <= MAX_I64
    ensures var runs := AllRuns(entries, evaluations, id);
            && (forall k :: 0 <= k < |runs| - 1 ==> runs[k + 1] >= Earliest(runs[k] + entries[id].intervalMillis, MAX_I64))
            && CountWithin(runs, a, b) <= 1 + (b - a) / entries[id].intervalMillis
  {
    hide AllRuns, Runs, CountWithin;
    var clock := ClockOf(evaluations);
    forall t | t in clock ensures 0 <= t <= MAX_I64 {
      var i :| 0 <= i < |clock| && clock[i] == t;
      assert evaluations[i] in evaluations;
    }
    RunsOfConnection(entries, evaluations, id);
    RunsAreDue(entries[id], clock);
    WindowBound(entries[id], clock, a, b);
  }

  // ----- registrations -----

  datatype Registration = Registration(id: Id, intervalMillis: nat, nextDueAt: int)

  function Registered(list: seq<Registration>): Entries {
    if list == [] then map[]
    else
      var r := list[|list| - 1];
      var before := Registered(list[..|list| - 1]);
      if r.intervalMillis == 0 then before else before[r.id := Entry(r.intervalMillis, r.nextDueAt)]
  }

  /** An entry comes from a registration of its connection. */
  ghost predicate FromRegistration(list: seq<Registration>, id: Id, e: Entry) {
    exists i :: 0 <= i < |list| && list[i].intervalMillis > 0 && list[i].id == id && e == Entry(list[i].intervalMillis, list[i].nextDueAt)
  }

  lemma {:induction false} RegisteredExactly(list: seq<Registration>)
    requires forall i, j :: 0 <= i < j < |list| ==> list[i].id != list[j].id
    ensures forall i :: 0 <= i < |list| && list[i].intervalMillis > 0 ==>
              list[i].id in Registered(list) && Registered(list)[list[i].id] == Entry(list[i].intervalMillis, list[i].nextDueAt)
    ensures forall id :: id in Registered(list) ==> FromRegistration(list, id, Registered(list)[id])
  {
    if list != [] {
      var n := |list| - 1;
      var front := list[..n];
      assert forall i :: 0 <= i < n ==> front[i] == list[i];
      RegisteredExactly(front);
      forall id | id in Registered(list) ensures FromRegistration(list, id, Registered(list)[id]) {
        if id in Registered(front) && Registered(list)[id] == Registered(front)[id] {
          var i :| 0 <= i < n && front[i].intervalMillis > 0 && front[i].id == id
                   && Registered(front)[id] == Entry(front[i].intervalMillis, front[i].nextDueAt);
          assert list[i] == front[i];
        } else {
          assert list[n].id == id;
        }
      }
    }
  }

  lemma SameRegistrations(a: seq<Registration>, b: seq<Registration>, id: Id)
    requires forall i, j :: 0 <= i < j < |b| ==> b[i].id != b[j].id
    requires forall r :: r in a <==> r in b
    requires id in Registered(a) && FromRegistration(a, id, Registered(a)[id])
    ensures id in Registered(b) && Registered(b)[id] == Registered(a)[id]
  {
    RegisteredExactly(b);
    hide Registered;
    var i :| 0 <= i < |a| && a[i].intervalMillis > 0 && a[i].id == id && Registered(a)[id] == Entry(a[i].intervalMillis, a[i].nextDueAt);
    assert a[i] in b;
    var j :| 0 <= j < |b| && b[j] == a[i];
  }

  /** Registering the same connections in another order gives the same plans. */
  lemma RegistrationOrderIsIrrelevant(a: seq<Registration>, b: seq<Registration>, now: int, catchUp: bool)
    requires forall i, j :: 0 <= i < j < |a| ==> a[i].id != a[j].id
    requires forall i, j :: 0 <= i < j < |b| ==> b[i].id != b[j].id
    requires forall r :: r in a <==> r in b
    ensures PlansFor(Registered(a), OrderedIds(Registered(a)), now, catchUp) == PlansFor(Registered(b), OrderedIds(Registered(b)), now, catchUp)
  {
    RegisteredExactly(a);
    RegisteredExactly(b);
    hide Registered, FromRegistration, PlansFor, OrderedIds;
    forall id | id in Registered(a) ensures id in Registered(b) && Registered(b)[id] == Registered(a)[id] {
      SameRegistrations(a, b, id);
    }
    forall id | id in Registered(b) ensures id in Registered(a) {
      SameRegistrations(b, a, id);
    }
    assert Registered(a) == Registered(b);
  }

  // ----- exactly when a connection runs -----

  /** An entry after some evaluations. */
  function EntryAfter(e: Entry, clock: seq<int>): Entry {
    if clock == [] then e else Evaluated(EntryAfter(e, clock[..|clock| - 1]), clock[|clock| - 1])
  }

  /** The n-th evaluation runs the connection. */
  predicate RunsAt(e: Entry, clock: seq<int>, n: nat)
    requires n < |clock|
  {
    Due(EntryAfter(e, clock[..n]), clock[n])
  }

  /** The time of the last run before the n-th evaluation. */
  function LastRun(e: Entry, clock: seq<int>, n: nat): Option<int>
    requires n <= |clock|
  {
    if n == 0 then None else if RunsAt(e, clock, n - 1) then Some(clock[n - 1]) else LastRun(e, clock, n - 1)
  }

  lemma {:induction false} NextDueMeans(e: Entry, clock: seq<int>, n: nat)
    requires n <= |clock| && e.intervalMillis > 0 && forall t :: t in clock ==> 0 <= t <= MAX_I64
    ensures var now := EntryAfter(e, clock[..n]);
            && now.intervalMillis == e.intervalMillis
            && now.nextDueAt == match LastRun(e, clock, n) case None => e.nextDueAt case Some(t) => Earliest(t + e.intervalMillis, MAX_I64)
  {
    if n > 0 {
      NextDueMeans(e, clock, n - 1);
      assert clock[..n][..n - 1] == clock[..n - 1] && clock[n - 1] in clock;
    }
  }

  /** A connection runs at an evaluation exactly when its clock is at least the time the connection was registered for, or, once it has
      run, at least its last run plus the interval, or the last timestamp. */
  lemma RunsExactly(e: Entry, clock: seq<int>, n: nat)
    requires n < |clock| && e.intervalMillis > 0 && forall t :: t in clock ==> 0 <= t <= MAX_I64
    ensures RunsAt(e, clock, n)
       <==> match LastRun(e, clock, n)
            case None => clock[n] >= e.nextDueAt
            case Some(t) => clock[n] >= t + e.intervalMillis || clock[n] == MAX_I64
  {
    NextDueMeans(e, clock, n);
    assert clock[n] in clock;
  }

  /** The times of the evaluations that run the connection. */
  function RunTimes(e: Entry, clock: seq<int>, n: nat): seq<int>
    requires n <= |clock|
  {
    if n == 0 then [] else RunTimes(e, clock, n - 1) + (if RunsAt(e, clock, n - 1) then [clock[n - 1]] else [])
  }

  lemma {:induction false} RunsSnoc(e: Entry, clock: seq<int>, t: int)
    ensures Runs(e, clock + [t]) == Runs(e, clock) + if Due(EntryAfter(e, clock), t) then [t] else []
    decreases |clock|
  {
    hide Due, Evaluated;
    if clock == [] {
      assert (clock + [t])[1..] == [];
    } else {
      assert (clock + [t])[1..] == clock[1..] + [t];
      RunsSnoc(Evaluated(e, clock[0]), clock[1..], t);
      EntryAfterFirst(e, clock);
    }
  }

  lemma {:induction false} EntryAfterFirst(e: Entry, clock: seq<int>)
    requires clock != []
    ensures EntryAfter(e, clock) == EntryAfter(Evaluated(e, clock[0]), clock[1..])
  {
    hide Evaluated;
    if |clock| > 1 {
      EntryAfterFirst(e, clock[..|clock| - 1]);
      assert clock[1..][..|clock| - 2] == clock[..|clock| - 1][1..];
    } else {
      assert clock[..0] == [];
    }
  }

  /** The runs of a connection are at exactly those evaluations. */
  lemma {:induction false} RunsAreTheDue(e: Entry, clock: seq<int>, n: nat)
    requires n <= |clock|
    ensures Runs(e, clock[..n]) == RunTimes(e, clock, n)
  {
    hide Due, Evaluated;
    if n > 0 {
      RunsAreTheDue(e, clock, n - 1);
      RunsSnoc(e, clock[..n - 1], clock[n - 1]);
      assert clock[..n - 1] + [clock[n - 1]] == clock[..n];
    }
  }
}
