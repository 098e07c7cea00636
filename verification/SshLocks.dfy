/** The registry of per-host locks, as interleaved steps of the batches that use it. */
module SshLocks {
  import opened Wrappers
  import opened Ordering

  type Batch = nat
  type LockId = nat

  /** Where a batch is. Between `Entering` and `Leaving` it holds the registry mutex; from `Leaving` to `Dropping` it holds a
      strong handle on its lock; while `Running` it holds the lock itself. */
  datatype Place =
    | Idle
    | Entering(host: Id)
    | Missed(host: Id)
    | Leaving(host: Id, lock: LockId)
    | Waiting(host: Id, lock: LockId)
    | Running(host: Id, lock: LockId)
    | Dropping(host: Id, lock: LockId)

  /** `table` maps a host to the weak pointer of its lock; a lock is alive while some batch holds a handle on it. */
  datatype State = State(table: map<Id, LockId>, registryOwner: Option<Batch>, places: map<Batch, Place>,
                         owners: map<LockId, Batch>, nextLock: LockId)

  const INITIAL := State(map[], None, map[], map[], 0)

  function PlaceOf(s: State, b: Batch): Place { if b in s.places then s.places[b] else Idle }

  predicate HasHandle(p: Place) { p.Leaving? || p.Waiting? || p.Running? || p.Dropping? }

  predicate InRegistry(p: Place) { p.Entering? || p.Missed? || p.Leaving? }

  /** The strong count is not zero. */
  predicate Alive(s: State, lock: LockId) {
    exists b :: b in s.places && HasHandle(s.places[b]) && s.places[b].lock == lock
  }

  function At(s: State, b: Batch, p: Place): map<Batch, Place> { s.places[b := p] }

  /** One atomic action of a batch. Sweeping removes one dead entry; entries may die at any moment, also during the sweep. */
  datatype Step =
    | Enter(b: Batch, host: Id)
    | Sweep(b: Batch, entry: Id)
    | Hit(b: Batch)
    | Miss(b: Batch)
    | Insert(b: Batch)
    | Leave(b: Batch)
    | Acquire(b: Batch)
    | GiveUp(b: Batch)
    | Finish(b: Batch)
    | Drop(b: Batch)

  predicate Enabled(s: State, step: Step) {
    var p := PlaceOf(s, step.b);
    match step
    case Enter(_, _) => p.Idle? && s.registryOwner.None?
    case Sweep(_, entry) => p.Entering? && entry in s.table && !Alive(s, s.table[entry])
    case Hit(_) => p.Entering? && p.host in s.table && Alive(s, s.table[p.host])
    case Miss(_) => p.Entering? && !(p.host in s.table && Alive(s, s.table[p.host]))
    case Insert(_) => p.Missed?
    case Leave(_) => p.Leaving?
    case Acquire(_) => p.Waiting? && p.lock !in s.owners
    case GiveUp(_) => p.Waiting?
    case Finish(_) => p.Running?
    case Drop(_) => p.Dropping?
  }

  function Next(s: State, step: Step): State
    requires Enabled(s, step)
  {
    var b := step.b;
    var p := PlaceOf(s, b);
    match step
    case Enter(_, host) => s.(registryOwner := Some(b), places := At(s, b, Entering(host)))
    case Sweep(_, entry) => s.(table := s.table - {entry})
    case Hit(_) => s.(places := At(s, b, Leaving(p.host, s.table[p.host])))
    case Miss(_) => s.(places := At(s, b, Missed(p.host)))
    case Insert(_) => s.(table := s.table[p.host := s.nextLock], nextLock := s.nextLock + 1, places := At(s, b, Leaving(p.host, s.nextLock)))
    case Leave(_) => s.(registryOwner := None, places := At(s, b, Waiting(p.host, p.lock)))
    case Acquire(_) => s.(owners := s.owners[p.lock := b], places := At(s, b, Running(p.host, p.lock)))
    case GiveUp(_) => s.(places := At(s, b, Dropping(p.host, p.lock)))
    case Finish(_) => s.(owners := s.owners - {p.lock}, places := At(s, b, Dropping(p.host, p.lock)))
    case Drop(_) => s.(places := At(s, b, Idle))
  }

  // ----- what every step keeps -----

  /** Whoever is in the registry owns its mutex. */
  ghost predicate RegistryExclusive(s: State) {
    && (forall b :: b in s.places && InRegistry(s.places[b]) ==> s.registryOwner == Some(b))
    && (s.registryOwner.Some? ==> s.registryOwner.value in s.places && InRegistry(s.places[s.registryOwner.value]))
  }

  /** Every live handle for a host is on the lock the table names for it. */
  ghost predicate HandlesAgree(s: State) {
    forall b :: b in s.places && HasHandle(s.places[b]) ==> s.places[b].host in s.table && s.table[s.places[b].host] == s.places[b].lock
  }

  /** A batch about to insert a lock for a host sees no live handle for it. */
  ghost predicate MissedMeansNone(s: State) {
    forall b, c :: b in s.places && s.places[b].Missed? && c in s.places && HasHandle(s.places[c]) ==> s.places[c].host != s.places[b].host
  }

  /** Locks are drawn fresh, so different hosts have different ones. */
  ghost predicate FreshLocks(s: State) {
    && (forall h :: h in s.table ==> s.table[h] < s.nextLock)
    && (forall h, k :: h in s.table && k in s.table && h != k ==> s.table[h] != s.table[k])
  }

  /** A lock is owned exactly by the batch that runs under it. */
  ghost predicate OwnersRun(s: State) {
    && (forall b :: b in s.places && s.places[b].Running? ==> s.places[b].lock in s.owners && s.owners[s.places[b].lock] == b)
    && (forall l :: l in s.owners ==> s.owners[l] in s.places && s.places[s.owners[l]].Running? && s.places[s.owners[l]].lock == l)
  }

  ghost predicate Invariant(s: State) {
    RegistryExclusive(s) && HandlesAgree(s) && MissedMeansNone(s) && FreshLocks(s) && OwnersRun(s)
  }

  lemma StepKeepsRegistry(s: State, step: Step)
    requires RegistryExclusive(s) && Enabled(s, step)
    ensures RegistryExclusive(Next(s, step))
  {
    hide Alive;
  }

  lemma StepKeepsHandles(s: State, step: Step)
    requires RegistryExclusive(s) && HandlesAgree(s) && MissedMeansNone(s) && Enabled(s, step)
    ensures HandlesAgree(Next(s, step))
  {
    if step.Sweep? {
      forall b | b in s.places && HasHandle(s.places[b]) ensures s.places[b].host != step.entry {
        assert Alive(s, s.places[b].lock);
      }
    }
  }

  lemma StepKeepsMissed(s: State, step: Step)
    requires RegistryExclusive(s) && HandlesAgree(s) && MissedMeansNone(s) && Enabled(s, step)
    ensures MissedMeansNone(Next(s, step))
  {
    if step.Miss? {
      forall c | c in s.places && HasHandle(s.places[c]) ensures s.places[c].host != s.places[step.b].host {
        assert Alive(s, s.places[c].lock);
      }
    }
  }

  lemma StepKeepsLocks(s: State, step: Step)
    requires FreshLocks(s) && Enabled(s, step)
    ensures FreshLocks(Next(s, step))
  {
    hide Alive;
  }

  lemma StepKeepsOwners(s: State, step: Step)
    requires OwnersRun(s) && Enabled(s, step)
    ensures OwnersRun(Next(s, step))
  {
    hide Alive;
  }

  // ----- every interleaving -----

  /** A schedule of steps; a step that is not enabled when its turn comes does nothing. */
  function Run(steps: seq<Step>): State {
    if steps == [] then INITIAL
    else
      var s := Run(steps[..|steps| - 1]);
      var step := steps[|steps| - 1];
      if Enabled(s, step) then Next(s, step) else s
  }

  lemma {:induction false} RunsKeepInvariant(steps: seq<Step>)
    ensures Invariant(Run(steps))
  {
    hide Enabled, Next, RegistryExclusive, HandlesAgree, MissedMeansNone, FreshLocks, OwnersRun;
    if steps == [] {
      InitialInvariant();
    } else {
      var s, step := Run(steps[..|steps| - 1]), steps[|steps| - 1];
      RunsKeepInvariant(steps[..|steps| - 1]);
      if Enabled(s, step) {
        StepKeepsRegistry(s, step);
        StepKeepsHandles(s, step);
        StepKeepsMissed(s, step);
        StepKeepsLocks(s, step);
        StepKeepsOwners(s, step);
      }
    }
  }

  lemma InitialInvariant()
    ensures Invariant(INITIAL)
  {
  }

  /** In every interleaving, handles alive at one time are on one lock exactly when they are for one host, and at most one
      batch per host is running. */
  lemma OneBatchPerHost(steps: seq<Step>, b: Batch, c: Batch)
    requires b in Run(steps).places && c in Run(steps).places
    ensures var p, q := Run(steps).places[b], Run(steps).places[c];
            && (HasHandle(p) && HasHandle(q) ==> (p.lock == q.lock <==> p.host == q.host))
            && (p.Running? && q.Running? && p.host == q.host ==> b == c)
  {
    RunsKeepInvariant(steps);
  }

  /** No interleaving gets stuck: while some batch is under way, some batch under way can take a step. */
  lemma NeverStuck(steps: seq<Step>, b: Batch)
    requires b in Run(steps).places && !Run(steps).places[b].Idle?
    ensures exists step :: Enabled(Run(steps), step) && !step.Enter? && !step.GiveUp?
  {
    RunsKeepInvariant(steps);
    var s := Run(steps);
    hide Run;
    var p := s.places[b];
    match p
    case Entering(host) =>
      if host in s.table && Alive(s, s.table[host]) { assert Enabled(s, Hit(b)); } else { assert Enabled(s, Miss(b)); }
    case Missed(_) => assert Enabled(s, Insert(b));
    case Leaving(_, _) => assert Enabled(s, Leave(b));
    case Waiting(_, lock) =>
      if lock in s.owners { assert Enabled(s, Finish(s.owners[lock])); } else { assert Enabled(s, Acquire(b)); }
    case Running(_, _) => assert Enabled(s, Finish(b));
    case Dropping(_, _) => assert Enabled(s, Drop(b));
  }

  /** The steps of a schedule, some more steps after it. */
  function Continue(s: State, more: seq<Step>): State
    decreases |more|
  {
    if more == [] then s
    else Continue(if Enabled(s, more[0]) then Next(s, more[0]) else s, more[1..])
  }

  lemma {:induction false} RunContinues(steps: seq<Step>, more: seq<Step>)
    ensures Run(steps + more) == Continue(Run(steps), more)
    decreases |more|
  {
    hide Enabled, Next;
    if more == [] {
      assert steps + more == steps;
    } else {
      var longer := steps + [more[0]];
      assert longer[..|longer| - 1] == steps && longer + more[1..] == steps + more;
      RunContinues(longer, more[1..]);
    }
  }

  /** In every reachable state each waiting batch is at most two steps from running: whoever owns its lock can finish, and then
      the batch itself can acquire. */
  lemma WaiterCanRun(steps: seq<Step>, b: Batch)
    requires b in Run(steps).places && Run(steps).places[b].Waiting?
    ensures exists more: seq<Step> :: |more| <= 2 && PlaceOf(Run(steps + more), b).Running?
  {
    RunsKeepInvariant(steps);
    var s := Run(steps);
    var lock := s.places[b].lock;
    hide Run;
    if lock in s.owners {
      var first, second := Finish(s.owners[lock]), Acquire(b);
      var t := Next(s, first);
      assert Enabled(t, second);
      assert Continue(s, [first, second]) == Continue(t, [second]) == Continue(Next(t, second), []);
      RunContinues(steps, [first, second]);
      assert Run(steps + [first, second]).places[b] == Running(s.places[b].host, lock);
    } else {
      assert Continue(s, [Acquire(b)]) == Continue(Next(s, Acquire(b)), []);
      RunContinues(steps, [Acquire(b)]);
      assert Run(steps + [Acquire(b)]).places[b] == Running(s.places[b].host, lock);
    }
  }

  // ----- every call ends -----

  /** How many steps a batch may still take, with what its insertion adds to the sweeps of others. */
  function Rank(p: Place): nat {
    match p
    case Idle => 0
    case Entering(_) => 8
    case Missed(_) => 7
    case Leaving(_, _) => 4
    case Waiting(_, _) => 3
    case Running(_, _) => 2
    case Dropping(_, _) => 1
  }

  /** The steps batches below `n` may still take. */
  function Ranks(places: map<Batch, Place>, n: nat): nat {
    if n == 0 then 0 else Ranks(places, n - 1) + Rank(if n - 1 in places then places[n - 1] else Idle)
  }

  function Work(s: State, n: nat): nat { Ranks(s.places, n) + |s.table| }

  lemma {:induction false} RanksAfter(places: map<Batch, Place>, b: Batch, p: Place, n: nat)
    ensures Ranks(places[b := p], n)
         == Ranks(places, n) + if b < n then Rank(p) - Rank(if b in places then places[b] else Idle) else 0
  {
    hide Rank;
    if n > 0 {
      RanksAfter(places, b, p, n - 1);
    }
  }

  lemma SizeAfter(table: map<Id, LockId>, h: Id, l: LockId)
    ensures |table[h := l]| <= |table| + 1
    ensures h in table ==> |table - {h}| == |table| - 1
  {
    assert table[h := l].Keys == table.Keys + {h} && (table - {h}).Keys == table.Keys - {h};
    assert |table[h := l].Keys| == |table[h := l]| && |(table - {h}).Keys| == |table - {h}| && |table.Keys| == |table|;
  }

  lemma TableAfter(s: State, step: Step)
    requires Enabled(s, step)
    ensures var t := Next(s, step);
            |t.table| <= |s.table| + if step.Sweep? then -1 else if step.Insert? then 1 else 0
  {
    hide Alive;
    if step.Sweep? { SizeAfter(s.table, step.entry, 0); }
    if step.Insert? { SizeAfter(s.table, s.places[step.b].host, s.nextLock); }
  }

  lemma PlacesAfter(s: State, step: Step)
    requires Enabled(s, step) && !step.Enter?
    ensures var t := Next(s, step);
            if step.Sweep? then t.places == s.places
            else step.b in t.places && t.places == s.places[step.b := t.places[step.b]]
                 && Rank(t.places[step.b]) + (if step.Insert? then 2 else 1) <= Rank(PlaceOf(s, step.b))
  {
    hide Alive;
  }

  /** Every step but a new call leaves less work. */
  lemma StepLowersWork(s: State, step: Step, n: nat)
    requires Enabled(s, step) && !step.Enter? && step.b < n
    ensures Work(Next(s, step), n) < Work(s, n)
  {
    hide Ranks, Rank, Enabled, Next;
    PlacesAfter(s, step);
    TableAfter(s, step);
    if !step.Sweep? {
      RanksAfter(s.places, step.b, Next(s, step).places[step.b], n);
    }
  }

  /** Each step is possible when its turn comes, and none is a new call. */
  ghost predicate Quiet(s: State, more: seq<Step>, n: nat)
    decreases |more|
  {
    more == [] || (Enabled(s, more[0]) && !more[0].Enter? && more[0].b < n && Quiet(Next(s, more[0]), more[1..], n))
  }

  /** Without new calls only so many steps are left, in whatever order they are taken. */
  lemma {:induction false} QuietRunsEnd(s: State, more: seq<Step>, n: nat)
    requires Quiet(s, more, n)
    ensures |more| <= Work(s, n)
    decreases |more|
  {
    hide Enabled, Next, Work;
    if more != [] {
      StepLowersWork(s, more[0], n);
      QuietRunsEnd(Next(s, more[0]), more[1..], n);
    }
  }

  /** When no step but a new call is left, every call has ended; by the bound above, that comes. */
  lemma StillMeansIdle(steps: seq<Step>)
    requires forall step :: Enabled(Run(steps), step) ==> step.Enter?
    ensures forall b :: PlaceOf(Run(steps), b).Idle?
  {
    forall b ensures PlaceOf(Run(steps), b).Idle? {
      if !PlaceOf(Run(steps), b).Idle? {
        NeverStuck(steps, b);
      }
    }
  }

  // ----- the call itself, uninterrupted -----

  function LiveEntries(s: State): map<Id, LockId> {
    map h | h in s.table && Alive(s, s.table[h]) :: s.table[h]
  }

  /** The state after a batch has taken its handle: dead entries are gone, and the handle is on the host's live lock, or on a new one. */
  function TakeHandle(s: State, b: Batch, host: Id): State {
    var live := LiveEntries(s);
    if host in live then s.(table := live, places := At(s, b, Waiting(host, live[host])))
    else s.(table := live[host := s.nextLock], nextLock := s.nextLock + 1, places := At(s, b, Waiting(host, s.nextLock)))
  }

  /** The process-wide registry; `steps` is the schedule that led to its state. */
  class LockRegistry {
    var state: State
    ghost var steps: seq<Step>

    ghost predicate Valid()
      reads this
    {
      state == Run(steps)
    }

    constructor ()
      ensures Valid() && state == INITIAL
    {
      state, steps := INITIAL, [];
    }

    method Do(step: Step)
      requires Valid() && Enabled(state, step)
      modifies this
      ensures Valid() && state == Next(old(state), step) && steps == old(steps) + [step]
    {
      assert (steps + [step])[..|steps|] == steps;
      state := Next(state, step);
      steps := steps + [step];
    }

    /** The sweep: every entry whose lock is dead is removed. */
    method RetainLive(b: Batch)
      requires Valid() && PlaceOf(state, b).Entering?
      modifies this
      ensures Valid() && state == old(state).(table := LiveEntries(old(state)))
    {
      hide Run, Alive;
      ghost var s0 := state;
      var rest := state.table.Keys;
      while rest != {}
        invariant Valid() && state == s0.(table := state.table)
        invariant forall h :: h in state.table ==> h in s0.table && state.table[h] == s0.table[h]
        invariant forall h :: h in s0.table && Alive(s0, s0.table[h]) ==> h in state.table
        invariant forall h :: h in state.table && h !in rest ==> Alive(s0, state.table[h])
        decreases |rest|
      {
        var entry :| entry in rest;
        SameAlive(s0, state);
        if entry in state.table && !Alive(state, state.table[entry]) {
          Do(Sweep(b, entry));
        }
        rest := rest - {entry};
      }
      assert state.table == LiveEntries(s0);
    }

    /** Sweep, look up, insert if missing: the call served without interruption is one schedule of its steps. */
    method ConnectionLock(b: Batch, host: Id) returns (lock: LockId)
      requires Valid() && PlaceOf(state, b).Idle? && state.registryOwner.None?
      modifies this
      ensures Valid() && state == TakeHandle(old(state), b, host)
      ensures state.places == old(state).places[b := Waiting(host, lock)] && state.registryOwner.None?
      // Afterwards the table names a live lock for each of its hosts, this one included, and no live one was lost or replaced.
      ensures host in state.table && state.table[host] == lock && forall h :: h in state.table ==> Alive(state, state.table[h])
      ensures forall h :: h in old(state).table && Alive(old(state), old(state).table[h]) ==>
                h in state.table && state.table[h] == old(state).table[h]
    {
      hide Run, Alive;
      ghost var s0 := state;
      Do(Enter(b, host));
      EnteringChangesNoLife(s0, b, host);
      RetainLive(b);
      SameAlive(s0.(registryOwner := Some(b), places := At(s0, b, Entering(host))), state);
      lock := LookUp(b, host);
      HandleTaken(s0, b, host, lock);
    }

    /** The rest of the call, in the registry: the host's lock, or a new one, and out. */
    method LookUp(b: Batch, host: Id) returns (lock: LockId)
      requires Valid() && PlaceOf(state, b) == Entering(host)
      requires host in state.table ==> Alive(state, state.table[host])
      modifies this
      ensures Valid()
      ensures var s := old(state);
              && lock == (if host in s.table then s.table[host] else s.nextLock)
              && state == s.(registryOwner := None, places := At(s, b, Waiting(host, lock)), table := s.table[host := lock],
                             nextLock := if host in s.table then s.nextLock else s.nextLock + 1)
    {
      hide Run, Alive;
      if host in state.table {
        lock := state.table[host];
        assert state.table == state.table[host := lock];
        Do(Hit(b));
      } else {
        lock := state.nextLock;
        Do(Miss(b));
        Do(Insert(b));
      }
      Do(Leave(b));
    }
  }

  lemma HandleTaken(s: State, b: Batch, host: Id, lock: LockId)
    requires PlaceOf(s, b).Idle? && (host in LiveEntries(s) ==> lock == LiveEntries(s)[host]) && (host !in LiveEntries(s) ==> lock == s.nextLock)
    ensures var t := TakeHandle(s, b, host);
            forall h :: h in t.table ==> Alive(t, t.table[h])
  {
    var t := TakeHandle(s, b, host);
    assert t.places[b] == Waiting(host, lock);
    forall h | h in t.table ensures Alive(t, t.table[h]) {
      if h != host {
        assert Alive(s, s.table[h]);
        var c :| c in s.places && HasHandle(s.places[c]) && s.places[c].lock == s.table[h];
        assert t.places[c] == s.places[c];
      }
    }
  }

  lemma SameAlive(s: State, t: State)
    requires t.places == s.places
    ensures forall lock :: Alive(s, lock) <==> Alive(t, lock)
  {
  }

  lemma EnteringChangesNoLife(s: State, b: Batch, host: Id)
    requires PlaceOf(s, b).Idle?
    ensures var t := s.(registryOwner := Some(b), places := At(s, b, Entering(host)));
            (forall lock :: Alive(s, lock) <==> Alive(t, lock)) && LiveEntries(t) == LiveEntries(s)
  {
    var t := s.(registryOwner := Some(b), places := At(s, b, Entering(host)));
    forall lock ensures Alive(s, lock) <==> Alive(t, lock) {
      if Alive(s, lock) {
        var c :| c in s.places && HasHandle(s.places[c]) && s.places[c].lock == lock;
        assert t.places[c] == s.places[c];
      }
      if Alive(t, lock) {
        var c :| c in t.places && HasHandle(t.places[c]) && t.places[c].lock == lock;
        assert s.places[c] == t.places[c];
      }
    }
  }
}
