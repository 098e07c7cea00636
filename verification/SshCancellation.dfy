/** Cancellation of SSH batches: a flag and a notification, as interleaved steps of cancellers and waiters. */
module SshCancellation {

  /** `cancel()` sets the flag, then notifies. */
  datatype Canceller = NotCalled | FlagSet | Done

  /** `cancelled()` registers for notifications, then looks at the flag, then waits. A registration made before a notification is
      woken by it, whether or not the wait has begun; `seen` counts the notifications before the registration. */
  datatype Waiter = NotStarted | Registered(seen: nat) | Awaiting(seen: nat) | Returned

  datatype State = State(flag: bool, notifications: nat, cancellers: map<nat, Canceller>, waiters: map<nat, Waiter>)

  const INITIAL := State(false, 0, map[], map[])

  function CancellerOf(s: State, c: nat): Canceller { if c in s.cancellers then s.cancellers[c] else NotCalled }

  function WaiterOf(s: State, w: nat): Waiter { if w in s.waiters then s.waiters[w] else NotStarted }

  datatype Step = StoreFlag(c: nat) | Notify(c: nat) | Register(w: nat) | Look(w: nat) | Wake(w: nat)

  predicate Enabled(s: State, step: Step) {
    match step
    case StoreFlag(c) => CancellerOf(s, c).NotCalled?
    case Notify(c) => CancellerOf(s, c).FlagSet?
    case Register(w) => WaiterOf(s, w).NotStarted?
    case Look(w) => WaiterOf(s, w).Registered?
    case Wake(w) => WaiterOf(s, w).Awaiting? && s.notifications > WaiterOf(s, w).seen
  }

  function Next(s: State, step: Step): State
    requires Enabled(s, step)
  {
    match step
    case StoreFlag(c) => s.(flag := true, cancellers := s.cancellers[c := FlagSet])
    case Notify(c) => s.(notifications := s.notifications + 1, cancellers := s.cancellers[c := Done])
    case Register(w) => s.(waiters := s.waiters[w := Registered(s.notifications)])
    case Look(w) => s.(waiters := s.waiters[w := if s.flag then Returned else Awaiting(WaiterOf(s, w).seen)])
    case Wake(w) => s.(waiters := s.waiters[w := Returned])
  }

  function Run(steps: seq<Step>): State {
    if steps == [] then INITIAL
    else
      var s := Run(steps[..|steps| - 1]);
      var step := steps[|steps| - 1];
      if Enabled(s, step) then Next(s, step) else s
  }

  /** While the flag is clear nobody has cancelled or notified; whoever waits saw the flag clear, so before any notification. */
  ghost predicate Invariant(s: State) {
    && (!s.flag ==> s.notifications == 0 && forall c :: c in s.cancellers ==> s.cancellers[c].NotCalled?)
    && (forall c :: c in s.cancellers && s.cancellers[c].Done? ==> s.notifications > 0)
    && (forall w :: w in s.waiters && s.waiters[w].Registered? ==> s.waiters[w].seen <= s.notifications)
    && (forall w :: w in s.waiters && s.waiters[w].Awaiting? ==> s.waiters[w].seen == 0)
    && (forall w :: w in s.waiters && s.waiters[w].Returned? ==> s.flag)
  }

  lemma {:induction false} RunsKeepInvariant(steps: seq<Step>)
    ensures Invariant(Run(steps))
  {
    if steps != [] {
      RunsKeepInvariant(steps[..|steps| - 1]);
    }
  }

  /** The step a waiter takes next by itself, if it can. */
  function OwnStep(s: State, w: nat): Step {
    match WaiterOf(s, w)
    case NotStarted => Register(w)
    case Registered(_) => Look(w)
    case _ => Wake(w)
  }

  /** The waiter alone, for some steps. */
  function Alone(s: State, w: nat, n: nat): State
    decreases n
  {
    if n == 0 || !Enabled(s, OwnStep(s, w)) then s else Alone(Next(s, OwnStep(s, w)), w, n - 1)
  }

  /** In every interleaving, once some `cancel()` has completed, any waiter returns by its own next steps, two at most; and no waiter ever returns before a cancel began. */
  lemma CancelWakesEveryWaiter(steps: seq<Step>, w: nat)
    ensures WaiterOf(Run(steps), w).Returned? ==> Run(steps).flag
    ensures (exists c :: CancellerOf(Run(steps), c).Done?) ==> WaiterOf(Alone(Run(steps), w, 2), w).Returned?
  {
    RunsKeepInvariant(steps);
    var s := Run(steps);
    hide Run;
    if exists c :: CancellerOf(s, c).Done? {
      assert s.flag && s.notifications > 0;
      match WaiterOf(s, w)
      case NotStarted =>
        var t := Next(s, Register(w));
        assert Alone(s, w, 2) == Alone(t, w, 1) == Alone(Next(t, Look(w)), w, 0);
      case Registered(_) =>
        assert Alone(s, w, 2) == Alone(Next(s, Look(w)), w, 1);
      case Awaiting(_) =>
        assert Alone(s, w, 2) == Alone(Next(s, Wake(w)), w, 1);
      case Returned =>
    }
  }
}
