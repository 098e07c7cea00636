/** The probe loop of an SSH batch: its time and output budgets. */
module SshBatch {
  import opened Wrappers

  const MAX_PROBES_PER_BATCH := 6
  const MAX_BATCH_WALL_TIME_MILLIS := 90_000
  const MAX_BATCH_OUTPUT_BYTES := 2 * 1024 * 1024

  datatype Probe = Probe(id: nat, timeoutMillis: nat, stdoutLimit: nat, stderrLimit: nat)

  datatype Code = InvalidConfig | HostKeyMismatch | Cancelled | Timeout | OutputLimit | OtherFailure

  /** What the executor reports: a finished process, its failure classified from its error output, or an error of its own. */
  datatype Executed = Finished(success: bool, classified: Code, stdout: nat, stderr: nat) | Error(code: Code)

  datatype Outcome = Success(id: nat, stdout: nat) | Failure(id: nat, code: Code)

  datatype Output = Output(outcomes: seq<Outcome>, outputBytes: nat)

  function Limits(probes: seq<Probe>): nat {
    if probes == [] then 0 else Limits(probes[..|probes| - 1]) + probes[|probes| - 1].stdoutLimit + probes[|probes| - 1].stderrLimit
  }

  /** The outcome recorded for an executed probe, or the code that ends the whole batch. */
  function Judge(p: Probe, e: Executed): Result<Outcome, Code> {
    match e
    case Finished(success, classified, stdout, _) =>
      if success then Ok(Success(p.id, stdout))
      else if classified == HostKeyMismatch then Err(HostKeyMismatch)
      else Ok(Failure(p.id, classified))
    case Error(code) => if code == HostKeyMismatch || code == Cancelled then Err(code) else Ok(Failure(p.id, code))
  }

  predicate ValidBatch(probes: seq<Probe>) {
    0 < |probes| <= MAX_PROBES_PER_BATCH && forall i, j :: 0 <= i < j < |probes| ==> probes[i].id != probes[j].id
  }

  function BytesOf(e: Executed): nat { if e.Finished? then e.stdout + e.stderr else 0 }

  /** What a batch meets: before probe i the loop sees `cancelled(i)` and `elapsed(i)`; started with a timeout, the executor
      reports `execute(i, timeout)`. */
  datatype Environment = Environment(cancelled: nat -> bool, elapsed: nat -> nat, execute: (nat, nat) -> Executed)

  /** A probe may take its own timeout, but no more than the batch has left. */
  function TimeoutOf(p: Probe, elapsed: nat): nat
    requires elapsed < MAX_BATCH_WALL_TIME_MILLIS
  {
    var left := MAX_BATCH_WALL_TIME_MILLIS - elapsed;
    if p.timeoutMillis < left then p.timeoutMillis else left
  }

  function Report(probes: seq<Probe>, env: Environment, i: nat): Executed
    requires i < |probes| && env.elapsed(i) < MAX_BATCH_WALL_TIME_MILLIS
  {
    env.execute(i, TimeoutOf(probes[i], env.elapsed(i)))
  }

  /** The first `k` probes were started in turn: the batch was not cancelled, and in time. */
  ghost predicate Started(probes: seq<Probe>, env: Environment, k: nat) {
    k <= |probes| && forall i :: 0 <= i < k ==> !env.cancelled(i) && env.elapsed(i) < MAX_BATCH_WALL_TIME_MILLIS
  }

  /** The first `k` of the started probes left these outcomes. */
  ghost predicate Left(probes: seq<Probe>, env: Environment, outcomes: seq<Outcome>, k: nat)
    requires Started(probes, env, k)
  {
    k <= |outcomes| && forall i :: 0 <= i < k ==> Judge(probes[i], Report(probes, env, i)) == Ok(outcomes[i])
  }

  /** Output of the first `k` started probes. */
  function Bytes(probes: seq<Probe>, env: Environment, k: nat): nat
    requires Started(probes, env, k)
  {
    if k == 0 then 0 else Bytes(probes, env, k - 1) + BytesOf(Report(probes, env, k - 1))
  }

  /** Runs the probes in turn; `executed` is the number of processes started. */
  method ExecuteProbes(probes: seq<Probe>, env: Environment) returns (r: Result<Output, Code>, executed: nat)
    ensures (!(1 <= |probes| <= 6) || exists i, j :: 0 <= i < j < |probes| && probes[i].id == probes[j].id) <==> r == Err(InvalidConfig) && executed == 0
    ensures Started(probes, env, executed)
    // The budget is reserved before a probe runs, so what ran can never exceed it.
    ensures Limits(probes[..executed]) <= 2_097_152
    // One outcome per executed probe, in order, and at most one more for the probe a budget stopped.
    ensures r.Ok? ==>
      var out := r.value;
      && executed <= |out.outcomes| <= executed + 1
      && Left(probes, env, out.outcomes, executed)
      && (|out.outcomes| == executed ==> executed == |probes|)
      && (|out.outcomes| == executed + 1 ==>
            && executed < |probes| && !env.cancelled(executed)
            && out.outcomes[executed] == Failure(probes[executed].id,
                 if env.elapsed(executed) >= MAX_BATCH_WALL_TIME_MILLIS then Timeout else OutputLimit)
            && (env.elapsed(executed) < MAX_BATCH_WALL_TIME_MILLIS ==> Limits(probes[..executed + 1]) > MAX_BATCH_OUTPUT_BYTES))
      && out.outputBytes == Bytes(probes, env, executed)
    // A failed batch was cancelled at a check, or a probe met a mismatched host key or a cancellation; every probe before
    // that one left an outcome.
    ensures r.Err? && ValidBatch(probes) ==>
      || (&& executed < |probes| && env.cancelled(executed) && r.error == Cancelled
          && forall i :: 0 <= i < executed ==> Judge(probes[i], Report(probes, env, i)).Ok?)
      || (&& executed > 0 && Judge(probes[executed - 1], Report(probes, env, executed - 1)) == Err(r.error)
          && forall i :: 0 <= i < executed - 1 ==> Judge(probes[i], Report(probes, env, i)).Ok?)
  {
    hide Judge, Report;
    executed := 0;
    if !ValidBatch(probes) {
      r := Err(InvalidConfig);
      return;
    }
    var outcomes: seq<Outcome>, outputBytes, reserved := [], 0, 0;
    for i := 0 to |probes|
      invariant executed == i == |outcomes|
      invariant Started(probes, env, i)
      invariant reserved == Limits(probes[..i]) <= MAX_BATCH_OUTPUT_BYTES
      invariant outputBytes == Bytes(probes, env, i)
      invariant Left(probes, env, outcomes, i)
    {
      var probe := probes[i];
      assert probes[..i + 1][..i] == probes[..i];
      if env.cancelled(i) {
        r := Err(Cancelled);
        return;
      }
      if env.elapsed(i) >= MAX_BATCH_WALL_TIME_MILLIS {
        r := Ok(Output(outcomes + [Failure(probe.id, Timeout)], outputBytes));
        return;
      }
      var required := probe.stdoutLimit + probe.stderrLimit;
      if reserved + required > MAX_BATCH_OUTPUT_BYTES {
        r := Ok(Output(outcomes + [Failure(probe.id, OutputLimit)], outputBytes));
        return;
      }
      reserved := reserved + required;
      executed := i + 1;
      var e := Report(probes, env, i);
      var judged := Judge(probe, e);
      if judged.Err? {
        r := Err(judged.error);
        return;
      }
      outputBytes := outputBytes + BytesOf(e);
      outcomes := outcomes + [judged.value];
    }
    assert probes[..|probes|] == probes;
    r := Ok(Output(outcomes, outputBytes));
  }

  /** An executor that honours the limits of each probe keeps the batch within its output budget, and one that honours the
      timeouts keeps it within its wall time. */
  lemma {:induction false} HonestExecutorStaysInBudget(probes: seq<Probe>, env: Environment, k: nat)
    requires Started(probes, env, k)
    requires forall i :: 0 <= i < k && Report(probes, env, i).Finished? ==>
               Report(probes, env, i).stdout <= probes[i].stdoutLimit && Report(probes, env, i).stderr <= probes[i].stderrLimit
    requires env.elapsed(0) == 0 && forall i :: 0 <= i < k ==> env.elapsed(i + 1) <= env.elapsed(i) + TimeoutOf(probes[i], env.elapsed(i))
    ensures Bytes(probes, env, k) <= Limits(probes[..k])
    ensures env.elapsed(k) <= MAX_BATCH_WALL_TIME_MILLIS
  {
    if k > 0 {
      HonestExecutorStaysInBudget(probes, env, k - 1);
      assert probes[..k][..k - 1] == probes[..k - 1];
    }
  }

  // ----- what reports and timeouts mean -----

  /** A finished process that succeeded leaves its output; a mismatched host key ends the batch, read from a failed process or reported,
      and so does a reported cancellation; every other failure is left under its code. */
  lemma JudgeMeans(p: Probe, e: Executed)
    ensures e.Finished? && e.success ==> Judge(p, e) == Ok(Success(p.id, e.stdout))
    ensures e.Finished? && !e.success && e.classified == HostKeyMismatch ==> Judge(p, e) == Err(HostKeyMismatch)
    ensures e.Finished? && !e.success && e.classified != HostKeyMismatch ==> Judge(p, e) == Ok(Failure(p.id, e.classified))
    ensures e.Error? && e.code in {HostKeyMismatch, Cancelled} ==> Judge(p, e) == Err(e.code)
    ensures e.Error? && e.code !in {HostKeyMismatch, Cancelled} ==> Judge(p, e) == Ok(Failure(p.id, e.code))
  {
  }

  /** A probe gets its full timeout while the batch has that long left of its 90 seconds, and all that is left otherwise. */
  lemma TimeoutMeans(p: Probe, elapsed: nat)
    requires elapsed < 90_000
    ensures p.timeoutMillis <= 90_000 - elapsed ==> TimeoutOf(p, elapsed) == p.timeoutMillis
    ensures p.timeoutMillis > 90_000 - elapsed ==> TimeoutOf(p, elapsed) == 90_000 - elapsed
  {
  }

  /** What is reserved for probes is the sum of their limits, and what they put out the sum of both their streams. */
  lemma SumsMean(probes: seq<Probe>, env: Environment, k: nat)
    requires Started(probes, env, k + 1)
    ensures Limits(probes[..0]) == 0 && Limits(probes[..k + 1]) == Limits(probes[..k]) + probes[k].stdoutLimit + probes[k].stderrLimit
    ensures Bytes(probes, env, 0) == 0
    ensures var e := Report(probes, env, k);
            Bytes(probes, env, k + 1) == Bytes(probes, env, k) + if e.Finished? then e.stdout + e.stderr else 0
  {
    assert probes[..k + 1][..k] == probes[..k];
  }
}
