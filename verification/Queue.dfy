/**
 * Many workers, one Postgres job table and the barrier behind them. Leases
 * expire, jobs are reclaimed and retried, workers die at any point, and several
 * jobs may carry the same artifact; other callers use the barrier meanwhile.
 */
module Queue {
  import opened Wrappers
  import opened Artifacts
  import opened Jobs
  import opened ReplayChain
  import B = BarrierRuns

  /** A job row; its payload is None when it carries no artifact that parses. */
  type Row = Job<Option<Artifact>>

  datatype Worker =
    | Has(job: nat)
    /** inside the authorizer's call of `execute` */
    | Authorizing(job: nat, call: nat)
    /** the authorizer returned a job spec */
    | Authorized(job: nat, call: nat)
    | InSandbox(job: nat, run: nat)
    | Passing(job: nat)
    | Failing(job: nat)

  /** One sandbox run; the exit code is None until it ends, and stays so on a timeout or crash. */
  datatype SandboxRun = SandboxRun(job: nat, call: nat, a: Artifact, exit: Option<int>)

  /** A worker missing from the map is idle or dead. */
  datatype State = State(barrier: B.State, rows: seq<Row>, workers: map<nat, Worker>, runs: seq<SandboxRun>)

  const INITIAL := State(B.INITIAL, [], map[], [])

  datatype Step =
    | Barrier(step: B.Step)
    | Enqueue(jobId: string, key: string, artifact: Option<Artifact>, maxAttempts: nat, availableAt: int)
    | Claim(w: nat, job: nat, now: int, leaseSeconds: nat)
    | CallAuthorizer(w: nat, begin: B.Step)
    | ReturnFromAuthorizer(w: nat, isSpec: bool)
    | StartSandbox(w: nat)
    | RejectSpec(w: nat)
    | EndSandbox(w: nat, exit: Option<int>)
    | Complete(w: nat)
    | Fail(w: nat, error: string, availableAt: int)
    | Die(w: nat)

  predicate KeyKnown(rows: seq<Row>, key: string) {
    exists i | 0 <= i < |rows| :: rows[i].key == key
  }

  function SetWorker(s: State, w: nat, to: Worker): State {
    s.(workers := s.workers[w := to])
  }

  /** Whether the worker calls the barrier now, with its job's artifact and under a fresh call id. */
  predicate CallsBarrier(s: State, w: nat, b: B.Step) {
    && w in s.workers && s.workers[w].Has? && s.workers[w].job < |s.rows|
    && s.rows[s.workers[w].job].payload.Some?
    && b.Begin? && b.a == s.rows[s.workers[w].job].payload.value && b.call !in s.barrier.calls
  }

  /** The barrier's part of a step. The nonce table is durable, so it never restarts from its frames here. */
  ghost function BarrierAfter(env: Env, s: State, step: Step): B.State {
    if step.Barrier? && !step.step.Restart? then B.Apply(env, s.barrier, step.step)
    else if step.CallAuthorizer? && CallsBarrier(s, step.w, step.begin) then B.Apply(env, s.barrier, step.begin)
    else s.barrier
  }

  /** The queue's part of a step; one that is not enabled changes nothing. */
  function Next(s: State, step: Step): State {
    match step
    case Barrier(_) => s
    case Enqueue(id, key, artifact, max, at) =>
      if key == "" || max == 0 || KeyKnown(s.rows, key) then s
      else s.(rows := s.rows + [Job(id, key, artifact, Queued, 0, max, at, None, None)])
    case Claim(w, j, now, lease) =>
      if w in s.workers || j >= |s.rows| || !(Due(s.rows[j], now) || LeaseExpired(s.rows[j], now)) then s
      else SetWorker(s, w, Has(j)).(rows := s.rows[j := ClaimedRow(s.rows[j]).(lease := Some(now + lease))])
    case CallAuthorizer(w, b) =>
      if CallsBarrier(s, w, b) then SetWorker(s, w, Authorizing(s.workers[w].job, b.call))
      else if w in s.workers && s.workers[w].Has? && s.workers[w].job < |s.rows|
              && s.rows[s.workers[w].job].payload.None? then
        SetWorker(s, w, Failing(s.workers[w].job))
      else s
    case ReturnFromAuthorizer(w, isSpec) =>
      if w !in s.workers || !s.workers[w].Authorizing? || s.workers[w].call !in s.barrier.calls then s
      else
        var j, p := s.workers[w].job, s.barrier.calls[s.workers[w].call];
        if p.Refused? || p.Crashed? then SetWorker(s, w, Failing(j))
        else if !p.Returned? then s
        else if p.outcome.Completed? && isSpec then SetWorker(s, w, Authorized(j, s.workers[w].call))
        else SetWorker(s, w, Failing(j))
    case RejectSpec(w) =>
      if w in s.workers && s.workers[w].Authorized? then SetWorker(s, w, Failing(s.workers[w].job)) else s
    case StartSandbox(w) =>
      if w !in s.workers || !s.workers[w].Authorized? || s.workers[w].job >= |s.rows|
         || s.rows[s.workers[w].job].payload.None? then s
      else
        var j, c := s.workers[w].job, s.workers[w].call;
        SetWorker(s, w, InSandbox(j, |s.runs|))
        .(runs := s.runs + [SandboxRun(j, c, s.rows[j].payload.value, None)])
    case EndSandbox(w, exit) =>
      if w !in s.workers || !s.workers[w].InSandbox? || s.workers[w].run >= |s.runs| then s
      else
        var j, k := s.workers[w].job, s.workers[w].run;
        SetWorker(s, w, if exit == Some(0) then Passing(j) else Failing(j))
        .(runs := s.runs[k := s.runs[k].(exit := exit)])
    case Complete(w) =>
      if w !in s.workers || !s.workers[w].Passing? || s.workers[w].job >= |s.rows| then s
      else
        var j := s.workers[w].job;
        s.(workers := s.workers - {w}, rows := s.rows[j := CompletedRow(s.rows[j])])
    case Fail(w, error, at) =>
      if w !in s.workers || !s.workers[w].Failing? || s.workers[w].job >= |s.rows| then s
      else
        var j := s.workers[w].job;
        s.(workers := s.workers - {w}, rows := s.rows[j := FailedRow(s.rows[j], error, at)])
    case Die(w) => s.(workers := s.workers - {w})
  }

  /**
   * One atomic step. `Barrier` steps advance the calls of workers and of
   * everybody else.
   */
  ghost function Apply(env: Env, s: State, step: Step): State {
    Next(s, step).(barrier := BarrierAfter(env, s, step))
  }

  ghost function Run(env: Env, s: State, steps: seq<Step>): State
    decreases |steps|
  {
    if steps == [] then s else Run(env, Apply(env, s, steps[0]), steps[1..])
  }

  // ----- what every step keeps -----

  /** The call ended well, for this very artifact. */
  ghost predicate CallPassed(calls: map<nat, B.Phase>, call: nat, a: Artifact) {
    call in calls && calls[call].Returned? && calls[call].a == a
  }

  predicate OwnsCall(worker: Worker, call: nat) {
    (worker.Authorizing? || worker.Authorized?) && worker.call == call
  }

  /** Some sandbox run of the job exited with code 0. */
  ghost predicate JobPassed(runs: seq<SandboxRun>, job: nat) {
    exists k :: 0 <= k < |runs| && runs[k].job == job && runs[k].exit == Some(0)
  }

  ghost predicate WorkerOk(s: State, worker: Worker) {
    && worker.job < |s.rows|
    && (worker.Authorizing? ==>
          && s.rows[worker.job].payload.Some?
          && worker.call in s.barrier.calls
          && (var a := B.ArtifactOf(s.barrier.calls[worker.call]); a == None || a == s.rows[worker.job].payload))
    && (worker.Authorized? ==>
          && s.rows[worker.job].payload.Some?
          && CallPassed(s.barrier.calls, worker.call, s.rows[worker.job].payload.value))
    && (worker.InSandbox? ==>
          worker.run < |s.runs| && s.runs[worker.run].job == worker.job && s.runs[worker.run].exit.None?)
    && (worker.Passing? ==> JobPassed(s.runs, worker.job))
  }

  ghost predicate RunOk(s: State, run: SandboxRun) {
    && run.job < |s.rows|
    && s.rows[run.job].payload == Some(run.a)
    && CallPassed(s.barrier.calls, run.call, run.a)
  }

  /** No call is answered for twice. */
  ghost predicate CallsOwnedOnce(s: State) {
    && (forall w, v, c | w in s.workers && v in s.workers && OwnsCall(s.workers[w], c) && OwnsCall(s.workers[v], c) ::
          w == v)
    && (forall w, k | w in s.workers && 0 <= k < |s.runs| :: !OwnsCall(s.workers[w], s.runs[k].call))
    && (forall k, l | 0 <= k < l < |s.runs| :: s.runs[k].call != s.runs[l].call)
    && (forall w, v | w in s.workers && v in s.workers && s.workers[w].InSandbox? && s.workers[v].InSandbox?
          && s.workers[w].run == s.workers[v].run :: w == v)
  }

  ghost predicate RowsOk(s: State) {
    && (forall i, j | 0 <= i < j < |s.rows| :: s.rows[i].key != s.rows[j].key)
    && (forall j | 0 <= j < |s.rows| && s.rows[j].status == Succeeded :: JobPassed(s.runs, j))
  }

  ghost predicate BarrierOk(env: Env, b: B.State) {
    B.Safe(env.hash, b) && B.Gate(b) && B.EffectsTracked(b) && B.ReturnedRecorded(b)
  }

  /** The queue's own invariant, over whatever calls the barrier has. */
  ghost predicate QueueOk(s: State) {
    && (forall w | w in s.workers :: WorkerOk(s, s.workers[w]))
    && (forall k | 0 <= k < |s.runs| :: RunOk(s, s.runs[k]))
    && CallsOwnedOnce(s)
    && RowsOk(s)
  }

  ghost predicate Inv(env: Env, s: State) {
    BarrierOk(env, s.barrier) && QueueOk(s)
  }

  ghost predicate RowsExtend(rows: seq<Row>, rows': seq<Row>) {
    && |rows| <= |rows'|
    && forall j | 0 <= j < |rows| :: rows'[j].payload == rows[j].payload && rows'[j].key == rows[j].key
  }

  ghost predicate RunsExtend(runs: seq<SandboxRun>, runs': seq<SandboxRun>) {
    && |runs| <= |runs'|
    && forall k | 0 <= k < |runs| ::
         && runs'[k].job == runs[k].job && runs'[k].call == runs[k].call && runs'[k].a == runs[k].a
         && (runs[k].exit.Some? ==> runs'[k].exit == runs[k].exit)
  }

  /** What later states never take back. */
  ghost predicate Extends(s: State, s': State) {
    && RowsExtend(s.rows, s'.rows)
    && RunsExtend(s.runs, s'.runs)
    && B.CallsAdvance(s.barrier.calls, s'.barrier.calls)
  }

  lemma PassedStaysPassed(s: State, s': State, job: nat)
    requires Extends(s, s') && JobPassed(s.runs, job)
    ensures JobPassed(s'.runs, job)
  {
    var k :| 0 <= k < |s.runs| && s.runs[k].job == job && s.runs[k].exit == Some(0);
    assert s'.runs[k].job == job && s'.runs[k].exit == Some(0);
  }

  lemma WorkerStaysOk(s: State, s': State, worker: Worker)
    requires Extends(s, s') && WorkerOk(s, worker)
    requires worker.InSandbox? ==> s'.runs[worker.run].exit.None?
    ensures WorkerOk(s', worker)
  {
    if worker.Passing? {
      PassedStaysPassed(s, s', worker.job);
    }
  }

  lemma NextExtendsRows(s: State, step: Step)
    ensures RowsExtend(s.rows, Next(s, step).rows)
  {}

  lemma NextExtendsRuns(s: State, step: Step)
    requires QueueOk(s)
    ensures RunsExtend(s.runs, Next(s, step).runs)
  {
    if step.EndSandbox? && step.w in s.workers {
      assert WorkerOk(s, s.workers[step.w]);
    }
  }

  lemma NextLeavesBarrier(s: State, step: Step)
    ensures Next(s, step).barrier == s.barrier
  {}

  lemma NextExtends(s: State, step: Step)
    requires QueueOk(s)
    ensures Extends(s, Next(s, step))
  {
    NextExtendsRows(s, step);
    NextExtendsRuns(s, step);
    NextLeavesBarrier(s, step);
  }

  /** How the barrier's calls may have moved on during a step. */
  ghost predicate BarrierMoved(s: State, step: Step, barrier: B.State) {
    && B.CallsAdvance(s.barrier.calls, barrier.calls)
    && (step.CallAuthorizer? && CallsBarrier(s, step.w, step.begin) ==>
          && step.begin.call in barrier.calls
          && (var a := B.ArtifactOf(barrier.calls[step.begin.call]); a == None || a == Some(step.begin.a)))
  }

  lemma BarrierMoves(env: Env, s: State, step: Step)
    requires BarrierOk(env, s.barrier)
    ensures BarrierOk(env, BarrierAfter(env, s, step)) && BarrierMoved(s, step, BarrierAfter(env, s, step))
  {
    if (step.Barrier? && !step.step.Restart?) || (step.CallAuthorizer? && CallsBarrier(s, step.w, step.begin)) {
      var b := if step.Barrier? then step.step else step.begin;
      B.StepKeepsSafe(env, s.barrier, b);
      B.StepKeepsGate(env, s.barrier, b);
      B.NextAdvancesCalls(env.hash, s.barrier, B.Resolve(env, s.barrier, b));
      if step.CallAuthorizer? {
        B.BegunCall(env, s.barrier, b);
      }
    }
  }

  /** The barrier moving on by itself harms nobody. */
  lemma BarrierKeepsQueue(s: State, barrier: B.State)
    requires QueueOk(s) && B.CallsAdvance(s.barrier.calls, barrier.calls)
    ensures QueueOk(s.(barrier := barrier))
  {
    var s' := s.(barrier := barrier);
    forall w | w in s'.workers ensures WorkerOk(s', s'.workers[w]) { assert WorkerOk(s, s.workers[w]); }
    forall k | 0 <= k < |s'.runs| ensures RunOk(s', s'.runs[k]) { assert RunOk(s, s.runs[k]); }
  }

  /** A worker that did not move keeps its unfinished sandbox run. */
  lemma BystanderRunsOn(s: State, step: Step, w: nat)
    requires QueueOk(s) && w in s.workers && w in Next(s, step).workers && Next(s, step).workers[w] == s.workers[w]
    requires s.workers[w].InSandbox?
    ensures s.workers[w].run < |s.runs| <= |Next(s, step).runs|
    ensures Next(s, step).runs[s.workers[w].run].exit.None?
  {
    assert WorkerOk(s, s.workers[w]);
    if step.EndSandbox? && step.w in s.workers && s.workers[step.w].InSandbox? {
      assert WorkerOk(s, s.workers[step.w]);
    }
  }

  lemma SandboxEnded(s: State, w: nat, exit: Option<int>)
    requires w in s.workers && s.workers[w].InSandbox? && WorkerOk(s, s.workers[w])
    ensures var s' := Next(s, EndSandbox(w, exit)); WorkerOk(s', s'.workers[w])
  {
    var k := s.workers[w].run;
    var s' := Next(s, EndSandbox(w, exit));
    assert s'.runs[k].exit == exit && s'.runs[k].job == s.workers[w].job;
    if exit == Some(0) {
      assert JobPassed(s'.runs, s.workers[w].job);
    }
  }

  /** The worker that moved meets its new phase. */
  lemma ActorStaysOk(s: State, step: Step, w: nat)
    requires QueueOk(s) && !step.CallAuthorizer?
    requires w in Next(s, step).workers && (w !in s.workers || Next(s, step).workers[w] != s.workers[w])
    ensures var s' := Next(s, step); WorkerOk(s', s'.workers[w])
  {
    if w in s.workers {
      assert WorkerOk(s, s.workers[w]);
    }
    if step.EndSandbox? {
      SandboxEnded(s, w, step.exit);
    }
  }

  lemma NextKeepsWorkers(s: State, step: Step, w: nat)
    requires QueueOk(s) && !step.CallAuthorizer? && w in Next(s, step).workers
    ensures var s' := Next(s, step); WorkerOk(s', s'.workers[w])
  {
    var s' := Next(s, step);
    if w in s.workers && s'.workers[w] == s.workers[w] {
      assert WorkerOk(s, s.workers[w]);
      NextExtends(s, step);
      if s.workers[w].InSandbox? {
        BystanderRunsOn(s, step, w);
      }
      WorkerStaysOk(s, s', s.workers[w]);
    } else {
      ActorStaysOk(s, step, w);
    }
  }

  lemma NextKeepsRuns(s: State, step: Step, k: nat)
    requires QueueOk(s) && k < |Next(s, step).runs|
    ensures var s' := Next(s, step); RunOk(s', s'.runs[k])
  {
    NextExtends(s, step);
    if k < |s.runs| {
      assert RunOk(s, s.runs[k]);
    } else {
      assert WorkerOk(s, s.workers[step.w]);
    }
  }

  /** Workers that take on nothing new leave every call with one owner. */
  lemma NothingTaken(s: State, s': State)
    requires CallsOwnedOnce(s)
    requires |s'.runs| == |s.runs| && forall k | 0 <= k < |s.runs| :: s'.runs[k].call == s.runs[k].call
    requires forall w, c | w in s'.workers && OwnsCall(s'.workers[w], c) :: w in s.workers && OwnsCall(s.workers[w], c)
    requires forall w | w in s'.workers && s'.workers[w].InSandbox? :: w in s.workers && s.workers[w] == s'.workers[w]
    ensures CallsOwnedOnce(s')
  {}

  lemma FreshCallTaken(s: State, w: nat, job: nat, c: nat)
    requires CallsOwnedOnce(s) && w in s.workers && c !in s.barrier.calls
    requires forall v, d | v in s.workers && OwnsCall(s.workers[v], d) :: d in s.barrier.calls
    requires forall k | 0 <= k < |s.runs| :: s.runs[k].call in s.barrier.calls
    ensures CallsOwnedOnce(SetWorker(s, w, Authorizing(job, c)))
  {}

  lemma CallHandedToRun(s: State, w: nat, job: nat, c: nat, run: SandboxRun)
    requires CallsOwnedOnce(s) && w in s.workers && s.workers[w] == Authorized(job, c) && run.call == c
    requires forall v | v in s.workers && s.workers[v].InSandbox? :: s.workers[v].run < |s.runs|
    ensures CallsOwnedOnce(SetWorker(s, w, InSandbox(job, |s.runs|)).(runs := s.runs + [run]))
  {
    assert OwnsCall(s.workers[w], c);
  }

  lemma StartingKeepsOwnership(s: State, w: nat)
    requires QueueOk(s)
    ensures CallsOwnedOnce(Next(s, StartSandbox(w)))
  {
    var s' := Next(s, StartSandbox(w));
    if s'.runs != s.runs {
      forall v | v in s.workers && s.workers[v].InSandbox? ensures s.workers[v].run < |s.runs| {
        assert WorkerOk(s, s.workers[v]);
      }
      CallHandedToRun(s, w, s.workers[w].job, s.workers[w].call, s'.runs[|s.runs|]);
    }
  }

  /** Only the authorizer gives a worker a call to answer for. */
  lemma NextTakesNoCall(s: State, step: Step)
    requires !step.CallAuthorizer?
    ensures forall w, c | w in Next(s, step).workers && OwnsCall(Next(s, step).workers[w], c) ::
              w in s.workers && OwnsCall(s.workers[w], c)
  {}

  /** Only `StartSandbox` adds a sandbox run. */
  lemma NextStartsNoRun(s: State, step: Step)
    requires !step.StartSandbox?
    ensures |Next(s, step).runs| == |s.runs|
    ensures forall w | w in Next(s, step).workers && Next(s, step).workers[w].InSandbox? ::
              w in s.workers && s.workers[w] == Next(s, step).workers[w]
  {}

  lemma NextKeepsOwnership(s: State, step: Step)
    requires QueueOk(s) && !step.CallAuthorizer?
    ensures CallsOwnedOnce(Next(s, step))
  {
    if step.StartSandbox? {
      StartingKeepsOwnership(s, step.w);
    } else {
      NextTakesNoCall(s, step);
      NextStartsNoRun(s, step);
      NextExtendsRuns(s, step);
      NothingTaken(s, Next(s, step));
    }
  }

  lemma NextKeepsRows(s: State, step: Step)
    requires QueueOk(s)
    ensures RowsOk(Next(s, step))
  {
    var s' := Next(s, step);
    NextExtends(s, step);
    forall j | 0 <= j < |s'.rows| && s'.rows[j].status == Succeeded ensures JobPassed(s'.runs, j) {
      if j < |s.rows| && s.rows[j].status == Succeeded {
        PassedStaysPassed(s, s', j);
      } else {
        assert WorkerOk(s, s.workers[step.w]);
      }
    }
  }

  lemma NextKeepsQueue(s: State, step: Step)
    requires QueueOk(s) && !step.CallAuthorizer?
    ensures QueueOk(Next(s, step))
  {
    var s' := Next(s, step);
    forall w | w in s'.workers ensures WorkerOk(s', s'.workers[w]) { NextKeepsWorkers(s, step, w); }
    forall k | 0 <= k < |s'.runs| ensures RunOk(s', s'.runs[k]) { NextKeepsRuns(s, step, k); }
    NextKeepsOwnership(s, step);
    NextKeepsRows(s, step);
  }

  lemma OwnedCallsExist(s: State)
    requires QueueOk(s)
    ensures forall v, d | v in s.workers && OwnsCall(s.workers[v], d) :: d in s.barrier.calls
    ensures forall k | 0 <= k < |s.runs| :: s.runs[k].call in s.barrier.calls
  {
    forall v, d | v in s.workers && OwnsCall(s.workers[v], d) ensures d in s.barrier.calls {
      assert WorkerOk(s, s.workers[v]);
    }
    forall k | 0 <= k < |s.runs| ensures s.runs[k].call in s.barrier.calls { assert RunOk(s, s.runs[k]); }
  }

  /** One worker's phase can change without touching anyone else. */
  lemma OneWorkerMoves(s: State, w: nat, to: Worker)
    requires QueueOk(s) && WorkerOk(s, to) && CallsOwnedOnce(SetWorker(s, w, to))
    ensures QueueOk(SetWorker(s, w, to))
  {
    var s' := SetWorker(s, w, to);
    forall v | v in s'.workers ensures WorkerOk(s', s'.workers[v]) {
      if v != w {
        assert WorkerOk(s, s.workers[v]);
      }
    }
    forall k | 0 <= k < |s'.runs| ensures RunOk(s', s'.runs[k]) { assert RunOk(s, s.runs[k]); }
  }

  lemma CalledIsOk(s: State, w: nat, b: B.Step, barrier: B.State)
    requires CallsBarrier(s, w, b) && BarrierMoved(s, CallAuthorizer(w, b), barrier)
    ensures WorkerOk(s.(barrier := barrier), Authorizing(s.workers[w].job, b.call))
  {}

  lemma CallingKeepsOwnership(s: State, w: nat, b: B.Step)
    requires QueueOk(s) && CallsBarrier(s, w, b)
    ensures CallsOwnedOnce(SetWorker(s, w, Authorizing(s.workers[w].job, b.call)))
  {
    OwnedCallsExist(s);
    FreshCallTaken(s, w, s.workers[w].job, b.call);
  }

  /** Who owns which call does not depend on how far the barrier is. */
  lemma OwnershipIgnoresBarrier(s: State, barrier: B.State)
    requires CallsOwnedOnce(s)
    ensures CallsOwnedOnce(s.(barrier := barrier))
  {}

  /** A worker enters the barrier under a call id nobody answers for yet. */
  lemma CallingKeepsQueue(s: State, w: nat, b: B.Step, barrier: B.State)
    requires QueueOk(s) && CallsBarrier(s, w, b) && BarrierMoved(s, CallAuthorizer(w, b), barrier)
    ensures QueueOk(Next(s, CallAuthorizer(w, b)).(barrier := barrier))
  {
    var to := Authorizing(s.workers[w].job, b.call);
    CallingKeepsOwnership(s, w, b);
    OwnershipIgnoresBarrier(SetWorker(s, w, to), barrier);
    BarrierKeepsQueue(s, barrier);
    CalledIsOk(s, w, b, barrier);
    OneWorkerMoves(s.(barrier := barrier), w, to);
  }

  /** A job without an artifact goes straight to failing. */
  lemma NoArtifactKeepsQueue(s: State, step: Step)
    requires QueueOk(s) && step.CallAuthorizer? && !CallsBarrier(s, step.w, step.begin)
    ensures QueueOk(Next(s, step))
  {
    var s' := Next(s, step);
    NothingTaken(s, s');
    assert forall w | w in s.workers :: WorkerOk(s, s.workers[w]);
    assert forall k | 0 <= k < |s.runs| :: RunOk(s, s.runs[k]);
  }

  /** Whatever the barrier did meanwhile, the queue stays in order. */
  lemma QueueKept(s: State, step: Step, barrier: B.State)
    requires QueueOk(s) && BarrierMoved(s, step, barrier)
    ensures QueueOk(Next(s, step).(barrier := barrier))
  {
    if step.CallAuthorizer? && CallsBarrier(s, step.w, step.begin) {
      CallingKeepsQueue(s, step.w, step.begin, barrier);
    } else {
      if step.CallAuthorizer? {
        NoArtifactKeepsQueue(s, step);
      } else {
        NextKeepsQueue(s, step);
      }
      NextLeavesBarrier(s, step);
      BarrierKeepsQueue(Next(s, step), barrier);
    }
  }

  lemma StepKeepsInv(env: Env, s: State, step: Step)
    requires Inv(env, s)
    ensures Inv(env, Apply(env, s, step))
  {
    BarrierMoves(env, s, step);
    QueueKept(s, step, BarrierAfter(env, s, step));
  }

  lemma {:induction false} RunKeepsInv(env: Env, s: State, steps: seq<Step>)
    requires Inv(env, s)
    ensures Inv(env, Run(env, s, steps))
    decreases |steps|
  {
    if steps != [] {
      StepKeepsInv(env, s, steps[0]);
      RunKeepsInv(env, Apply(env, s, steps[0]), steps[1..]);
    }
  }

  // ----- end to end -----

  /** Different sandbox runs act for different nonces. */
  lemma RunsDiffer(s: State, k: nat, l: nat)
    requires QueueOk(s) && B.Gate(s.barrier) && k < |s.runs| && l < |s.runs| && k != l
    ensures s.runs[k].a.payload.nonce != s.runs[l].a.payload.nonce
  {
    assert RunOk(s, s.runs[k]) && RunOk(s, s.runs[l]);
    var calls := s.barrier.calls;
    assert s.runs[k].call != s.runs[l].call;
    assert B.Held(calls[s.runs[k].call]) == Some(s.runs[k].a);
    assert B.Held(calls[s.runs[l].call]) == Some(s.runs[l].a);
  }

  /** No two sandbox runs share a nonce, and each acts for an artifact the log issued. */
  ghost predicate RunsOnceAndIssued(s: State) {
    && (forall k, l | 0 <= k < l < |s.runs| :: s.runs[k].a.payload.nonce != s.runs[l].a.payload.nonce)
    && (forall k | 0 <= k < |s.runs| :: B.IssuedBefore(s.barrier.log, |s.barrier.log|, s.runs[k].a))
  }

  lemma RunsOnceHolds(env: Env, s: State)
    requires Inv(env, s)
    ensures RunsOnceAndIssued(s)
  {
    forall k, l | 0 <= k < l < |s.runs| ensures s.runs[k].a.payload.nonce != s.runs[l].a.payload.nonce {
      RunsDiffer(s, k, l);
    }
    forall k | 0 <= k < |s.runs| ensures B.IssuedBefore(s.barrier.log, |s.barrier.log|, s.runs[k].a) {
      assert RunOk(s, s.runs[k]);
      B.ReturnedIsIssued(env, s.barrier, s.runs[k].call);
    }
  }

  /** The sandbox runs at most once per nonce, and only for artifacts the log issued. */
  lemma SandboxAtMostOnce(env: Env, steps: seq<Step>)
    ensures RunsOnceAndIssued(Run(env, INITIAL, steps))
  {
    RunKeepsInv(env, INITIAL, steps);
    RunsOnceHolds(env, Run(env, INITIAL, steps));
  }

  /** The one sandbox run a succeeded job stands on. */
  ghost predicate OnlyRunFor(s: State, job: nat, k: nat) {
    && k < |s.runs| && job < |s.rows|
    && s.runs[k].job == job && s.runs[k].exit == Some(0)
    && s.rows[job].payload == Some(s.runs[k].a)
    && forall l | 0 <= l < |s.runs| && l != k :: s.runs[l].a.payload.nonce != s.runs[k].a.payload.nonce
  }

  lemma SucceededHasRun(s: State, job: nat)
    requires QueueOk(s) && B.Gate(s.barrier) && job < |s.rows| && s.rows[job].status == Succeeded
    ensures exists k :: OnlyRunFor(s, job, k)
  {
    assert JobPassed(s.runs, job);
    var k :| 0 <= k < |s.runs| && s.runs[k].job == job && s.runs[k].exit == Some(0);
    assert RunOk(s, s.runs[k]);
    forall l | 0 <= l < |s.runs| && l != k ensures s.runs[l].a.payload.nonce != s.runs[k].a.payload.nonce {
      RunsDiffer(s, l, k);
    }
    assert OnlyRunFor(s, job, k);
  }

  /** Different succeeded jobs acted for different nonces. */
  lemma SucceededDiffer(s: State, i: nat, j: nat)
    requires QueueOk(s) && B.Gate(s.barrier) && i < |s.rows| && j < |s.rows| && i != j
    requires s.rows[i].status == Succeeded && s.rows[j].status == Succeeded
    ensures s.rows[i].payload.Some? && s.rows[j].payload.Some?
    ensures s.rows[i].payload.value.payload.nonce != s.rows[j].payload.value.payload.nonce
  {
    SucceededHasRun(s, i);
    SucceededHasRun(s, j);
    var k :| OnlyRunFor(s, i, k);
    var l :| OnlyRunFor(s, j, l);
    assert k != l;
  }

  /** Every succeeded job has its one run, no two of them share a nonce, and one idempotency key has one job. */
  ghost predicate SucceededOnce(s: State) {
    && (forall j | 0 <= j < |s.rows| && s.rows[j].status == Succeeded :: exists k :: OnlyRunFor(s, j, k))
    && (forall i, j | 0 <= i < j < |s.rows| && s.rows[i].status == Succeeded && s.rows[j].status == Succeeded ::
          && s.rows[i].payload.Some? && s.rows[j].payload.Some?
          && s.rows[i].payload.value.payload.nonce != s.rows[j].payload.value.payload.nonce)
    && (forall i, j | 0 <= i < j < |s.rows| :: s.rows[i].key != s.rows[j].key)
  }

  lemma SucceededOnceHolds(s: State)
    requires QueueOk(s) && B.Gate(s.barrier)
    ensures SucceededOnce(s)
  {
    forall j | 0 <= j < |s.rows| && s.rows[j].status == Succeeded ensures exists k :: OnlyRunFor(s, j, k) {
      SucceededHasRun(s, j);
    }
    forall i, j | 0 <= i < j < |s.rows| && s.rows[i].status == Succeeded && s.rows[j].status == Succeeded
      ensures s.rows[i].payload.Some? && s.rows[j].payload.Some?
      ensures s.rows[i].payload.value.payload.nonce != s.rows[j].payload.value.payload.nonce
    {
      SucceededDiffer(s, i, j);
    }
  }

  /**
   * A succeeded job had exactly one sandbox run for its nonce, that run was its
   * own and exited with code 0; so no two succeeded jobs share a nonce, and one
   * idempotency key has one job.
   */
  lemma SucceededMeansOneRun(env: Env, steps: seq<Step>)
    ensures SucceededOnce(Run(env, INITIAL, steps))
  {
    RunKeepsInv(env, INITIAL, steps);
    SucceededOnceHolds(Run(env, INITIAL, steps));
  }
}
