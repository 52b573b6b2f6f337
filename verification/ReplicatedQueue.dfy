/**
 * Workers and their job table over a barrier that itself runs on many Postgres
 * replicas: what the queue promises holds over that interleaving too.
 */
module ReplicatedQueue {
  import opened Wrappers
  import opened Artifacts
  import B = BarrierRuns
  import RB = ReplicatedBarrier
  import Q = Queue

  datatype State = State(
    replicas: RB.State, rows: seq<Q.Row>, workers: map<nat, Q.Worker>, runs: seq<Q.SandboxRun>)

  const INITIAL := State(RB.INITIAL, [], map[], [])

  datatype Step =
    /** a step of some replica, for a worker's call or anybody else's */
    | Replica(inner: RB.Step)
    /** a worker step that does not enter the barrier */
    | Local(step: Q.Step)
    /** a worker enters the barrier, whose first check reads through replica r */
    | Enter(w: nat, r: nat, begin: B.Step)

  /** The queue over one shared barrier that these workers could as well be using. */
  function Shown(s: State): Q.State {
    Q.State(RB.Shown(s.replicas), s.rows, s.workers, s.runs)
  }

  function Moved(s: State, to: Q.State): State {
    s.(rows := to.rows, workers := to.workers, runs := to.runs)
  }

  predicate EntersBarrier(s: State, step: Q.Step) {
    step.Barrier? || (step.CallAuthorizer? && Q.CallsBarrier(Shown(s), step.w, step.begin))
  }

  ghost function Apply(env: Env, s: State, step: Step): State {
    match step
    case Replica(st) => s.(replicas := RB.Apply(env, s.replicas, st))
    case Local(st) => if EntersBarrier(s, st) then s else Moved(s, Q.Next(Shown(s), st))
    case Enter(w, r, b) =>
      if !RB.Ready(s.replicas, r) || !Q.CallsBarrier(Shown(s), w, b) then s
      else
        Moved(s, Q.Next(Shown(s), Q.CallAuthorizer(w, b)))
        .(replicas := RB.BeginCheck(env, s.replicas, r, b.call, b.a, b.issuerKeys, b.now))
  }

  ghost function Run(env: Env, s: State, steps: seq<Step>): State
    decreases |steps|
  {
    if steps == [] then s else Run(env, Apply(env, s, steps[0]), steps[1..])
  }

  ghost predicate Mirrors(env: Env, s: State, s': State, step: Option<Q.Step>) {
    match step
    case None => Shown(s') == Shown(s)
    case Some(st) => Shown(s') == Q.Apply(env, Shown(s), st)
  }

  lemma LocalMirrors(env: Env, s: State, st: Q.Step)
    requires !EntersBarrier(s, st)
    ensures Mirrors(env, s, Apply(env, s, Local(st)), Some(st))
  {
    Q.NextLeavesBarrier(Shown(s), st);
  }

  lemma EnterMirrors(env: Env, s: State, w: nat, r: nat, b: B.Step)
    requires RB.Ready(s.replicas, r) && Q.CallsBarrier(Shown(s), w, b)
    ensures Mirrors(env, s, Apply(env, s, Enter(w, r, b)), Some(Q.CallAuthorizer(w, b)))
  {
    RB.BeginShows(env, s.replicas, r, b.call, b.a, b.issuerKeys, b.now);
    assert b == B.Begin(b.call, b.a, b.issuerKeys, b.now);
  }

  /** Every step is one step of the queue over the shared barrier, or none. */
  lemma StepSimulates(env: Env, s: State, step: Step) returns (q: Option<Q.Step>)
    requires RB.Inv(env, s.replicas)
    ensures RB.Inv(env, Apply(env, s, step).replicas) && Mirrors(env, s, Apply(env, s, step), q)
  {
    q := None;
    match step {
      case Replica(st) =>
        var b := RB.StepSimulates(env, s.replicas, st);
        if b.Some? {
          q := Some(Q.Barrier(b.value));
        }
      case Local(st) =>
        if !EntersBarrier(s, st) {
          LocalMirrors(env, s, st);
          q := Some(st);
        }
      case Enter(w, r, b) =>
        if RB.Ready(s.replicas, r) && Q.CallsBarrier(Shown(s), w, b) {
          RB.BeginKeeps(env, s.replicas, r, b.call, b.a, b.issuerKeys, b.now);
          EnterMirrors(env, s, w, r, b);
          q := Some(Q.CallAuthorizer(w, b));
        }
    }
  }

  lemma {:induction false} RunSimulates(env: Env, s: State, steps: seq<Step>) returns (qs: seq<Q.Step>)
    requires RB.Inv(env, s.replicas)
    ensures Shown(Run(env, s, steps)) == Q.Run(env, Shown(s), qs)
    decreases |steps|
  {
    qs := [];
    if steps != [] {
      var q := StepSimulates(env, s, steps[0]);
      qs := RunSimulates(env, Apply(env, s, steps[0]), steps[1..]);
      if q.Some? {
        assert ([q.value] + qs)[1..] == qs;
        qs := [q.value] + qs;
      }
    }
  }

  /**
   * Whatever workers and replicas do: the sandbox runs at most once per nonce
   * and only for artifacts in the shared table, and a succeeded job had exactly
   * one run of its own, with exit code 0.
   */
  lemma QueueSafetyOverReplicas(env: Env, steps: seq<Step>)
    ensures var s := Shown(Run(env, INITIAL, steps));
            Q.RunsOnceAndIssued(s) && Q.SucceededOnce(s)
  {
    var qs := RunSimulates(env, INITIAL, steps);
    Q.SandboxAtMostOnce(env, qs);
    Q.SucceededMeansOneRun(env, qs);
  }
}
