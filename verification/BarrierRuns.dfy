/**
 * The barrier under concurrency: calls of `execute`, arbitrations and other log
 * writers interleave at the granularity of single log operations, calls crash,
 * and the process restarts from its log file.
 */
module BarrierRuns {
  import opened Wrappers
  import opened Values
  import opened Arbitration
  import opened ReplayChain
  import opened Artifacts
  import opened Barrier
  import Mesh

  /** How far one call of `execute` has come. */
  datatype Phase =
    | Refused(error: AuthError)
    | NonceChecked(a: Artifact)
    | Validated(a: Artifact)
    | Claimed(a: Artifact)
    | Invoked(a: Artifact, outcome: Outcome)
    | Returned(a: Artifact, outcome: Outcome, at: nat)
    /** ended with an exception; around Returned: its frame was written, but the call never answered */
    | Crashed(before: Phase)

  /** The action of an artifact was run when the log had `at` frames. */
  datatype Effect = Effect(call: nat, a: Artifact, at: nat)

  datatype State = State(log: Log, used: set<string>, calls: map<nat, Phase>, effects: seq<Effect>)

  const INITIAL := State([], {}, map[], [])

  /**
   * Every step may see its own clock, trust store and policy registry: they
   * change freely under a run. Frames written by anyone but issuer and
   * boundary, such as mesh preflights, are `WriteOther`.
   */
  datatype Step =
    | Arbitrate(
        arbiterKeys: map<string, PublicKey>, attested: Mesh.Input -> bool,
        keyId: string, sign: Payload -> string, request: IssueCall)
    | WriteOther(frameId: string, kind: string)
    | Begin(call: nat, a: Artifact, issuerKeys: map<string, PublicKey>, now: int)
    | ReadFrame(call: nat, policies: Option<map<string, Policy>>, keys: map<string, PublicKey>)
    | ClaimNonce(call: nat)
    | RunAction(call: nat, outcome: Outcome)
    | WriteFrame(call: nat)
    /** the frame is written, yet the call that wrote it raises */
    | LoseAnswer(call: nat)
    | Crash(call: nat)
    | Restart

  ghost predicate NonceKnown(log: Log, nonce: string) {
    exists i | 0 <= i < |log| :: log[i].event.Authorization? && log[i].event.nonce == nonce
  }

  function Written(hash: Hasher<Event>, log: Log, id: string, e: Event): Log {
    log + [NextFrame(hash, log, id, e)]
  }

  predicate Unfinished(p: Phase) {
    !p.Refused? && !p.Returned? && !p.Crashed?
  }

  function CrashAll(calls: map<nat, Phase>): map<nat, Phase> {
    map t | t in calls :: if Unfinished(calls[t]) then Crashed(calls[t]) else calls[t]
  }

  /** A step with its checks already made: what it does to the shared state. */
  datatype Move =
    | Skip
    | Write(frameId: string, event: Event)
    | Start(call: nat, a: Artifact, refusal: Option<AuthError>)
    | Read(call: nat, refusal: Option<AuthError>)
    | Claim(call: nat)
    | Invoke(call: nat, outcome: Outcome)
    | Record(call: nat, answered: bool)
    | Stop(call: nat)
    | Reload

  /** The checks of a step, made in the state the step happens in. A step that is not enabled is skipped. */
  ghost function Resolve(env: Env, s: State, step: Step): Move {
    match step
    case Arbitrate(keys, attested, keyId, sign, request) =>
      var r := Issue(env, keys, attested, keyId, sign, request);
      if r.Rejected? || r.entries == [] || NonceKnown(s.log, request.nonce) then Skip
      else
        var last := r.entries[|r.entries| - 1];
        Write(last.0, last.1)
    case WriteOther(id, kind) => Write(id, Other(kind))
    case Begin(t, a, issuerKeys, now) =>
      if t in s.calls then Skip
      else Start(t, a, CheckCredentials(env, issuerKeys, now, a.payload.nonce in s.used, a))
    case ReadFrame(t, policies, keys) =>
      if t !in s.calls || !s.calls[t].NonceChecked? then Skip
      else
        var a := s.calls[t].a;
        Read(t, CheckEvidence(env, policies, keys, FindFrame(s.log, a.payload.frameRef), a))
    case ClaimNonce(t) => Claim(t)
    case RunAction(t, outcome) => Invoke(t, outcome)
    case WriteFrame(t) => Record(t, true)
    case LoseAnswer(t) => Record(t, false)
    case Crash(t) => Stop(t)
    case Restart => Reload
  }

  function RecordedAs(a: Artifact, outcome: Outcome, at: nat, answered: bool): Phase {
    if answered then Returned(a, outcome, at) else Crashed(Returned(a, outcome, at))
  }

  /** What the call returned, or would have, once its frame is written. */
  function ReturnOf(p: Phase): Option<Phase> {
    if p.Returned? then Some(p) else if p.Crashed? && p.before.Returned? then Some(p.before) else None
  }

  /** The call wrote its execution frame. */
  predicate Recorded(p: Phase) {
    ReturnOf(p).Some?
  }

  function Next(hash: Hasher<Event>, s: State, m: Move): State {
    match m
    case Skip => s
    case Write(id, e) => s.(log := Written(hash, s.log, id, e))
    case Start(t, a, refusal) =>
      if t in s.calls then s
      else s.(calls := s.calls[t := if refusal.Some? then Refused(refusal.value) else NonceChecked(a)])
    case Read(t, refusal) =>
      if t !in s.calls || !s.calls[t].NonceChecked? then s
      else s.(calls := s.calls[t := if refusal.Some? then Refused(refusal.value) else Validated(s.calls[t].a)])
    case Claim(t) =>
      if t !in s.calls || !s.calls[t].Validated? then s
      else
        var a := s.calls[t].a;
        if a.payload.nonce in s.used then s.(calls := s.calls[t := Refused(NonceUsed)])
        else s.(calls := s.calls[t := Claimed(a)], used := s.used + {a.payload.nonce})
    case Invoke(t, outcome) =>
      if t !in s.calls || !s.calls[t].Claimed? then s
      else
        var a := s.calls[t].a;
        s.(calls := s.calls[t := Invoked(a, outcome)], effects := s.effects + [Effect(t, a, |s.log|)])
    case Record(t, answered) =>
      if t !in s.calls || !s.calls[t].Invoked? then s
      else
        var a, outcome := s.calls[t].a, s.calls[t].outcome;
        s.(log := Written(hash, s.log, ExecutionId(a.payload.nonce), ExecutionEvent(a, outcome)),
           calls := s.calls[t := RecordedAs(a, outcome, |s.log|, answered)])
    case Stop(t) =>
      if t !in s.calls || !Unfinished(s.calls[t]) then s else s.(calls := s.calls[t := Crashed(s.calls[t])])
    case Reload => s.(used := ExecutedNonces(ExecutionNonce, s.log), calls := CrashAll(s.calls))
  }

  /** One atomic step. */
  ghost function Apply(env: Env, s: State, step: Step): State {
    Next(env.hash, s, Resolve(env, s, step))
  }

  ghost function Run(env: Env, s: State, steps: seq<Step>): State
    decreases |steps|
  {
    if steps == [] then s else Run(env, Apply(env, s, steps[0]), steps[1..])
  }

  // ----- what every step keeps -----

  predicate IssuedFor(e: Event, a: Artifact) {
    e.Authorization? && e.issued && e.nonce == a.payload.nonce && e.artifactPayload == Some(a.payload)
  }

  /** One of the first n frames authorizes exactly this artifact. */
  ghost predicate IssuedBefore(log: Log, n: nat, a: Artifact) {
    exists i | 0 <= i < n && i < |log| :: IssuedFor(log[i].event, a)
  }

  predicate Live(p: Phase) {
    p.Claimed? || p.Invoked?
  }

  ghost predicate AuthorizationsOnce(log: Log) {
    && (forall i | 0 <= i < |log| && log[i].event.Authorization? ::
          log[i].event.issued <==> log[i].event.artifactPayload.Some?)
    && (forall i, j | 0 <= i < j < |log| && log[i].event.Authorization? && log[j].event.Authorization? ::
          log[i].event.nonce != log[j].event.nonce)
  }

  ghost predicate ExecutionsOnce(log: Log) {
    forall i, j | 0 <= i < j < |log| && log[i].event.Execution? && log[j].event.Execution? ::
      log[i].event.nonce != log[j].event.nonce
  }

  /** Calls that passed validation act for an artifact the log authorizes. */
  ghost predicate CallsAuthorized(log: Log, calls: map<nat, Phase>) {
    forall t | t in calls && (calls[t].Validated? || Live(calls[t])) :: IssuedBefore(log, |log|, calls[t].a)
  }

  ghost predicate EffectsAuthorized(log: Log, effects: seq<Effect>) {
    forall k | 0 <= k < |effects| :: effects[k].at <= |log| && IssuedBefore(log, effects[k].at, effects[k].a)
  }

  /** The execution frame at j was written by a call that ran the artifact it records. */
  ghost predicate WrittenBy(s: State, j: nat, t: nat)
    requires j < |s.log|
  {
    && t in s.calls && Recorded(s.calls[t])
    && var p := ReturnOf(s.calls[t]).value;
    && p.at == j && s.log[j].event == ExecutionEvent(p.a, p.outcome) && IssuedBefore(s.log, j, p.a)
  }

  ghost predicate ExecutionsBacked(s: State) {
    forall j | 0 <= j < |s.log| && s.log[j].event.Execution? :: exists t :: WrittenBy(s, j, t)
  }

  /** Calls between claim and frame hold different nonces, claimed and not yet recorded. */
  ghost predicate LiveCallsExclusive(s: State) {
    && (forall t | t in s.calls && Live(s.calls[t]) ::
          && s.calls[t].a.payload.nonce in s.used
          && s.calls[t].a.payload.nonce !in ExecutedNonces(ExecutionNonce, s.log))
    && (forall t, u | t in s.calls && u in s.calls && t != u && Live(s.calls[t]) && Live(s.calls[u]) ::
          s.calls[t].a.payload.nonce != s.calls[u].a.payload.nonce)
  }

  ghost predicate Safe(hash: Hasher<Event>, s: State) {
    && ChainValid(hash, s.log)
    && AuthorizationsOnce(s.log) && ExecutionsOnce(s.log)
    && CallsAuthorized(s.log, s.calls) && EffectsAuthorized(s.log, s.effects)
    && ExecutionsBacked(s)
    && ExecutedNonces(ExecutionNonce, s.log) <= s.used
    && LiveCallsExclusive(s)
  }

  lemma IssuedBeforeGrows(log: Log, n: nat, longer: Log, m: nat, a: Artifact)
    requires IssuedBefore(log, n, a) && log <= longer && n <= m
    ensures IssuedBefore(longer, m, a)
  {
    var i :| 0 <= i < n && i < |log| && IssuedFor(log[i].event, a);
    assert longer[i] == log[i];
  }

  lemma GrowthKeepsClaims(log: Log, longer: Log, calls: map<nat, Phase>, effects: seq<Effect>)
    requires log <= longer && CallsAuthorized(log, calls) && EffectsAuthorized(log, effects)
    ensures CallsAuthorized(longer, calls) && EffectsAuthorized(longer, effects)
  {
    forall t | t in calls && (calls[t].Validated? || Live(calls[t]))
      ensures IssuedBefore(longer, |longer|, calls[t].a)
    {
      IssuedBeforeGrows(log, |log|, longer, |longer|, calls[t].a);
    }
    forall k | 0 <= k < |effects| ensures IssuedBefore(longer, effects[k].at, effects[k].a) {
      IssuedBeforeGrows(log, effects[k].at, longer, effects[k].at, effects[k].a);
    }
  }

  /** Frames stay backed when the log grows and the calls that wrote theirs stay as they are. */
  lemma BackingPersists(s: State, s': State)
    requires ExecutionsBacked(s) && s.log <= s'.log
    requires forall t | t in s.calls && Recorded(s.calls[t]) :: t in s'.calls && s'.calls[t] == s.calls[t]
    requires forall j | |s.log| <= j < |s'.log| && s'.log[j].event.Execution? :: exists t :: WrittenBy(s', j, t)
    ensures ExecutionsBacked(s')
  {
    forall j | 0 <= j < |s'.log| && s'.log[j].event.Execution? ensures exists t :: WrittenBy(s', j, t) {
      if j < |s.log| {
        assert s'.log[j] == s.log[j];
        var t :| WrittenBy(s, j, t);
        IssuedBeforeGrows(s.log, j, s'.log, j, ReturnOf(s.calls[t]).value.a);
        assert WrittenBy(s', j, t);
      }
    }
  }

  lemma ConcludeEntry(
    keyId: string, sign: Payload -> string, request: IssueCall, effective: Dict,
    decision: Decision, evidence: MeshEvidence, before: seq<(string, Event)>)
    ensures WritesAuthorization(Conclude(keyId, sign, request, effective, decision, evidence, before), request.nonce)
  {}

  /** The last entry is the authorization frame of the nonce, issued for the artifact returned. */
  predicate WritesAuthorization(r: Issuance, nonce: string) {
    !r.Rejected? ==>
      && r.entries != []
      && r.entries[|r.entries| - 1].0 == AuthorizationId(nonce)
      && var e := r.entries[|r.entries| - 1].1;
      && e.Authorization? && e.nonce == nonce
      && (e.issued <==> r.Issued?) && (e.issued <==> e.artifactPayload.Some?)
      && (r.Issued? ==> IssuedFor(e, r.artifact))
  }

  lemma ArbitrationEntry(
    env: Env, keys: map<string, PublicKey>, attested: Mesh.Input -> bool,
    keyId: string, sign: Payload -> string, request: IssueCall)
    ensures WritesAuthorization(Issue(env, keys, attested, keyId, sign, request), request.nonce)
  {
    var r := Issue(env, keys, attested, keyId, sign, request);
    if !r.Rejected? {
      var (effective, decided) := Admitted(env, keys, request).value;
      if request.meshInputs == [] {
        ConcludeEntry(keyId, sign, request, effective, decided, NO_EVIDENCE, []);
      } else {
        var d := Preflighted(env, attested, effective, request.meshInputs).value;
        ConcludeEntry(
          keyId, sign, request, effective, WithMesh(decided, d),
          EvidenceOf(env, effective, d, request.meshInputs), [MeshFrame(d)]);
      }
    }
  }

  lemma NewAuthorizationOnce(log: Log, f: Frame<Event>)
    requires AuthorizationsOnce(log)
    requires f.event.Authorization? ==>
      !NonceKnown(log, f.event.nonce) && (f.event.issued <==> f.event.artifactPayload.Some?)
    ensures AuthorizationsOnce(log + [f])
  {}

  /** What a resolved move may rely on, because its checks were real ones. */
  ghost predicate Sound(s: State, m: Move) {
    && (m.Write? ==>
          && !m.event.Execution?
          && (m.event.Authorization? ==>
                !NonceKnown(s.log, m.event.nonce) && (m.event.issued <==> m.event.artifactPayload.Some?)))
    && (m.Read? && m.refusal.None? && m.call in s.calls && s.calls[m.call].NonceChecked? ==>
          IssuedBefore(s.log, |s.log|, s.calls[m.call].a))
  }

  lemma ResolvedIsSound(env: Env, s: State, step: Step)
    requires AuthorizationsOnce(s.log)
    ensures Sound(s, Resolve(env, s, step))
  {
    if step.Arbitrate? {
      ArbitrationEntry(env, step.arbiterKeys, step.attested, step.keyId, step.sign, step.request);
    } else if step.ReadFrame? && step.call in s.calls && s.calls[step.call].NonceChecked? {
      var a := s.calls[step.call].a;
      if CheckEvidence(env, step.policies, step.keys, FindFrame(s.log, a.payload.frameRef), a).None? {
        AcceptedIsIssued(env, step.policies, step.keys, s.log, a);
      }
    }
  }

  lemma WritingKeepsSafe(hash: Hasher<Event>, s: State, id: string, e: Event)
    requires Safe(hash, s) && Sound(s, Write(id, e))
    ensures Safe(hash, Next(hash, s, Write(id, e)))
  {
    var f := NextFrame(hash, s.log, id, e);
    var s' := s.(log := s.log + [f]);
    AppendKeepsChain(hash, s.log, id, e);
    GrowthKeepsClaims(s.log, s'.log, s.calls, s.effects);
    BackingPersists(s, s');
    ExecutedNoncesOfAppend(ExecutionNonce, s.log, f);
    NewAuthorizationOnce(s.log, f);
    OtherwiseOnce(s.log, f);
    assert LiveCallsExclusive(s');
  }

  lemma OtherwiseOnce(log: Log, f: Frame<Event>)
    requires ExecutionsOnce(log) && !f.event.Execution?
    ensures ExecutionsOnce(log + [f])
  {}

  /** A phase change that claims nothing and writes nothing. */
  lemma MovingKeepsSafe(hash: Hasher<Event>, s: State, t: nat, p: Phase)
    requires Safe(hash, s) && (t in s.calls ==> !Recorded(s.calls[t]))
    requires !Recorded(p) && !Live(p)
    requires p.Validated? ==> IssuedBefore(s.log, |s.log|, p.a)
    ensures Safe(hash, s.(calls := s.calls[t := p]))
  {
    var s' := s.(calls := s.calls[t := p]);
    BackingPersists(s, s');
  }

  /** Whatever passes the frame checks was issued in this log. */
  lemma AcceptedIsIssued(
    env: Env, policies: Option<map<string, Policy>>, keys: map<string, PublicKey>, log: Log, a: Artifact)
    requires AuthorizationsOnce(log)
    requires CheckEvidence(env, policies, keys, FindFrame(log, a.payload.frameRef), a).None?
    ensures IssuedBefore(log, |log|, a)
  {
    var frame := FindFrame(log, a.payload.frameRef);
    assert CheckFrame(frame, a).None?;
    FindFrameIsFirst(log, a.payload.frameRef);
    var i :| 0 <= i < |log| && log[i] == frame.value;
    assert IssuedFor(log[i].event, a);
  }

  lemma ClaimingKeepsSafe(hash: Hasher<Event>, s: State, t: nat)
    requires Safe(hash, s)
    ensures Safe(hash, Next(hash, s, Claim(t)))
  {
    if t in s.calls && s.calls[t].Validated? {
      if s.calls[t].a.payload.nonce in s.used {
        MovingKeepsSafe(hash, s, t, Refused(NonceUsed));
      } else {
        BackingPersists(s, Next(hash, s, Claim(t)));
      }
    }
  }

  lemma InvokingKeepsSafe(hash: Hasher<Event>, s: State, t: nat, outcome: Outcome)
    requires Safe(hash, s)
    ensures Safe(hash, Next(hash, s, Invoke(t, outcome)))
  {
    BackingPersists(s, Next(hash, s, Invoke(t, outcome)));
  }

  lemma RecordingKeepsSafe(hash: Hasher<Event>, s: State, t: nat, answered: bool)
    requires Safe(hash, s) && t in s.calls && s.calls[t].Invoked?
    ensures Safe(hash, Next(hash, s, Record(t, answered)))
  {
    var a, outcome := s.calls[t].a, s.calls[t].outcome;
    var f := NextFrame(hash, s.log, ExecutionId(a.payload.nonce), ExecutionEvent(a, outcome));
    var p := RecordedAs(a, outcome, |s.log|, answered);
    var s' := s.(log := s.log + [f], calls := s.calls[t := p]);
    assert s' == Next(hash, s, Record(t, answered));
    AppendKeepsChain(hash, s.log, f.frameId, f.event);
    NewNonceOnce(s.log, f);
    NewAuthorizationOnce(s.log, f);
    ExecutedNoncesOfAppend(ExecutionNonce, s.log, f);
    GrowthKeepsClaims(s.log, s'.log, s.calls, s.effects);
    RecordingKeepsLive(s, s', t, p);
    assert CallsAuthorized(s'.log, s'.calls);
    RecordingKeepsBacking(s, s', t, p);
  }

  lemma RecordingKeepsLive(s: State, s': State, t: nat, p: Phase)
    requires LiveCallsExclusive(s) && t in s.calls && s.calls[t].Invoked? && s'.used == s.used
    requires s'.calls == s.calls[t := p] && Recorded(p)
    requires ExecutedNonces(ExecutionNonce, s'.log) ==
             ExecutedNonces(ExecutionNonce, s.log) + {s.calls[t].a.payload.nonce}
    ensures LiveCallsExclusive(s')
  {}

  lemma RecordingKeepsBacking(s: State, s': State, t: nat, p: Phase)
    requires ExecutionsBacked(s) && CallsAuthorized(s.log, s.calls) && t in s.calls && s.calls[t].Invoked?
    requires |s'.log| == |s.log| + 1 && s.log <= s'.log
    requires s'.log[|s.log|].event == ExecutionEvent(s.calls[t].a, s.calls[t].outcome)
    requires s'.calls == s.calls[t := p]
    requires ReturnOf(p) == Some(Returned(s.calls[t].a, s.calls[t].outcome, |s.log|))
    ensures ExecutionsBacked(s')
  {
    IssuedBeforeGrows(s.log, |s.log|, s'.log, |s.log|, s.calls[t].a);
    assert WrittenBy(s', |s.log|, t);
    BackingPersists(s, s');
  }

  lemma NewNonceOnce(log: Log, f: Frame<Event>)
    requires ExecutionsOnce(log) && f.event.Execution? && f.event.nonce !in ExecutedNonces(ExecutionNonce, log)
    ensures ExecutionsOnce(log + [f])
  {
    forall i | 0 <= i < |log| && log[i].event.Execution? ensures log[i].event.nonce != f.event.nonce {
      assert ExecutionNonce(log[i].event).Some?;
    }
  }

  lemma ReloadingKeepsSafe(hash: Hasher<Event>, s: State)
    requires Safe(hash, s)
    ensures Safe(hash, Next(hash, s, Reload))
  {
    BackingPersists(s, Next(hash, s, Reload));
  }

  lemma NextKeepsSafe(hash: Hasher<Event>, s: State, m: Move)
    requires Safe(hash, s) && Sound(s, m)
    ensures Safe(hash, Next(hash, s, m))
  {
    match m
    case Skip =>
    case Write(id, e) => WritingKeepsSafe(hash, s, id, e);
    case Start(t, a, refusal) =>
      if t !in s.calls {
        MovingKeepsSafe(hash, s, t, if refusal.Some? then Refused(refusal.value) else NonceChecked(a));
      }
    case Read(t, refusal) =>
      if t in s.calls && s.calls[t].NonceChecked? {
        MovingKeepsSafe(hash, s, t, if refusal.Some? then Refused(refusal.value) else Validated(s.calls[t].a));
      }
    case Claim(t) => ClaimingKeepsSafe(hash, s, t);
    case Invoke(t, outcome) => InvokingKeepsSafe(hash, s, t, outcome);
    case Record(t, answered) =>
      if t in s.calls && s.calls[t].Invoked? {
        RecordingKeepsSafe(hash, s, t, answered);
      }
    case Stop(t) =>
      if t in s.calls && Unfinished(s.calls[t]) {
        MovingKeepsSafe(hash, s, t, Crashed(s.calls[t]));
      }
    case Reload => ReloadingKeepsSafe(hash, s);
  }

  lemma StepKeepsSafe(env: Env, s: State, step: Step)
    requires Safe(env.hash, s)
    ensures Safe(env.hash, Apply(env, s, step))
  {
    ResolvedIsSound(env, s, step);
    NextKeepsSafe(env.hash, s, Resolve(env, s, step));
  }

  lemma {:induction false} RunKeepsSafe(env: Env, s: State, steps: seq<Step>)
    requires Safe(env.hash, s)
    ensures Safe(env.hash, Run(env, s, steps))
    decreases |steps|
  {
    if steps != [] {
      StepKeepsSafe(env, s, steps[0]);
      RunKeepsSafe(env, Apply(env, s, steps[0]), steps[1..]);
    }
  }

  /** Over all runs, whatever interleaves, crashes or restarts. */
  lemma BarrierSafety(env: Env, steps: seq<Step>)
    ensures var s := Run(env, INITIAL, steps);
      && ChainValid(env.hash, s.log)
      && ExecutionsOnce(s.log)
      && (forall j | 0 <= j < |s.log| && s.log[j].event.Execution? ::
            exists a: Artifact, outcome ::
              s.log[j].event == ExecutionEvent(a, outcome) && IssuedBefore(s.log, j, a))
      && (forall k | 0 <= k < |s.effects| ::
            s.effects[k].at <= |s.log| && IssuedBefore(s.log, s.effects[k].at, s.effects[k].a))
  {
    RunKeepsSafe(env, INITIAL, steps);
    var s := Run(env, INITIAL, steps);
    forall j | 0 <= j < |s.log| && s.log[j].event.Execution?
      ensures exists a: Artifact, outcome ::
        s.log[j].event == ExecutionEvent(a, outcome) && IssuedBefore(s.log, j, a)
    {
      var t :| WrittenBy(s, j, t);
      var p := ReturnOf(s.calls[t]).value;
      assert s.log[j].event == ExecutionEvent(p.a, p.outcome);
    }
  }

  /** A denied nonce is never run and never gets an execution frame. */
  lemma DeniedNeverRuns(env: Env, steps: seq<Step>, i: nat)
    requires var log := Run(env, INITIAL, steps).log;
             i < |log| && log[i].event.Authorization? && !log[i].event.issued
    ensures var s := Run(env, INITIAL, steps);
      && (forall j | 0 <= j < |s.log| && s.log[j].event.Execution? :: s.log[j].event.nonce != s.log[i].event.nonce)
      && (forall k | 0 <= k < |s.effects| :: s.effects[k].a.payload.nonce != s.log[i].event.nonce)
  {
    RunKeepsSafe(env, INITIAL, steps);
    var s := Run(env, INITIAL, steps);
    forall j | 0 <= j < |s.log| && s.log[j].event.Execution?
      ensures s.log[j].event.nonce != s.log[i].event.nonce
    {
      var t :| WrittenBy(s, j, t);
      IssuedIsNotDenied(s.log, j, ReturnOf(s.calls[t]).value.a, i);
    }
    forall k | 0 <= k < |s.effects| ensures s.effects[k].a.payload.nonce != s.log[i].event.nonce {
      IssuedIsNotDenied(s.log, s.effects[k].at, s.effects[k].a, i);
    }
  }

  lemma IssuedIsNotDenied(log: Log, n: nat, a: Artifact, i: nat)
    requires AuthorizationsOnce(log) && IssuedBefore(log, n, a)
    requires i < |log| && log[i].event.Authorization? && !log[i].event.issued
    ensures a.payload.nonce != log[i].event.nonce
  {
    var k :| 0 <= k < n && k < |log| && IssuedFor(log[k].event, a);
    assert k != i;
  }

  // ----- at most once -----

  /** The artifact a call is about, while it is known. */
  function ArtifactOf(p: Phase): Option<Artifact> {
    match p
    case Refused(_) => None
    case Crashed(before) => ArtifactOf(before)
    case NonceChecked(a) => Some(a)
    case Validated(a) => Some(a)
    case Claimed(a) => Some(a)
    case Invoked(a, _) => Some(a)
    case Returned(a, _, _) => Some(a)
  }

  /** Calls never disappear, change their artifact, or come back after returning. */
  ghost predicate CallsAdvance(calls: map<nat, Phase>, calls': map<nat, Phase>) {
    forall t | t in calls ::
      && t in calls'
      && (ArtifactOf(calls'[t]) == None || ArtifactOf(calls'[t]) == ArtifactOf(calls[t]))
      && (calls[t].Returned? ==> calls'[t] == calls[t])
  }

  lemma NextAdvancesCalls(hash: Hasher<Event>, s: State, m: Move)
    ensures CallsAdvance(s.calls, Next(hash, s, m).calls)
  {}

  /** A call that has begun is about the artifact it began with. */
  lemma BegunCall(env: Env, s: State, step: Step)
    requires step.Begin? && step.call !in s.calls
    ensures var calls := Apply(env, s, step).calls;
            step.call in calls && (ArtifactOf(calls[step.call]) == None || ArtifactOf(calls[step.call]) == Some(step.a))
  {}

  /** The artifact whose nonce a call has claimed, even if the call crashed since. */
  function Held(p: Phase): Option<Artifact> {
    match p
    case Claimed(a) => Some(a)
    case Invoked(a, _) => Some(a)
    case Returned(a, _, _) => Some(a)
    case Crashed(before) => Held(before)
    case _ => None
  }

  /** The artifact whose action a call has run. */
  function Ran(p: Phase): Option<Artifact> {
    match p
    case Invoked(a, _) => Some(a)
    case Returned(a, _, _) => Some(a)
    case Crashed(before) => Ran(before)
    case _ => None
  }

  ghost predicate HeldBySome(calls: map<nat, Phase>, nonce: string) {
    exists t :: t in calls && Held(calls[t]).Some? && Held(calls[t]).value.payload.nonce == nonce
  }

  /** The claimed nonces are exactly those held, each by one call. */
  ghost predicate Gate(s: State) {
    && (forall t | t in s.calls && Held(s.calls[t]).Some? :: Held(s.calls[t]).value.payload.nonce in s.used)
    && (forall t, u | t in s.calls && u in s.calls && t != u && Held(s.calls[t]).Some? && Held(s.calls[u]).Some? ::
          Held(s.calls[t]).value.payload.nonce != Held(s.calls[u]).value.payload.nonce)
    && (forall n | n in s.used :: HeldBySome(s.calls, n))
  }

  ghost predicate EffectsTracked(s: State) {
    && (forall k | 0 <= k < |s.effects| ::
          s.effects[k].call in s.calls && Ran(s.calls[s.effects[k].call]) == Some(s.effects[k].a))
    && (forall k, l | 0 <= k < l < |s.effects| :: s.effects[k].call != s.effects[l].call)
  }

  ghost predicate ReturnedRecorded(s: State) {
    forall t | t in s.calls && Recorded(s.calls[t]) ::
      var p := ReturnOf(s.calls[t]).value;
      p.at < |s.log| && ExecutionNonce(s.log[p.at].event) == Some(p.a.payload.nonce)
  }

  lemma {:induction false} RanIsHeld(p: Phase)
    ensures Ran(p).Some? ==> Held(p) == Ran(p)
  {
    if p.Crashed? {
      RanIsHeld(p.before);
    }
  }

  lemma RecordedIsHeld(p: Phase)
    requires Recorded(p)
    ensures Held(p) == Some(ReturnOf(p).value.a)
  {}

  lemma HolderUnique(s: State, t: nat, u: nat)
    requires Gate(s) && t in s.calls && u in s.calls && Held(s.calls[t]).Some? && Held(s.calls[u]).Some?
    requires Held(s.calls[t]).value.payload.nonce == Held(s.calls[u]).value.payload.nonce
    ensures t == u
  {}

  /** A call that returned acted for an artifact its log had issued. */
  lemma ReturnedIsIssued(env: Env, s: State, t: nat)
    requires Safe(env.hash, s) && Gate(s) && ReturnedRecorded(s) && t in s.calls && s.calls[t].Returned?
    ensures IssuedBefore(s.log, |s.log|, s.calls[t].a)
  {
    var j := s.calls[t].at;
    assert ReturnOf(s.calls[t]) == Some(s.calls[t]);
    assert ExecutionNonce(s.log[j].event) == Some(s.calls[t].a.payload.nonce);
    var u :| WrittenBy(s, j, u);
    RecordedIsHeld(s.calls[u]);
    RecordedIsHeld(s.calls[t]);
    HolderUnique(s, t, u);
    IssuedBeforeGrows(s.log, j, s.log, |s.log|, s.calls[t].a);
  }

  /** A step that only moves one call on, holding what it held. */
  lemma MovingKeepsGate(s: State, t: nat, p: Phase)
    requires Gate(s) && Held(p) == (if t in s.calls then Held(s.calls[t]) else None)
    ensures Gate(s.(calls := s.calls[t := p]))
  {
    var s' := s.(calls := s.calls[t := p]);
    forall n | n in s'.used ensures HeldBySome(s'.calls, n) {
      assert HeldBySome(s.calls, n);
      var u :| u in s.calls && Held(s.calls[u]).Some? && Held(s.calls[u]).value.payload.nonce == n;
      assert u in s'.calls;
    }
  }

  lemma ClaimingKeepsGate(s: State, t: nat, a: Artifact)
    requires Gate(s) && t in s.calls && Held(s.calls[t]).None? && a.payload.nonce !in s.used
    ensures Gate(s.(calls := s.calls[t := Claimed(a)], used := s.used + {a.payload.nonce}))
  {
    var s' := s.(calls := s.calls[t := Claimed(a)], used := s.used + {a.payload.nonce});
    forall n | n in s'.used ensures HeldBySome(s'.calls, n) {
      if n == a.payload.nonce {
        assert t in s'.calls && Held(s'.calls[t]).value.payload.nonce == n;
      } else {
        assert HeldBySome(s.calls, n);
        var u :| u in s.calls && Held(s.calls[u]).Some? && Held(s.calls[u]).value.payload.nonce == n;
        assert u in s'.calls;
      }
    }
  }

  /** Crashing calls changes what none of them holds. */
  lemma SameHoldersKeepGate(s: State, calls: map<nat, Phase>)
    requires Gate(s) && calls.Keys == s.calls.Keys && forall t | t in calls :: Held(calls[t]) == Held(s.calls[t])
    ensures Gate(s.(calls := calls))
  {
    forall n | n in s.used ensures HeldBySome(calls, n) {
      assert HeldBySome(s.calls, n);
      var u :| u in s.calls && Held(s.calls[u]).Some? && Held(s.calls[u]).value.payload.nonce == n;
      assert u in calls;
    }
  }

  lemma CheckingKeepsGate(hash: Hasher<Event>, s: State, m: Move)
    requires Gate(s) && (m.Start? || m.Read? || m.Stop?)
    ensures Gate(Next(hash, s, m))
  {
    match m
    case Start(t, a, refusal) =>
      if t !in s.calls {
        MovingKeepsGate(s, t, if refusal.Some? then Refused(refusal.value) else NonceChecked(a));
      }
    case Read(t, refusal) =>
      if t in s.calls && s.calls[t].NonceChecked? {
        MovingKeepsGate(s, t, if refusal.Some? then Refused(refusal.value) else Validated(s.calls[t].a));
      }
    case Stop(t) =>
      if t in s.calls && Unfinished(s.calls[t]) {
        MovingKeepsGate(s, t, Crashed(s.calls[t]));
      }
    case _ =>
  }

  lemma ActingKeepsGate(hash: Hasher<Event>, s: State, m: Move)
    requires Gate(s) && (m.Claim? || m.Invoke? || m.Record?)
    ensures Gate(Next(hash, s, m))
  {
    match m
    case Claim(t) =>
      if t in s.calls && s.calls[t].Validated? {
        if s.calls[t].a.payload.nonce in s.used {
          MovingKeepsGate(s, t, Refused(NonceUsed));
        } else {
          ClaimingKeepsGate(s, t, s.calls[t].a);
        }
      }
    case Invoke(t, outcome) =>
      if t in s.calls && s.calls[t].Claimed? {
        MovingKeepsGate(s, t, Invoked(s.calls[t].a, outcome));
      }
    case Record(t, answered) =>
      if t in s.calls && s.calls[t].Invoked? {
        MovingKeepsGate(s, t, RecordedAs(s.calls[t].a, s.calls[t].outcome, |s.log|, answered));
      }
    case _ =>
  }

  lemma NextKeepsGate(hash: Hasher<Event>, s: State, m: Move)
    requires Gate(s) && (m.Reload? ==> s.used == ExecutedNonces(ExecutionNonce, s.log))
    ensures Gate(Next(hash, s, m))
  {
    if m.Start? || m.Read? || m.Stop? {
      CheckingKeepsGate(hash, s, m);
    } else if m.Claim? || m.Invoke? || m.Record? {
      ActingKeepsGate(hash, s, m);
    } else if m.Reload? {
      SameHoldersKeepGate(s, CrashAll(s.calls));
    }
  }

  lemma NextKeepsEffectsTracked(hash: Hasher<Event>, s: State, m: Move)
    requires EffectsTracked(s)
    ensures EffectsTracked(Next(hash, s, m))
  {}

  lemma NextKeepsReturnedRecorded(hash: Hasher<Event>, s: State, m: Move)
    requires ReturnedRecorded(s)
    ensures ReturnedRecorded(Next(hash, s, m))
  {}

  lemma StepKeepsGate(env: Env, s: State, step: Step)
    requires Gate(s) && EffectsTracked(s) && ReturnedRecorded(s)
    requires step.Restart? ==> s.used == ExecutedNonces(ExecutionNonce, s.log)
    ensures var s' := Apply(env, s, step); Gate(s') && EffectsTracked(s') && ReturnedRecorded(s')
  {
    NextKeepsGate(env.hash, s, Resolve(env, s, step));
    NextKeepsEffectsTracked(env.hash, s, Resolve(env, s, step));
    NextKeepsReturnedRecorded(env.hash, s, Resolve(env, s, step));
  }

  /** Every action run so far has its execution frame. */
  ghost predicate EffectsRecorded(s: State) {
    forall k | 0 <= k < |s.effects| :: s.effects[k].a.payload.nonce in ExecutedNonces(ExecutionNonce, s.log)
  }

  /** No restart happens between an action and its frame. */
  ghost predicate SafeRestarts(env: Env, s: State, steps: seq<Step>)
    decreases |steps|
  {
    steps != [] ==>
      && (steps[0].Restart? ==> EffectsRecorded(s))
      && SafeRestarts(env, Apply(env, s, steps[0]), steps[1..])
  }

  /** Two effects with the same nonce. */
  ghost predicate Repeats(effects: seq<Effect>) {
    exists k, l :: 0 <= k < l < |effects| && effects[k].a.payload.nonce == effects[l].a.payload.nonce
  }

  /** No nonce's action was run twice, or is about to be. */
  ghost predicate RunOnce(s: State) {
    && !Repeats(s.effects)
    && (forall k | 0 <= k < |s.effects| :: s.effects[k].a.payload.nonce in s.used)
    && (forall t, k | t in s.calls && s.calls[t].Claimed? && 0 <= k < |s.effects| ::
          s.effects[k].a.payload.nonce != s.calls[t].a.payload.nonce)
  }

  lemma ClaimKeepsRunOnce(hash: Hasher<Event>, s: State, t: nat)
    requires RunOnce(s)
    ensures RunOnce(Next(hash, s, Claim(t)))
  {}

  lemma InvokeKeepsRunOnce(hash: Hasher<Event>, s: State, t: nat, outcome: Outcome)
    requires LiveCallsExclusive(s) && RunOnce(s)
    ensures RunOnce(Next(hash, s, Invoke(t, outcome)))
  {}

  /** Nothing run and nothing claimed. */
  lemma QuietKeepsRunOnce(s: State, s': State)
    requires RunOnce(s) && s'.effects == s.effects
    requires forall k | 0 <= k < |s.effects| :: s.effects[k].a.payload.nonce in s'.used
    requires forall t | t in s'.calls && s'.calls[t].Claimed? :: t in s.calls && s'.calls[t] == s.calls[t]
    ensures RunOnce(s')
  {}

  lemma NextKeepsRunOnce(hash: Hasher<Event>, s: State, m: Move)
    requires LiveCallsExclusive(s) && RunOnce(s) && (m.Reload? ==> EffectsRecorded(s))
    ensures RunOnce(Next(hash, s, m))
  {
    match m
    case Claim(t) => ClaimKeepsRunOnce(hash, s, t);
    case Invoke(t, outcome) => InvokeKeepsRunOnce(hash, s, t, outcome);
    case _ => QuietKeepsRunOnce(s, Next(hash, s, m));
  }

  lemma {:induction false} RunKeepsRunOnce(env: Env, s: State, steps: seq<Step>)
    requires Safe(env.hash, s) && RunOnce(s) && SafeRestarts(env, s, steps)
    ensures RunOnce(Run(env, s, steps))
    decreases |steps|
  {
    if steps != [] {
      StepKeepsSafe(env, s, steps[0]);
      NextKeepsRunOnce(env.hash, s, Resolve(env, s, steps[0]));
      RunKeepsRunOnce(env, Apply(env, s, steps[0]), steps[1..]);
    }
  }

  /** No nonce's action is run twice, as long as no restart happens between an action and its frame. */
  lemma AtMostOnce(env: Env, steps: seq<Step>)
    requires SafeRestarts(env, INITIAL, steps)
    ensures !Repeats(Run(env, INITIAL, steps).effects)
  {
    RunKeepsRunOnce(env, INITIAL, steps);
  }

  // ----- what a restart restores -----

  /** The state a restart leaves: the nonces are those of the log, and no call is under way. */
  ghost predicate Reloaded(s: State) {
    s.used == ExecutedNonces(ExecutionNonce, s.log) && forall t | t in s.calls :: !Unfinished(s.calls[t])
  }

  /** The nonces and calls that came after `base`. */
  function Since(base: State, s: State): State {
    s.(used := s.used - base.used, calls := s.calls - base.calls.Keys)
  }

  /** What came after a restart is exclusive by itself, whatever the restart forgot. */
  ghost predicate SinceOk(base: State, s: State) {
    && base.log <= s.log && base.used <= s.used
    && (forall t | t in base.calls :: t in s.calls && s.calls[t] == base.calls[t])
    && Gate(Since(base, s)) && ReturnedRecorded(s)
  }

  lemma RefusedClaimKeepsSince(base: State, s: State, t: nat)
    requires Gate(Since(base, s)) && t in s.calls && s.calls[t].Validated? && t !in base.calls
    ensures Gate(Since(base, s.(calls := s.calls[t := Refused(NonceUsed)])))
  {
    var later := Since(base, s);
    MovingKeepsGate(later, t, Refused(NonceUsed));
    assert s.calls[t := Refused(NonceUsed)] - base.calls.Keys == later.calls[t := Refused(NonceUsed)];
  }

  lemma GrantedClaimKeepsSince(base: State, s: State, t: nat, a: Artifact)
    requires base.used <= s.used && Gate(Since(base, s)) && t !in base.calls
    requires t in s.calls && s.calls[t] == Validated(a) && a.payload.nonce !in s.used
    ensures Gate(Since(base, s.(calls := s.calls[t := Claimed(a)], used := s.used + {a.payload.nonce})))
  {
    var later := Since(base, s);
    ClaimingKeepsGate(later, t, a);
    assert s.calls[t := Claimed(a)] - base.calls.Keys == later.calls[t := Claimed(a)];
    assert s.used + {a.payload.nonce} - base.used == later.used + {a.payload.nonce};
  }

  /** The claim of a nonce the log already had is refused, as any claim of a used one. */
  lemma ClaimKeepsSince(hash: Hasher<Event>, base: State, s: State, t: nat)
    requires base.used <= s.used && Gate(Since(base, s)) && t !in base.calls
    ensures Gate(Since(base, Next(hash, s, Claim(t))))
  {
    if t in s.calls && s.calls[t].Validated? {
      if s.calls[t].a.payload.nonce in s.used {
        RefusedClaimKeepsSince(base, s, t);
      } else {
        GrantedClaimKeepsSince(base, s, t, s.calls[t].a);
      }
    }
  }

  /** Finished calls do nothing any more. */
  lemma FinishedStays(hash: Hasher<Event>, s: State, m: Move, t: nat)
    requires t in s.calls && !Unfinished(s.calls[t]) && !m.Reload?
    ensures t in Next(hash, s, m).calls && Next(hash, s, m).calls[t] == s.calls[t]
  {}

  lemma NextKeepsSince(hash: Hasher<Event>, base: State, s: State, m: Move)
    requires Reloaded(base) && SinceOk(base, s) && !m.Reload?
    ensures SinceOk(base, Next(hash, s, m))
  {
    var s' := Next(hash, s, m);
    NextKeepsReturnedRecorded(hash, s, m);
    forall t | t in base.calls ensures t in s'.calls && s'.calls[t] == base.calls[t] {
      FinishedStays(hash, s, m, t);
    }
    NextGrows(hash, s, m);
    NextKeepsSinceGate(hash, base, s, m);
  }

  lemma NextGrows(hash: Hasher<Event>, s: State, m: Move)
    requires !m.Reload?
    ensures s.log <= Next(hash, s, m).log && s.used <= Next(hash, s, m).used
  {}

  lemma NextKeepsSinceGate(hash: Hasher<Event>, base: State, s: State, m: Move)
    requires Reloaded(base) && SinceOk(base, s) && !m.Reload?
    ensures Gate(Since(base, Next(hash, s, m)))
  {
    if m.Skip? || m.Write? {
      assert Since(base, Next(hash, s, m)).calls == Since(base, s).calls;
    } else if m.call in base.calls {
      assert Next(hash, s, m) == s;
    } else if m.Claim? {
      ClaimKeepsSince(hash, base, s, m.call);
    } else {
      NextKeepsGate(hash, Since(base, s), m);
      NextOfSince(hash, base, s, m);
    }
  }

  /** A step of a later call that claims nothing is the same step of what came after. */
  lemma NextOfSince(hash: Hasher<Event>, base: State, s: State, m: Move)
    requires !m.Skip? && !m.Write? && !m.Claim? && !m.Reload? && m.call !in base.calls
    ensures Since(base, Next(hash, s, m)) == Next(hash, Since(base, s), m)
  {
    assert Since(base, Next(hash, s, m)).calls == Next(hash, Since(base, s), m).calls;
  }

  lemma {:induction false} RunKeepsSince(env: Env, base: State, s: State, steps: seq<Step>)
    requires Reloaded(base) && SinceOk(base, s)
    requires forall i | 0 <= i < |steps| :: !steps[i].Restart?
    ensures SinceOk(base, Run(env, s, steps))
    decreases |steps|
  {
    if steps != [] {
      NextKeepsSince(env.hash, base, s, Resolve(env, s, steps[0]));
      RunKeepsSince(env, base, Apply(env, s, steps[0]), steps[1..]);
    }
  }

  lemma {:induction false} RunKeepsRecorded(env: Env, s: State, steps: seq<Step>)
    requires ReturnedRecorded(s)
    ensures ReturnedRecorded(Run(env, s, steps))
    decreases |steps|
  {
    if steps != [] {
      NextKeepsReturnedRecorded(env.hash, s, Resolve(env, s, steps[0]));
      RunKeepsRecorded(env, Apply(env, s, steps[0]), steps[1..]);
    }
  }

  /** How many steps there are up to the last restart, counting it. */
  function UpToRestart(steps: seq<Step>): (k: nat)
    ensures k <= |steps| && (k > 0 ==> steps[k - 1].Restart?)
    ensures forall i | k <= i < |steps| :: !steps[i].Restart?
  {
    if steps == [] then 0
    else if steps[|steps| - 1].Restart? then |steps|
    else UpToRestart(steps[..|steps| - 1])
  }

  /** The state right after the last restart of a run, or the initial one. */
  ghost function LastLoaded(env: Env, steps: seq<Step>): State {
    Run(env, INITIAL, steps[..UpToRestart(steps)])
  }

  lemma LastLoadedIsReloaded(env: Env, steps: seq<Step>)
    ensures Reloaded(LastLoaded(env, steps)) && SinceOk(LastLoaded(env, steps), LastLoaded(env, steps))
  {
    var k := UpToRestart(steps);
    RunKeepsRecorded(env, INITIAL, steps[..k]);
    if k > 0 {
      assert steps[..k] == steps[..k - 1] + [Restart];
      RunAppend(env, INITIAL, steps[..k - 1], [Restart]);
      RunSingle(env, Run(env, INITIAL, steps[..k - 1]), Restart);
    } else {
      assert steps[..k] == [];
    }
  }

  /** Everyone who claimed a nonce since `base` has written its frame. */
  ghost predicate AllRecorded(base: State, s: State) {
    forall t | t in s.calls && t !in base.calls && Held(s.calls[t]).Some? :: Recorded(s.calls[t])
  }

  /**
   * Over all runs: a restart restores the claimed nonces exactly when each has
   * its execution frame, and that is when every call begun since the last
   * restart that claimed a nonce has written its frame.
   */
  lemma RestartIsClean(env: Env, steps: seq<Step>)
    ensures var s := Run(env, INITIAL, steps);
      && (Apply(env, s, Restart).used == s.used <==>
            forall n | n in s.used :: n in ExecutedNonces(ExecutionNonce, s.log))
      && (Apply(env, s, Restart).used == s.used <==> AllRecorded(LastLoaded(env, steps), s))
  {
    var base, s := LastLoaded(env, steps), Run(env, INITIAL, steps);
    RunKeepsSafe(env, INITIAL, steps);
    RunSinceRestart(env, steps);
    CleanIsCovered(env, s);
    CleanExactly(env.hash, base, s);
  }

  lemma CleanIsCovered(env: Env, s: State)
    requires Safe(env.hash, s)
    ensures Apply(env, s, Restart).used == ExecutedNonces(ExecutionNonce, s.log)
    ensures ExecutedNonces(ExecutionNonce, s.log) == s.used <==>
            forall n | n in s.used :: n in ExecutedNonces(ExecutionNonce, s.log)
  {}

  lemma RunSinceRestart(env: Env, steps: seq<Step>)
    ensures Reloaded(LastLoaded(env, steps)) && ReturnedRecorded(LastLoaded(env, steps))
    ensures SinceOk(LastLoaded(env, steps), Run(env, INITIAL, steps))
  {
    var k, base := UpToRestart(steps), LastLoaded(env, steps);
    LastLoadedIsReloaded(env, steps);
    assert steps == steps[..k] + steps[k..];
    RunAppend(env, INITIAL, steps[..k], steps[k..]);
    RunKeepsSince(env, base, base, steps[k..]);
  }

  lemma CleanExactly(hash: Hasher<Event>, base: State, s: State)
    requires Safe(hash, s) && Reloaded(base) && SinceOk(base, s) && ReturnedRecorded(base)
    ensures s.used == ExecutedNonces(ExecutionNonce, s.log) <==> AllRecorded(base, s)
  {
    if s.used == ExecutedNonces(ExecutionNonce, s.log) {
      CleanMeansRecorded(base, s);
    } else if AllRecorded(base, s) {
      RecordedMeansClean(base, s);
    }
  }

  lemma RecordedNonceExecuted(s: State, t: nat)
    requires ReturnedRecorded(s) && t in s.calls && Recorded(s.calls[t])
    ensures Held(s.calls[t]).Some?
    ensures Held(s.calls[t]).value.payload.nonce in ExecutedNonces(ExecutionNonce, s.log)
  {
    RecordedIsHeld(s.calls[t]);
    var p := ReturnOf(s.calls[t]).value;
    assert ExecutionNonce(s.log[p.at].event) == Some(p.a.payload.nonce);
  }

  /** A frame bears the nonce of the one call since the last restart that claimed it. */
  lemma FrameOfHolder(base: State, s: State, t: nat)
    requires Reloaded(base) && ReturnedRecorded(base) && SinceOk(base, s) && ExecutionsBacked(s)
    requires t in s.calls && t !in base.calls && Held(s.calls[t]).Some?
    requires Held(s.calls[t]).value.payload.nonce in ExecutedNonces(ExecutionNonce, s.log)
    ensures Recorded(s.calls[t])
  {
    var n := Held(s.calls[t]).value.payload.nonce;
    var j :| 0 <= j < |s.log| && ExecutionNonce(s.log[j].event) == Some(n);
    var u :| WrittenBy(s, j, u);
    var p := ReturnOf(s.calls[u]).value;
    RecordedIsHeld(s.calls[u]);
    assert p.a.payload.nonce == n;
    assert Since(base, s).calls[t] == s.calls[t] && n in Since(base, s).used;
    if u in base.calls {
      RecordedNonceExecuted(base, u);
      assert false;
    } else {
      assert Since(base, s).calls[u] == s.calls[u];
      HolderUnique(Since(base, s), t, u);
    }
  }

  lemma CleanMeansRecorded(base: State, s: State)
    requires Reloaded(base) && ReturnedRecorded(base) && SinceOk(base, s) && ExecutionsBacked(s)
    requires s.used == ExecutedNonces(ExecutionNonce, s.log)
    ensures AllRecorded(base, s)
  {
    forall t | t in s.calls && t !in base.calls && Held(s.calls[t]).Some? ensures Recorded(s.calls[t]) {
      assert Since(base, s).calls[t] == s.calls[t];
      assert Held(s.calls[t]).value.payload.nonce in Since(base, s).used;
      FrameOfHolder(base, s, t);
    }
  }

  lemma RecordedMeansClean(base: State, s: State)
    requires Reloaded(base) && SinceOk(base, s) && AllRecorded(base, s)
    ensures s.used <= ExecutedNonces(ExecutionNonce, s.log)
  {
    forall n | n in s.used ensures n in ExecutedNonces(ExecutionNonce, s.log) {
      if n in base.used {
        var j :| 0 <= j < |base.log| && ExecutionNonce(base.log[j].event) == Some(n);
        assert s.log[j] == base.log[j];
      } else {
        assert HeldBySome(Since(base, s).calls, n);
        var t :| t in Since(base, s).calls && Held(s.calls[t]).Some? && Held(s.calls[t]).value.payload.nonce == n;
        assert Since(base, s).calls[t] == s.calls[t] && Recorded(s.calls[t]);
        RecordedNonceExecuted(s, t);
      }
    }
  }

  /**
   * What a lost claim costs: after a restart in any state, an artifact that
   * still passes the other checks runs again exactly when its nonce has no
   * execution frame.
   */
  lemma RestartForgets(
    env: Env, s: State, t: nat, a: Artifact, outcome: Outcome, issuerKeys: map<string, PublicKey>, now: int,
    policies: Option<map<string, Policy>>, keys: map<string, PublicKey>)
    requires t !in s.calls
    requires CheckCredentials(env, issuerKeys, now, false, a).None?
    requires CheckEvidence(env, policies, keys, FindFrame(s.log, a.payload.frameRef), a).None?
    ensures
      var again := Attempt(t, a, outcome, issuerKeys, now, policies, keys);
      var s' := Run(env, Apply(env, s, Restart), again[..4]);
      s'.effects ==
        if a.payload.nonce in ExecutedNonces(ExecutionNonce, s.log) then s.effects
        else s.effects + [Effect(t, a, |s.log|)]
  {
    ValidateByNonce(env, ExecutedNonces(ExecutionNonce, s.log), s.log, a, issuerKeys, now, policies, keys);
    AfterRestart(env, s, t, a, outcome, issuerKeys, now, policies, keys);
  }

  /**
   * The condition in `AtMostOnce` is exact: restart where no action was run
   * twice yet, and begin an artifact again that passes the other checks. Its
   * action repeats exactly when it was run before and its frame is missing.
   */
  lemma RestartRepeats(
    env: Env, s: State, t: nat, a: Artifact, outcome: Outcome, issuerKeys: map<string, PublicKey>, now: int,
    policies: Option<map<string, Policy>>, keys: map<string, PublicKey>)
    requires !Repeats(s.effects) && t !in s.calls
    requires CheckCredentials(env, issuerKeys, now, false, a).None?
    requires CheckEvidence(env, policies, keys, FindFrame(s.log, a.payload.frameRef), a).None?
    ensures
      var again := Attempt(t, a, outcome, issuerKeys, now, policies, keys);
      Repeats(Run(env, Apply(env, s, Restart), again[..4]).effects) <==>
        WasRun(s.effects, a.payload.nonce) && a.payload.nonce !in ExecutedNonces(ExecutionNonce, s.log)
  {
    RestartForgets(env, s, t, a, outcome, issuerKeys, now, policies, keys);
    var s' := Run(env, Apply(env, s, Restart), Attempt(t, a, outcome, issuerKeys, now, policies, keys)[..4]);
    OneMoreEffect(
      s.effects, s'.effects, Effect(t, a, |s.log|), a.payload.nonce in ExecutedNonces(ExecutionNonce, s.log));
  }

  ghost predicate WasRun(effects: seq<Effect>, nonce: string) {
    exists k :: 0 <= k < |effects| && effects[k].a.payload.nonce == nonce
  }

  lemma OneMoreEffect(effects: seq<Effect>, effects': seq<Effect>, e: Effect, recorded: bool)
    requires !Repeats(effects) && effects' == if recorded then effects else effects + [e]
    ensures Repeats(effects') <==> WasRun(effects, e.a.payload.nonce) && !recorded
  {
    if WasRun(effects, e.a.payload.nonce) && !recorded {
      var k :| 0 <= k < |effects| && effects[k].a.payload.nonce == e.a.payload.nonce;
      assert effects'[k] == effects[k] && effects'[|effects|] == e;
    }
  }

  /** Run, restart before the frame is written, run again: the same action twice, from any state that accepts it. */
  lemma RunsTwice(
    env: Env, s: State, t: nat, u: nat, a: Artifact, outcome: Outcome, issuerKeys: map<string, PublicKey>, now: int,
    policies: Option<map<string, Policy>>, keys: map<string, PublicKey>)
    requires t !in s.calls && u !in s.calls && t != u
    requires a.payload.nonce !in ExecutedNonces(ExecutionNonce, s.log)
    requires Validate(env, issuerKeys, now, s.used, s.log, policies, keys, a).None?
    ensures
      var first := Attempt(t, a, outcome, issuerKeys, now, policies, keys)[..4];
      var second := Attempt(u, a, outcome, issuerKeys, now, policies, keys)[..4];
      var s' := Run(env, Apply(env, Run(env, s, first), Restart), second);
      s'.effects == s.effects + [Effect(t, a, |s.log|), Effect(u, a, |s.log|)]
  {
    FourSteps(env, s, t, a, outcome, issuerKeys, now, policies, keys);
    var s4 := State(s.log, s.used + {a.payload.nonce}, s.calls[t := Invoked(a, outcome)],
                    s.effects + [Effect(t, a, |s.log|)]);
    AcceptedParts(env, s.used, s.log, a, issuerKeys, now, policies, keys);
    RestartForgets(env, s4, u, a, outcome, issuerKeys, now, policies, keys);
    assert s.effects + [Effect(t, a, |s.log|)] + [Effect(u, a, |s.log|)]
           == s.effects + [Effect(t, a, |s.log|), Effect(u, a, |s.log|)];
  }

  lemma AcceptedParts(
    env: Env, used: set<string>, log: Log, a: Artifact, issuerKeys: map<string, PublicKey>, now: int,
    policies: Option<map<string, Policy>>, keys: map<string, PublicKey>)
    requires Validate(env, issuerKeys, now, used, log, policies, keys, a).None?
    ensures CheckCredentials(env, issuerKeys, now, false, a).None?
    ensures CheckEvidence(env, policies, keys, FindFrame(log, a.payload.frameRef), a).None?
  {}

  lemma {:induction false} RunAppend(env: Env, s: State, a: seq<Step>, b: seq<Step>)
    ensures Run(env, s, a + b) == Run(env, Run(env, s, a), b)
    decreases |a|
  {
    if a == [] {
      assert a + b == b;
    } else {
      assert (a + b)[1..] == a[1..] + b;
      RunAppend(env, Apply(env, s, a[0]), a[1..], b);
    }
  }

  lemma ArbitrateWrites(env: Env, s: State, step: Step, last: (string, Event), before: seq<(string, Event)>)
    requires step.Arbitrate? && !NonceKnown(s.log, step.request.nonce)
    requires var r := Issue(env, step.arbiterKeys, step.attested, step.keyId, step.sign, step.request);
             r.Issued? && r.entries == before + [last]
    ensures Apply(env, s, step) == s.(log := Written(env.hash, s.log, last.0, last.1))
  {
    assert Resolve(env, s, step) == Write(last.0, last.1);
  }

  /** The writing of what precedes an authorization frame. */
  function WriteSteps(before: seq<(string, Event)>): seq<Step>
    requires before == [] || (|before| == 1 && before[0].1.Other?)
  {
    if before == [] then [] else [WriteOther(before[0].0, before[0].1.kind)]
  }

  lemma BeforeIsWritten(env: Env, before: seq<(string, Event)>, nonce: string)
    requires before == [] || (|before| == 1 && before[0].1.Other?)
    ensures Run(env, INITIAL, WriteSteps(before)) == INITIAL.(log := AppendAll(env.hash, [], before))
    ensures !NonceKnown(AppendAll(env.hash, [], before), nonce)
  {
    if before != [] {
      RunSingle(env, INITIAL, WriteSteps(before)[0]);
      assert before == [before[0]];
    }
  }

  /** The steps of one arbitration on an empty log: its mesh frame, if there is one, and its authorization frame. */
  lemma IssueSteps(
    env: Env, keys: map<string, PublicKey>, attested: Mesh.Input -> bool,
    keyId: string, sign: Payload -> string, request: IssueCall)
    returns (steps: seq<Step>)
    requires Issue(env, keys, attested, keyId, sign, request).Issued?
    ensures Run(env, INITIAL, steps) ==
            INITIAL.(log := AppendAll(env.hash, [], Issue(env, keys, attested, keyId, sign, request).entries))
  {
    var effective, decided, before, evidence, e := IssueShape(env, keys, attested, keyId, sign, request);
    var last := (AuthorizationId(request.nonce), e);
    var arbitrate := Arbitrate(keys, attested, keyId, sign, request);
    BeforeIsWritten(env, before, request.nonce);
    var start := INITIAL.(log := AppendAll(env.hash, [], before));
    ArbitrateWrites(env, start, arbitrate, last, before);
    AppendAllSteps(env.hash, [], before, last);
    steps := WriteSteps(before) + [arbitrate];
    RunAppend(env, INITIAL, WriteSteps(before), [arbitrate]);
    RunSingle(env, start, arbitrate);
  }

  lemma RunSingle(env: Env, s: State, step: Step)
    ensures Run(env, s, [step]) == Apply(env, s, step)
  {
    assert Run(env, Apply(env, s, step), []) == Apply(env, s, step);
    assert [step][1..] == [];
  }

  /**
   * Any executable artifact can be run twice: issue it, run it, restart before
   * its frame is written, run it again. The state is reached from the empty log.
   */
  lemma IssuedRunsTwice(
    env: Env, keys: map<string, PublicKey>, attested: Mesh.Input -> bool, keyId: string, sign: Payload -> string,
    request: IssueCall, issuerKeys: map<string, PublicKey>, now: int, policies: Option<map<string, Policy>>,
    outcome: Outcome)
    returns (steps: seq<Step>)
    requires Executable(env, keys, attested, keyId, sign, request, issuerKeys, now, policies)
    ensures var effects := Run(env, INITIAL, steps).effects;
            var a := Issue(env, keys, attested, keyId, sign, request).artifact;
            |effects| == 2 && effects[0].a == effects[1].a == a
    ensures Repeats(Run(env, INITIAL, steps).effects)
  {
    var a := Issue(env, keys, attested, keyId, sign, request).artifact;
    var issue := IssueSteps(env, keys, attested, keyId, sign, request);
    var s := Run(env, INITIAL, issue);
    IssuedArtifactsValidate(env, keys, attested, keyId, sign, request, issuerKeys, now, {}, [], [], policies);
    assert s.log + [] == s.log;
    NothingExecutedYet(env, issue);
    var first := Attempt(0, a, outcome, issuerKeys, now, policies, keys)[..4];
    var second := Attempt(1, a, outcome, issuerKeys, now, policies, keys)[..4];
    RunsTwice(env, s, 0, 1, a, outcome, issuerKeys, now, policies, keys);
    steps := issue + (first + ([Restart] + second));
    RunAppend(env, INITIAL, issue, first + ([Restart] + second));
    RunAppend(env, s, first, [Restart] + second);
    RunAppend(env, Run(env, s, first), [Restart], second);
    RunSingle(env, Run(env, s, first), Restart);
    var effects := Run(env, INITIAL, steps).effects;
    assert effects[0].a == a && effects[1].a == a;
  }

  /** Without claimed nonces there are no execution frames. */
  lemma NothingExecutedYet(env: Env, steps: seq<Step>)
    requires Run(env, INITIAL, steps).used == {}
    ensures ExecutedNonces(ExecutionNonce, Run(env, INITIAL, steps).log) == {}
  {
    RunKeepsSafe(env, INITIAL, steps);
  }

  /** A call begun after a restart is judged by the nonces the file records. */
  lemma AfterRestart(
    env: Env, s: State, t: nat, a: Artifact, outcome: Outcome, issuerKeys: map<string, PublicKey>, now: int,
    policies: Option<map<string, Policy>>, keys: map<string, PublicKey>)
    requires t !in s.calls
    ensures
      var recorded := ExecutedNonces(ExecutionNonce, s.log);
      var s' := Run(env, Apply(env, s, Restart), Attempt(t, a, outcome, issuerKeys, now, policies, keys)[..4]);
      s'.effects ==
        if Validate(env, issuerKeys, now, recorded, s.log, policies, keys, a).None?
        then s.effects + [Effect(t, a, |s.log|)] else s.effects
  {
    var s0 := State(s.log, ExecutedNonces(ExecutionNonce, s.log), CrashAll(s.calls), s.effects);
    assert Apply(env, s, Restart) == s0;
    FourSteps(env, s0, t, a, outcome, issuerKeys, now, policies, keys);
  }

  lemma ValidateByNonce(
    env: Env, used: set<string>, log: Log, a: Artifact, issuerKeys: map<string, PublicKey>, now: int,
    policies: Option<map<string, Policy>>, keys: map<string, PublicKey>)
    requires CheckCredentials(env, issuerKeys, now, false, a).None?
    requires CheckEvidence(env, policies, keys, FindFrame(log, a.payload.frameRef), a).None?
    ensures Validate(env, issuerKeys, now, used, log, policies, keys, a) ==
            if a.payload.nonce in used then Some(NonceUsed) else None
  {}

  /** A refused call stays as it is. */
  lemma RefusedStays(hash: Hasher<Event>, s: State, t: nat, outcome: Outcome)
    requires t in s.calls && s.calls[t].Refused?
    ensures Next(hash, s, Claim(t)) == s && Next(hash, s, Invoke(t, outcome)) == s && Next(hash, s, Record(t, true)) == s
  {}

  /** Four undisturbed steps: refused for what `Validate` finds, or claimed and run. */
  lemma FourSteps(
    env: Env, s: State, t: nat, a: Artifact, outcome: Outcome, issuerKeys: map<string, PublicKey>, now: int,
    policies: Option<map<string, Policy>>, keys: map<string, PublicKey>)
    requires t !in s.calls
    ensures
      var refusal := Validate(env, issuerKeys, now, s.used, s.log, policies, keys, a);
      var s' := Run(env, s, Attempt(t, a, outcome, issuerKeys, now, policies, keys)[..4]);
      && (refusal.Some? ==> s' == s.(calls := s.calls[t := Refused(refusal.value)]))
      && (refusal.None? ==>
            s' == State(s.log, s.used + {a.payload.nonce}, s.calls[t := Invoked(a, outcome)],
                        s.effects + [Effect(t, a, |s.log|)]))
  {
    RunFour(env, s, Attempt(t, a, outcome, issuerKeys, now, policies, keys));
    var refusal := Validate(env, issuerKeys, now, s.used, s.log, policies, keys, a);
    CheckedAndRead(env, s, t, a, issuerKeys, now, policies, keys);
    ClaimAndInvoke(env.hash, s, t, a, refusal, outcome);
  }

  /** The two acting steps after the two reading ones. */
  lemma ClaimAndInvoke(hash: Hasher<Event>, s: State, t: nat, a: Artifact, refusal: Option<AuthError>, outcome: Outcome)
    requires refusal.None? ==> a.payload.nonce !in s.used
    ensures
      var s2 := s.(calls := s.calls[t := if refusal.Some? then Refused(refusal.value) else Validated(a)]);
      Next(hash, Next(hash, s2, Claim(t)), Invoke(t, outcome)) ==
        if refusal.Some? then s.(calls := s.calls[t := Refused(refusal.value)])
        else State(s.log, s.used + {a.payload.nonce}, s.calls[t := Invoked(a, outcome)],
                   s.effects + [Effect(t, a, |s.log|)])
  {
    var s2 := s.(calls := s.calls[t := if refusal.Some? then Refused(refusal.value) else Validated(a)]);
    if refusal.Some? {
      RefusedStays(hash, s2, t, outcome);
    } else {
      ClaimedAndRun(hash, s2, t, outcome);
      assert s2.calls[t := Invoked(a, outcome)] == s.calls[t := Invoked(a, outcome)];
    }
  }

  /** From a validated call with a free nonce to its frame. */
  lemma ClaimedAndRun(hash: Hasher<Event>, s: State, t: nat, outcome: Outcome)
    requires t in s.calls && s.calls[t].Validated? && s.calls[t].a.payload.nonce !in s.used
    ensures
      var a := s.calls[t].a;
      var s' := Next(hash, Next(hash, s, Claim(t)), Invoke(t, outcome));
      && s' == State(s.log, s.used + {a.payload.nonce}, s.calls[t := Invoked(a, outcome)],
                     s.effects + [Effect(t, a, |s.log|)])
      && Next(hash, s', Record(t, true)) == State(
           Written(hash, s.log, ExecutionId(a.payload.nonce), ExecutionEvent(a, outcome)),
           s.used + {a.payload.nonce}, s.calls[t := Returned(a, outcome, |s.log|)],
           s.effects + [Effect(t, a, |s.log|)])
  {
    var a := s.calls[t].a;
    assert s.calls[t := Claimed(a)][t := Invoked(a, outcome)] == s.calls[t := Invoked(a, outcome)];
    assert s.calls[t := Invoked(a, outcome)][t := Returned(a, outcome, |s.log|)]
           == s.calls[t := Returned(a, outcome, |s.log|)];
  }

  /** The steps of one call. */
  function Attempt(
    t: nat, a: Artifact, outcome: Outcome, issuerKeys: map<string, PublicKey>, now: int,
    policies: Option<map<string, Policy>>, keys: map<string, PublicKey>): (steps: seq<Step>)
    ensures |steps| == 5
  {
    [Begin(t, a, issuerKeys, now), ReadFrame(t, policies, keys), ClaimNonce(t), RunAction(t, outcome), WriteFrame(t)]
  }

  lemma RunFour(env: Env, s: State, steps: seq<Step>)
    requires |steps| >= 4
    ensures Run(env, s, steps[..4]) ==
            Apply(env, Apply(env, Apply(env, Apply(env, s, steps[0]), steps[1]), steps[2]), steps[3])
  {
    var four := steps[..4];
    var s1 := Apply(env, s, four[0]);
    var s2 := Apply(env, s1, four[1]);
    var s3 := Apply(env, s2, four[2]);
    var s4 := Apply(env, s3, four[3]);
    assert four[1..][1..] == four[2..] && four[2..][1..] == four[3..] && four[3..][1..] == [];
    assert Run(env, s4, []) == s4;
    assert Run(env, s3, four[3..]) == s4;
    assert Run(env, s2, four[2..]) == s4;
    assert Run(env, s1, four[1..]) == s4;
  }

  /** A call whose steps nothing interrupts does what `ExecutionBoundary.Execute` promises. */
  lemma UninterruptedCall(
    env: Env, s: State, t: nat, a: Artifact, outcome: Outcome, issuerKeys: map<string, PublicKey>, now: int,
    policies: Option<map<string, Policy>>, keys: map<string, PublicKey>)
    requires t !in s.calls
    ensures
      var refusal := Validate(env, issuerKeys, now, s.used, s.log, policies, keys, a);
      var steps := Attempt(t, a, outcome, issuerKeys, now, policies, keys);
      var s' := Apply(env, Run(env, s, steps[..4]), steps[4]);
      if refusal.Some? then s' == s.(calls := s.calls[t := Refused(refusal.value)])
      else s' == State(
        Written(env.hash, s.log, ExecutionId(a.payload.nonce), ExecutionEvent(a, outcome)),
        s.used + {a.payload.nonce}, s.calls[t := Returned(a, outcome, |s.log|)],
        s.effects + [Effect(t, a, |s.log|)])
  {
    FourSteps(env, s, t, a, outcome, issuerKeys, now, policies, keys);
    var refusal := Validate(env, issuerKeys, now, s.used, s.log, policies, keys, a);
    if refusal.Some? {
      RefusedStays(env.hash, s.(calls := s.calls[t := Refused(refusal.value)]), t, outcome);
    } else {
      RecordInvoked(env.hash, s, t, a, outcome);
    }
  }

  lemma RecordInvoked(hash: Hasher<Event>, s: State, t: nat, a: Artifact, outcome: Outcome)
    ensures
      var used, effects := s.used + {a.payload.nonce}, s.effects + [Effect(t, a, |s.log|)];
      Next(hash, State(s.log, used, s.calls[t := Invoked(a, outcome)], effects), Record(t, true)) == State(
        Written(hash, s.log, ExecutionId(a.payload.nonce), ExecutionEvent(a, outcome)),
        used, s.calls[t := Returned(a, outcome, |s.log|)], effects)
  {
    assert s.calls[t := Invoked(a, outcome)][t := Returned(a, outcome, |s.log|)]
           == s.calls[t := Returned(a, outcome, |s.log|)];
  }

  /** The two reading steps together decide what `Validate` decides. */
  lemma CheckedAndRead(
    env: Env, s: State, t: nat, a: Artifact, issuerKeys: map<string, PublicKey>, now: int,
    policies: Option<map<string, Policy>>, keys: map<string, PublicKey>)
    requires t !in s.calls
    ensures
      var refusal := Validate(env, issuerKeys, now, s.used, s.log, policies, keys, a);
      var s2 := Apply(env, Apply(env, s, Begin(t, a, issuerKeys, now)), ReadFrame(t, policies, keys));
      && s2 == s.(calls := s.calls[t := if refusal.Some? then Refused(refusal.value) else Validated(a)])
      && (refusal.None? ==> a.payload.nonce !in s.used)
  {
    var s1 := Apply(env, s, Begin(t, a, issuerKeys, now));
    assert s1.calls[t].NonceChecked? ==> s1.calls[t].a == a && a.payload.nonce !in s.used;
    var s2 := Apply(env, s1, ReadFrame(t, policies, keys));
    assert s2.calls == s.calls[t := s2.calls[t]];
  }
}
