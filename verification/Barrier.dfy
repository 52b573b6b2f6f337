/** Signed authorization artifacts and the events the replay log records. */
module Artifacts {
  import opened Wrappers
  import opened Values
  import opened Arbitration
  import opened ReplayChain
  import Mesh

  /** Everything an artifact's signature covers. Its canonical JSON is injective, so the record stands for it. */
  datatype Payload = Payload(
    request: Dict, decision: Decision, expiresAt: int, nonce: string, frameRef: string, issuerKeyId: string)

  datatype Artifact = Artifact(payload: Payload, signature: string)

  datatype Outcome = Completed(resultDigest: string) | Failed(error: string)

  datatype MeshEvidence = MeshEvidence(
    digest: Option<string>, requestDigest: Option<string>, inputs: Option<seq<Mesh.InputRecord>>)

  const NO_EVIDENCE := MeshEvidence(None, None, None)

  datatype Event =
    | Authorization(
        nonce: string, issued: bool, decision: Decision, artifactPayload: Option<Payload>, mesh: MeshEvidence)
    | Execution(nonce: string, authorizationRef: string, policy: Option<string>, outcome: Outcome)
    | Other(kind: string)

  type Log = seq<Frame<Event>>

  function ExecutionNonce(e: Event): Option<string> {
    if e.Execution? then Some(e.nonce) else None
  }

  function AuthorizationId(nonce: string): string { "authorization:" + nonce }

  function ExecutionId(nonce: string): string { "execution:" + nonce }

  function MeshFrameId(digest: string): string { "mesh-" + digest }

  function ExecutionEvent(a: Artifact, outcome: Outcome): Event {
    Execution(a.payload.nonce, a.payload.frameRef, a.payload.decision.policy, outcome)
  }

  /** The deployment's cryptography and the pure collaborators of issuer and boundary. */
  datatype Env = Env(
    prims: Primitives,
    hash: Hasher<Event>,
    meshDigest: Mesh.DecisionDigest,
    meshSeal: Mesh.Unsigned -> string,
    verify: (PublicKey, Payload, string) -> bool)

  function AppendAll(hash: Hasher<Event>, log: Log, entries: seq<(string, Event)>): Log
    decreases |entries|
  {
    if entries == [] then log
    else AppendAll(hash, log + [NextFrame(hash, log, entries[0].0, entries[0].1)], entries[1..])
  }
}

/** `AuthorizationIssuer` and `ExecutionBoundary`, run one call at a time. */
module Barrier {
  import opened Wrappers
  import opened Values
  import opened Arbitration
  import opened ReplayChain
  import opened Artifacts
  import Mesh

  // ----- issuing -----

  datatype IssueError =
    | TtlNotPositive
    | TtlAboveMaximum
    | ApprovalsNotAList
    | MeshRequirementUnmet
    | MeshInputsInvalid
    | ActionNotHashable

  datatype Issuance =
    | Rejected(error: IssueError)
    | Denied(decision: Decision, entries: seq<(string, Event)>)
    | Issued(artifact: Artifact, entries: seq<(string, Event)>)

  datatype IssueCall = IssueCall(
    request: Dict,
    policy: Policy,
    ttl: int,
    approvals: Option<seq<Value>>,
    meshInputs: seq<Mesh.Input>,
    now: int,
    nonce: string)

  function EffectiveRequest(request: Dict, approvals: Option<seq<Value>>): Option<Dict> {
    var existing := Lookup(request, "approvals");
    if approvals.None? then Some(request)
    else if existing == Null then Some(request["approvals" := List(approvals.value)])
    else if existing.List? then Some(request["approvals" := List(existing.items + approvals.value)])
    else None
  }

  predicate SourceProvided(inputs: seq<Mesh.Input>, source: string) {
    exists i | 0 <= i < |inputs| :: inputs[i].sourceId == source
  }

  /** The policy's demands on mesh evidence for this request. */
  predicate MeshRequirementsMet(prims: Primitives, request: Dict, policy: Policy, inputs: seq<Mesh.Input>) {
    var action := Lookup(request, "action");
    var name := if action == Null then Null else Text(prims.text(action));
    var environment := Lookup(ContextFields(request), "environment");
    var active :=
      || (name.Text? && name.s in policy.meshRequiredActions)
      || (environment.Text? && environment.s in policy.meshRequiredEnvironments);
    && (active ==> inputs != [])
    && |inputs| >= Get(policy.requiredMeshInputs, name, 0)
    && forall source | source in Get(policy.requiredMeshSources, name, []) :: SourceProvided(inputs, source)
  }

  function MeshFrame(d: Mesh.PreflightDecision): (string, Event) {
    (MeshFrameId(d.digest), Other("governance_preflight"))
  }

  ghost function Preflighted(env: Env, attested: Mesh.Input -> bool, request: Dict, inputs: seq<Mesh.Input>)
    : Result<Mesh.PreflightDecision, Mesh.MeshError>
  {
    Mesh.PreflightSpec(env.meshDigest, env.meshSeal, attested, inputs, env.prims.requestDigest(request), None)
  }

  function EvidenceOf(env: Env, request: Dict, d: Mesh.PreflightDecision, inputs: seq<Mesh.Input>): MeshEvidence {
    MeshEvidence(
      Some(d.digest), Some(env.prims.requestDigest(request)), Some(Mesh.ToRecords(env.meshDigest, inputs)))
  }

  /** What is logged and returned once the decision stands. */
  function Conclude(
    keyId: string, sign: Payload -> string, call: IssueCall, request: Dict,
    decision: Decision, evidence: MeshEvidence, before: seq<(string, Event)>): Issuance
  {
    var id := AuthorizationId(call.nonce);
    if !decision.allow then
      Denied(decision, before + [(id, Authorization(call.nonce, false, decision, None, NO_EVIDENCE))])
    else
      var payload := Payload(request, decision, call.now + call.ttl, call.nonce, id, keyId);
      Issued(Artifact(payload, sign(payload)),
             before + [(id, Authorization(call.nonce, true, decision, Some(payload), evidence))])
  }

  /** The checks before anything is logged: the effective request and the arbiter's decision on it. */
  ghost function Admitted(env: Env, arbiterKeys: map<string, PublicKey>, call: IssueCall)
    : Result<(Dict, Decision), IssueError>
  {
    var effective := EffectiveRequest(call.request, call.approvals);
    if call.ttl <= 0 then Failure(TtlNotPositive)
    else if call.ttl > call.policy.maxTtlSeconds then Failure(TtlAboveMaximum)
    else if effective.None? then Failure(ApprovalsNotAList)
    else Decided(env, call, effective.value, Decide(env.prims, arbiterKeys, effective.value, call.policy))
  }

  ghost function Decided(env: Env, call: IssueCall, request: Dict, decided: Option<Decision>)
    : Result<(Dict, Decision), IssueError>
  {
    if decided.None? then Failure(ActionNotHashable)
    else if !MeshRequirementsMet(env.prims, request, call.policy, call.meshInputs) then Failure(MeshRequirementUnmet)
    else Success((request, decided.value))
  }

  ghost function Issue(
    env: Env, arbiterKeys: map<string, PublicKey>, attested: Mesh.Input -> bool,
    keyId: string, sign: Payload -> string, call: IssueCall): Issuance
  {
    match Admitted(env, arbiterKeys, call)
    case Failure(error) => Rejected(error)
    case Success((request, decided)) =>
      if call.meshInputs == [] then Conclude(keyId, sign, call, request, decided, NO_EVIDENCE, [])
      else
        var preflight := Preflighted(env, attested, request, call.meshInputs);
        if preflight.Failure? then Rejected(MeshInputsInvalid)
        else
          Conclude(
            keyId, sign, call, request, WithMesh(decided, preflight.value),
            EvidenceOf(env, request, preflight.value, call.meshInputs), [MeshFrame(preflight.value)])
  }

  function WithMesh(decision: Decision, d: Mesh.PreflightDecision): Decision {
    if d.body.allow then decision.(meshPreflightDigest := Some(d.digest))
    else decision.(allow := false, reasons := decision.reasons + {GovernanceMeshDenied},
                   meshPreflightDigest := Some(d.digest))
  }

  // ----- validating -----

  datatype AuthError =
    | BadSignature
    | Expired
    | NonceUsed
    | FrameMissing
    | NonceMismatch
    | PayloadMismatch
    | MeshEvidenceUnsigned
    | MeshDigestMalformed
    | MeshEvidenceIncomplete
    | MeshDigestMismatch
    | MeshRequestMismatch
    | MeshInputsMalformed
    | MeshNotReconstructed
    | MeshFrameTampered
    | DecisionNotAllowed
    | PolicyNotRegistered
    | PolicyDigestMismatch
    | PolicyViolated
    | ActionOutsidePolicy

  /** The first half of `_validate`: signature, expiry and the advisory nonce check. */
  function CheckCredentials(
    env: Env, issuerKeys: map<string, PublicKey>, now: int, nonceUsed: bool, a: Artifact): Option<AuthError>
  {
    if a.payload.issuerKeyId !in issuerKeys
       || !env.verify(issuerKeys[a.payload.issuerKeyId], a.payload, a.signature) then Some(BadSignature)
    else if now >= a.payload.expiresAt then Some(Expired)
    else if nonceUsed then Some(NonceUsed)
    else None
  }

  function CheckFrame(frame: Option<Frame<Event>>, a: Artifact): Option<AuthError> {
    if frame.None? || !frame.value.event.Authorization? then Some(FrameMissing)
    else if frame.value.event.nonce != a.payload.nonce then Some(NonceMismatch)
    else if frame.value.event.artifactPayload != Some(a.payload) then Some(PayloadMismatch)
    else None
  }

  /** `_validate_mesh_evidence`: the logged inputs must re-derive the signed digest. */
  ghost function CheckMesh(env: Env, frame: Frame<Event>, a: Artifact): Option<AuthError>
    requires frame.event.Authorization?
  {
    var evidence, signed := frame.event.mesh, a.payload.decision.meshPreflightDigest;
    if signed.None? then
      if evidence == NO_EVIDENCE then None else Some(MeshEvidenceUnsigned)
    else if signed.value == "" then Some(MeshDigestMalformed)
    else if evidence.digest.None? || evidence.requestDigest.None? || evidence.inputs.None? then
      Some(MeshEvidenceIncomplete)
    else if evidence.digest != signed then Some(MeshDigestMismatch)
    else if evidence.requestDigest.value != env.prims.requestDigest(a.payload.request) then Some(MeshRequestMismatch)
    else
      var inputs := Mesh.FromRecords(env.meshDigest, evidence.inputs.value);
      if evidence.inputs.value == [] || inputs.None? then Some(MeshInputsMalformed)
      else
        CheckReconstruction(
          env.hash, frame, signed.value, Preflighted(env, Mesh.NoAttestation, a.payload.request, inputs.value))
  }

  /** What the recomputed preflight must say. */
  function CheckReconstruction(
    hash: Hasher<Event>, frame: Frame<Event>, signed: string, preflight: Result<Mesh.PreflightDecision, Mesh.MeshError>)
    : Option<AuthError>
  {
    if preflight.Failure? then Some(MeshInputsMalformed)
    else if !preflight.value.body.allow || preflight.value.digest != signed then Some(MeshNotReconstructed)
    else if frame.frameHash != hash(frame.frameId, frame.previousHash, frame.event) then Some(MeshFrameTampered)
    else None
  }

  ghost function CheckPolicy(
    env: Env, policies: Option<map<string, Policy>>, arbiterKeys: map<string, PublicKey>, a: Artifact): Option<AuthError>
  {
    if policies.None? then None
    else
      var decision := a.payload.decision;
      if decision.policy.None? || decision.policy.value !in policies.value then Some(PolicyNotRegistered)
      else
        var policy := policies.value[decision.policy.value];
        if decision.policyDigest.Some? && decision.policyDigest.value != env.prims.policyDigest(policy) then
          Some(PolicyDigestMismatch)
        else if !Allows(env.prims, arbiterKeys, a.payload.request, policy) then Some(PolicyViolated)
        else None
  }

  function CheckAction(a: Artifact): Option<AuthError> {
    var action, allowed := Lookup(a.payload.request, "action"), a.payload.decision.allowedActions;
    if allowed.None? || !action.Text? || action.s !in allowed.value then Some(ActionOutsidePolicy) else None
  }

  /** The second half of `_validate`, on the frame the log returned. */
  ghost function CheckEvidence(
    env: Env, policies: Option<map<string, Policy>>, arbiterKeys: map<string, PublicKey>,
    frame: Option<Frame<Event>>, a: Artifact): Option<AuthError>
  {
    if CheckFrame(frame, a).Some? then CheckFrame(frame, a)
    else if CheckMesh(env, frame.value, a).Some? then CheckMesh(env, frame.value, a)
    else if !a.payload.decision.allow then Some(DecisionNotAllowed)
    else if CheckPolicy(env, policies, arbiterKeys, a).Some? then CheckPolicy(env, policies, arbiterKeys, a)
    else CheckAction(a)
  }

  /** None when the artifact may be executed. */
  ghost function Validate(
    env: Env, issuerKeys: map<string, PublicKey>, now: int, used: set<string>, log: Log,
    policies: Option<map<string, Policy>>, arbiterKeys: map<string, PublicKey>, a: Artifact): Option<AuthError>
  {
    var credentials := CheckCredentials(env, issuerKeys, now, a.payload.nonce in used, a);
    if credentials.Some? then credentials
    else CheckEvidence(env, policies, arbiterKeys, FindFrame(log, a.payload.frameRef), a)
  }

  // ----- issuing is complete for execution -----

  ghost predicate PolicyDigestInjective(prims: Primitives) {
    forall p, q :: prims.policyDigest(p) == prims.policyDigest(q) ==> p == q
  }

  lemma IdsDiffer(nonce: string, digest: string)
    ensures AuthorizationId(nonce) != MeshFrameId(digest)
    ensures AuthorizationId(nonce) != ExecutionId(nonce)
  {
    assert AuthorizationId(nonce)[0] == 'a' && MeshFrameId(digest)[0] == 'm' && ExecutionId(nonce)[0] == 'e';
  }

  /** The authorization frame of a fresh nonce is the one a later look-up returns. */
  lemma IssuedFrameFound(
    hash: Hasher<Event>, log: Log, before: seq<(string, Event)>, nonce: string, e: Event, more: Log)
    requires |before| <= 1 && forall entry | entry in before :: exists d :: entry.0 == MeshFrameId(d)
    requires forall i | 0 <= i < |log| :: log[i].frameId != AuthorizationId(nonce)
    ensures var entries := before + [(AuthorizationId(nonce), e)];
            exists f: Frame<Event> ::
              && FindFrame(AppendAll(hash, log, entries) + more, AuthorizationId(nonce)) == Some(f)
              && f.event == e && f.frameHash == hash(f.frameId, f.previousHash, f.event)
  {
    var id := AuthorizationId(nonce);
    var start := AppendAll(hash, log, before);
    if before != [] {
      assert before[0] in before;
      var d :| before[0].0 == MeshFrameId(d);
      IdsDiffer(nonce, d);
      assert before == [before[0]];
    }
    AppendAllSteps(hash, log, before, (id, e));
    var f := NextFrame(hash, start, id, e);
    FirstWithId(start, f, more);
  }

  lemma {:induction false} FirstWithId(start: Log, f: Frame<Event>, more: Log)
    requires forall i | 0 <= i < |start| :: start[i].frameId != f.frameId
    ensures FindFrame(start + [f] + more, f.frameId) == Some(f)
  {
    FindFrameIsFirst(start, f.frameId);
    FindFrameStable(start, [f] + more, f.frameId);
    assert start + [f] + more == start + ([f] + more);
  }

  lemma EvidenceReadsBack(env: Env, attested: Mesh.Input -> bool, request: Dict, inputs: seq<Mesh.Input>)
    returns (back: seq<Mesh.Input>)
    requires inputs != [] && forall item | item in inputs :: Mesh.WellFormed(item)
    requires Preflighted(env, attested, request, inputs).Success?
    ensures Mesh.ToRecords(env.meshDigest, inputs) != []
    ensures Mesh.FromRecords(env.meshDigest, Mesh.ToRecords(env.meshDigest, inputs)) == Some(back)
    ensures Preflighted(env, Mesh.NoAttestation, request, back) == Preflighted(env, attested, request, inputs)
  {
    Mesh.EvidenceRoundTrip(env.meshDigest, inputs);
    back := Mesh.FromRecords(env.meshDigest, Mesh.ToRecords(env.meshDigest, inputs)).value;
    Mesh.SameViewsSameDecision(
      env.meshDigest, env.meshSeal, attested, inputs, back, env.prims.requestDigest(request), None);
  }

  /** The logged inputs, read back, re-derive the signed digest for this very request on an untampered frame. */
  ghost predicate Rederives(env: Env, frame: Frame<Event>, a: Artifact, d: Mesh.PreflightDecision)
    requires frame.event.Authorization?
  {
    var evidence := frame.event.mesh;
    && a.payload.decision.meshPreflightDigest == Some(d.digest) && evidence.digest == Some(d.digest)
    && d.digest != "" && d.body.allow
    && evidence.requestDigest == Some(env.prims.requestDigest(a.payload.request))
    && evidence.inputs.Some? && evidence.inputs.value != []
    && (var back := Mesh.FromRecords(env.meshDigest, evidence.inputs.value);
        back.Some? && Preflighted(env, Mesh.NoAttestation, a.payload.request, back.value) == Success(d))
    && frame.frameHash == env.hash(frame.frameId, frame.previousHash, frame.event)
  }

  /** Exactly which mesh evidence passes: none where none is signed, or what re-derives the signed digest. */
  lemma MeshEvidenceMeaning(env: Env, frame: Frame<Event>, a: Artifact)
    requires frame.event.Authorization?
    ensures CheckMesh(env, frame, a) == None <==>
      || (a.payload.decision.meshPreflightDigest.None? && frame.event.mesh == NO_EVIDENCE)
      || exists d :: Rederives(env, frame, a, d)
  {
    var signed, evidence := a.payload.decision.meshPreflightDigest, frame.event.mesh;
    if CheckMesh(env, frame, a) == None && signed.Some? {
      var back := Mesh.FromRecords(env.meshDigest, evidence.inputs.value).value;
      var preflight := Preflighted(env, Mesh.NoAttestation, a.payload.request, back);
      assert CheckReconstruction(env.hash, frame, signed.value, preflight) == None;
      assert Rederives(env, frame, a, preflight.value);
    }
    if exists d :: Rederives(env, frame, a, d) {
      var d :| Rederives(env, frame, a, d);
      assert CheckReconstruction(env.hash, frame, d.digest, Success(d)) == None;
    }
  }

  /** Mesh evidence logged at issue time re-derives the signed digest at execution. */
  lemma EvidenceReconstructs(
    env: Env, attested: Mesh.Input -> bool, request: Dict, inputs: seq<Mesh.Input>,
    d: Mesh.PreflightDecision, frame: Frame<Event>, a: Artifact)
    requires inputs != [] && forall item | item in inputs :: Mesh.WellFormed(item)
    requires Preflighted(env, attested, request, inputs) == Success(d) && d.body.allow && d.digest != ""
    requires frame.event.Authorization? && frame.event.mesh == EvidenceOf(env, request, d, inputs)
    requires frame.frameHash == env.hash(frame.frameId, frame.previousHash, frame.event)
    requires a.payload.request == request && a.payload.decision.meshPreflightDigest == Some(d.digest)
    ensures CheckMesh(env, frame, a) == None
  {
    var records := Mesh.ToRecords(env.meshDigest, inputs);
    var back := EvidenceReadsBack(env, attested, request, inputs);
    assert Rederives(env, frame, a, d);
    MeshEvidenceMeaning(env, frame, a);
  }

  lemma SealNotEmpty(env: Env, attested: Mesh.Input -> bool, request: Dict, inputs: seq<Mesh.Input>)
    requires forall u :: env.meshSeal(u) != ""
    requires Preflighted(env, attested, request, inputs).Success?
    ensures Preflighted(env, attested, request, inputs).value.digest != ""
  {}

  /** What an issued artifact and its log entries look like. */
  ghost predicate IssuedShape(
    env: Env, arbiterKeys: map<string, PublicKey>, attested: Mesh.Input -> bool,
    keyId: string, sign: Payload -> string, call: IssueCall, request: Dict, decided: Decision,
    before: seq<(string, Event)>, evidence: MeshEvidence, a: Artifact, e: Event)
  {
    && Decide(env.prims, arbiterKeys, request, call.policy) == Some(decided) && decided.allow
    && a.signature == sign(a.payload)
    && a.payload.request == request && a.payload.nonce == call.nonce
    && a.payload.frameRef == AuthorizationId(call.nonce)
    && a.payload.issuerKeyId == keyId && a.payload.expiresAt == call.now + call.ttl
    && e == Authorization(call.nonce, true, a.payload.decision, Some(a.payload), evidence)
    && (if call.meshInputs == [] then
          before == [] && evidence == NO_EVIDENCE && a.payload.decision == decided
        else
          var preflight := Preflighted(env, attested, request, call.meshInputs);
          && preflight.Success? && preflight.value.body.allow
          && before == [MeshFrame(preflight.value)]
          && evidence == EvidenceOf(env, request, preflight.value, call.meshInputs)
          && a.payload.decision == decided.(meshPreflightDigest := Some(preflight.value.digest)))
  }

  /** Conclude, seen from an issued result. */
  lemma ConcludeShape(
    keyId: string, sign: Payload -> string, call: IssueCall, request: Dict,
    decision: Decision, evidence: MeshEvidence, before: seq<(string, Event)>)
    returns (e: Event)
    requires Conclude(keyId, sign, call, request, decision, evidence, before).Issued?
    ensures var issued := Conclude(keyId, sign, call, request, decision, evidence, before);
            var a := issued.artifact;
      && decision.allow
      && issued.entries == before + [(AuthorizationId(call.nonce), e)]
      && a.signature == sign(a.payload)
      && a.payload == Payload(request, decision, call.now + call.ttl, call.nonce, AuthorizationId(call.nonce), keyId)
      && e == Authorization(call.nonce, true, decision, Some(a.payload), evidence)
  {
    e := Conclude(keyId, sign, call, request, decision, evidence, before).entries[|before|].1;
  }

  lemma AdmittedMeans(env: Env, arbiterKeys: map<string, PublicKey>, call: IssueCall)
    ensures var admitted := Admitted(env, arbiterKeys, call);
            admitted.Success? ==>
              Decide(env.prims, arbiterKeys, admitted.value.0, call.policy) == Some(admitted.value.1)
  {
    var effective := EffectiveRequest(call.request, call.approvals);
    if effective.Some? {
      DecidedMeans(env, call, effective.value, Decide(env.prims, arbiterKeys, effective.value, call.policy));
    }
  }

  lemma DecidedMeans(env: Env, call: IssueCall, request: Dict, decided: Option<Decision>)
    ensures var r := Decided(env, call, request, decided);
            r.Success? ==> r.value.0 == request && decided == Some(r.value.1)
  {}

  lemma IssuePlain(
    env: Env, arbiterKeys: map<string, PublicKey>, attested: Mesh.Input -> bool,
    keyId: string, sign: Payload -> string, call: IssueCall, request: Dict, decided: Decision)
    requires Admitted(env, arbiterKeys, call) == Success((request, decided)) && call.meshInputs == []
    ensures Issue(env, arbiterKeys, attested, keyId, sign, call) ==
            Conclude(keyId, sign, call, request, decided, NO_EVIDENCE, [])
  {}

  lemma IssueMesh(
    env: Env, arbiterKeys: map<string, PublicKey>, attested: Mesh.Input -> bool,
    keyId: string, sign: Payload -> string, call: IssueCall, request: Dict, decided: Decision)
    returns (d: Mesh.PreflightDecision)
    requires Admitted(env, arbiterKeys, call) == Success((request, decided)) && call.meshInputs != []
    requires Issue(env, arbiterKeys, attested, keyId, sign, call).Issued?
    ensures Preflighted(env, attested, request, call.meshInputs) == Success(d)
    ensures var evidence := EvidenceOf(env, request, d, call.meshInputs);
            Issue(env, arbiterKeys, attested, keyId, sign, call) ==
            Conclude(keyId, sign, call, request, WithMesh(decided, d), evidence, [MeshFrame(d)])
  {
    d := Preflighted(env, attested, request, call.meshInputs).value;
  }

  lemma PlainShape(
    env: Env, arbiterKeys: map<string, PublicKey>, attested: Mesh.Input -> bool,
    keyId: string, sign: Payload -> string, call: IssueCall, request: Dict, decided: Decision)
    returns (e: Event)
    requires call.meshInputs == [] && Decide(env.prims, arbiterKeys, request, call.policy) == Some(decided)
    requires Conclude(keyId, sign, call, request, decided, NO_EVIDENCE, []).Issued?
    ensures var issued := Conclude(keyId, sign, call, request, decided, NO_EVIDENCE, []);
            && issued.entries == [] + [(AuthorizationId(call.nonce), e)]
            && IssuedShape(env, arbiterKeys, attested, keyId, sign, call, request, decided, [], NO_EVIDENCE,
                           issued.artifact, e)
  {
    e := ConcludeShape(keyId, sign, call, request, decided, NO_EVIDENCE, []);
  }

  lemma MeshShape(
    env: Env, arbiterKeys: map<string, PublicKey>, attested: Mesh.Input -> bool, keyId: string,
    sign: Payload -> string, call: IssueCall, request: Dict, decided: Decision, d: Mesh.PreflightDecision)
    returns (e: Event)
    requires call.meshInputs != [] && Decide(env.prims, arbiterKeys, request, call.policy) == Some(decided)
    requires Preflighted(env, attested, request, call.meshInputs) == Success(d)
    requires var evidence := EvidenceOf(env, request, d, call.meshInputs);
             Conclude(keyId, sign, call, request, WithMesh(decided, d), evidence, [MeshFrame(d)]).Issued?
    ensures var evidence := EvidenceOf(env, request, d, call.meshInputs);
            var issued := Conclude(keyId, sign, call, request, WithMesh(decided, d), evidence, [MeshFrame(d)]);
            && issued.entries == [MeshFrame(d)] + [(AuthorizationId(call.nonce), e)]
            && IssuedShape(env, arbiterKeys, attested, keyId, sign, call, request, decided, [MeshFrame(d)], evidence,
                           issued.artifact, e)
  {
    var evidence := EvidenceOf(env, request, d, call.meshInputs);
    e := ConcludeShape(keyId, sign, call, request, WithMesh(decided, d), evidence, [MeshFrame(d)]);
  }

  lemma IssueShape(
    env: Env, arbiterKeys: map<string, PublicKey>, attested: Mesh.Input -> bool,
    keyId: string, sign: Payload -> string, call: IssueCall)
    returns (request: Dict, decided: Decision, before: seq<(string, Event)>, evidence: MeshEvidence, e: Event)
    requires Issue(env, arbiterKeys, attested, keyId, sign, call).Issued?
    ensures var issued := Issue(env, arbiterKeys, attested, keyId, sign, call);
            && issued.entries == before + [(AuthorizationId(call.nonce), e)]
            && IssuedShape(env, arbiterKeys, attested, keyId, sign, call, request, decided, before, evidence,
                           issued.artifact, e)
  {
    var admitted := Admitted(env, arbiterKeys, call);
    AdmittedMeans(env, arbiterKeys, call);
    request, decided := admitted.value.0, admitted.value.1;
    if call.meshInputs == [] {
      before, evidence := [], NO_EVIDENCE;
      IssuePlain(env, arbiterKeys, attested, keyId, sign, call, request, decided);
      e := PlainShape(env, arbiterKeys, attested, keyId, sign, call, request, decided);
    } else {
      var d := IssueMesh(env, arbiterKeys, attested, keyId, sign, call, request, decided);
      before, evidence := [MeshFrame(d)], EvidenceOf(env, request, d, call.meshInputs);
      e := MeshShape(env, arbiterKeys, attested, keyId, sign, call, request, decided, d);
    }
  }

  lemma ShapeValidates(
    env: Env, arbiterKeys: map<string, PublicKey>, attested: Mesh.Input -> bool,
    keyId: string, sign: Payload -> string, call: IssueCall, request: Dict, decided: Decision,
    before: seq<(string, Event)>, evidence: MeshEvidence, a: Artifact, f: Frame<Event>,
    policies: Option<map<string, Policy>>)
    requires IssuedShape(env, arbiterKeys, attested, keyId, sign, call, request, decided, before, evidence, a, f.event)
    requires f.frameHash == env.hash(f.frameId, f.previousHash, f.event)
    requires PolicyDigestInjective(env.prims) && forall u :: env.meshSeal(u) != ""
    requires forall item | item in call.meshInputs :: Mesh.WellFormed(item)
    requires policies.Some? ==>
      && call.policy.policyId in policies.value
      && env.prims.policyDigest(policies.value[call.policy.policyId]) == env.prims.policyDigest(call.policy)
    ensures CheckEvidence(env, policies, arbiterKeys, Some(f), a) == None
  {
    if call.meshInputs != [] {
      SealNotEmpty(env, attested, request, call.meshInputs);
      var d := Preflighted(env, attested, request, call.meshInputs).value;
      EvidenceReconstructs(env, attested, request, call.meshInputs, d, f, a);
    }
    AllowedMeaning(env.prims, arbiterKeys, request, call.policy);
  }

  /**
   * The artifact of this call is issued and may be executed: it has not expired,
   * the issuer key is trusted, the registered policy still has the digest it was
   * issued under, and digests are collision free and not empty.
   */
  ghost predicate Executable(
    env: Env, arbiterKeys: map<string, PublicKey>, attested: Mesh.Input -> bool,
    keyId: string, sign: Payload -> string, call: IssueCall,
    issuerKeys: map<string, PublicKey>, now: int, policies: Option<map<string, Policy>>)
  {
    && Issue(env, arbiterKeys, attested, keyId, sign, call).Issued?
    && PolicyDigestInjective(env.prims) && (forall u :: env.meshSeal(u) != "")
    && (forall item | item in call.meshInputs :: Mesh.WellFormed(item))
    && now < call.now + call.ttl
    && keyId in issuerKeys && (forall p :: env.verify(issuerKeys[keyId], p, sign(p)))
    && (policies.Some? ==>
          && call.policy.policyId in policies.value
          && env.prims.policyDigest(policies.value[call.policy.policyId]) == env.prims.policyDigest(call.policy))
  }

  /**
   * Issue, then execute: an artifact returned by `authorize` under a fresh nonce
   * passes every check of the boundary on any later log, as long as it is
   * executable, its nonce is unclaimed and both arbiters resolve the same
   * approver keys.
   */
  lemma {:induction false} IssuedArtifactsValidate(
    env: Env, arbiterKeys: map<string, PublicKey>, attested: Mesh.Input -> bool,
    keyId: string, sign: Payload -> string, call: IssueCall,
    issuerKeys: map<string, PublicKey>, now: int, used: set<string>, log: Log, more: Log,
    policies: Option<map<string, Policy>>)
    requires Executable(env, arbiterKeys, attested, keyId, sign, call, issuerKeys, now, policies)
    requires forall i | 0 <= i < |log| :: log[i].frameId != AuthorizationId(call.nonce)
    requires call.nonce !in used
    ensures var issued := Issue(env, arbiterKeys, attested, keyId, sign, call);
            Validate(env, issuerKeys, now, used, AppendAll(env.hash, log, issued.entries) + more,
                     policies, arbiterKeys, issued.artifact) == None
  {
    var request, decided, before, evidence, e := IssueShape(env, arbiterKeys, attested, keyId, sign, call);
    var issued := Issue(env, arbiterKeys, attested, keyId, sign, call);
    BeforeIsMesh(env, arbiterKeys, attested, keyId, sign, call, request, decided, before, evidence, issued.artifact, e);
    IssuedFrameFound(env.hash, log, before, call.nonce, e, more);
    var f: Frame<Event> :|
      && FindFrame(AppendAll(env.hash, log, issued.entries) + more, AuthorizationId(call.nonce)) == Some(f)
      && f.event == e && f.frameHash == env.hash(f.frameId, f.previousHash, f.event);
    ShapeValidates(
      env, arbiterKeys, attested, keyId, sign, call, request, decided, before, evidence, issued.artifact, f, policies);
    ShapeCredentials(
      env, arbiterKeys, attested, keyId, sign, call, request, decided, before, evidence, issued.artifact, e,
      issuerKeys, now, used);
  }

  lemma BeforeIsMesh(
    env: Env, arbiterKeys: map<string, PublicKey>, attested: Mesh.Input -> bool,
    keyId: string, sign: Payload -> string, call: IssueCall, request: Dict, decided: Decision,
    before: seq<(string, Event)>, evidence: MeshEvidence, a: Artifact, e: Event)
    requires IssuedShape(env, arbiterKeys, attested, keyId, sign, call, request, decided, before, evidence, a, e)
    ensures |before| <= 1 && forall entry | entry in before :: exists d :: entry.0 == MeshFrameId(d)
  {}

  lemma ShapeCredentials(
    env: Env, arbiterKeys: map<string, PublicKey>, attested: Mesh.Input -> bool,
    keyId: string, sign: Payload -> string, call: IssueCall, request: Dict, decided: Decision,
    before: seq<(string, Event)>, evidence: MeshEvidence, a: Artifact, e: Event,
    issuerKeys: map<string, PublicKey>, now: int, used: set<string>)
    requires IssuedShape(env, arbiterKeys, attested, keyId, sign, call, request, decided, before, evidence, a, e)
    requires now < call.now + call.ttl && call.nonce !in used
    requires keyId in issuerKeys && forall p :: env.verify(issuerKeys[keyId], p, sign(p))
    ensures CheckCredentials(env, issuerKeys, now, a.payload.nonce in used, a) == None
    ensures a.payload.frameRef == AuthorizationId(call.nonce)
  {}

  // ----- the two objects -----

  function Entries(r: Issuance): seq<(string, Event)> {
    if r.Rejected? then [] else r.entries
  }

  lemma AppendAllSteps(hash: Hasher<Event>, log: Log, before: seq<(string, Event)>, last: (string, Event))
    requires |before| <= 1
    ensures AppendAll(hash, log, before + [last]) ==
            (var start := AppendAll(hash, log, before); start + [NextFrame(hash, start, last.0, last.1)])
  {
    if before == [] {
      assert before + [last] == [last];
    } else {
      var start := log + [NextFrame(hash, log, before[0].0, before[0].1)];
      assert before + [last] == [before[0], last] && before == [before[0]];
      assert AppendAll(hash, start, [last]) == start + [NextFrame(hash, start, last.0, last.1)];
    }
  }

  /** A compensation is authorized like any request, without approvals or mesh inputs of its own. */
  function CompensationCall(failedNonce: string, call: IssueCall): IssueCall {
    call.(request := call.request["compensation_for" := Text(failedNonce)], approvals := None, meshInputs := [])
  }

  lemma AuditGrows(log: Log, f: Frame<Event>, nonce: string)
    ensures FailureAudited(log + [f], nonce) <==> FailureAudited(log, nonce) || FailedExecutionOf(f.event, nonce)
  {
    var longer := log + [f];
    if FailureAudited(log, nonce) {
      var i :| 0 <= i < |log| && FailedExecutionOf(log[i].event, nonce);
      assert FailedExecutionOf(longer[i].event, nonce);
    }
    if FailedExecutionOf(f.event, nonce) {
      assert FailedExecutionOf(longer[|log|].event, nonce);
    }
  }

  method AnyFailedExecution(log: Log, nonce: string) returns (failed: bool)
    ensures failed <==> FailureAudited(log, nonce)
  {
    failed := false;
    for i := 0 to |log|
      invariant failed <==> FailureAudited(log[..i], nonce)
    {
      assert log[..i + 1] == log[..i] + [log[i]];
      AuditGrows(log[..i], log[i], nonce);
      failed := failed || FailedExecutionOf(log[i].event, nonce);
    }
    assert log[..|log|] == log;
  }

  /** `AuthorizationIssuer`: arbitrate, log, sign. */
  class AuthorizationIssuer {
    const env: Env
    const log: ReplayLog<Event>
    const arbiterKeys: map<string, PublicKey>
    const keyId: string
    const sign: Payload -> string

    constructor (
      env: Env, log: ReplayLog<Event>, arbiterKeys: map<string, PublicKey>, keyId: string, sign: Payload -> string)
      ensures this.env == env && this.log == log && this.arbiterKeys == arbiterKeys
      ensures this.keyId == keyId && this.sign == sign
    {
      this.env, this.log, this.arbiterKeys, this.keyId, this.sign := env, log, arbiterKeys, keyId, sign;
    }

    method Admit(call: IssueCall) returns (r: Result<(Dict, Decision), IssueError>)
      ensures r == Admitted(env, arbiterKeys, call)
    {
      if call.ttl <= 0 {
        return Failure(TtlNotPositive);
      }
      if call.ttl > call.policy.maxTtlSeconds {
        return Failure(TtlAboveMaximum);
      }
      var effective := EffectiveRequest(call.request, call.approvals);
      if effective.None? {
        return Failure(ApprovalsNotAList);
      }
      var request := effective.value;
      var decided := RunDecide(env.prims, arbiterKeys, request, call.policy);
      if decided.None? {
        return Failure(ActionNotHashable);
      }
      if !MeshRequirementsMet(env.prims, request, call.policy, call.meshInputs) {
        return Failure(MeshRequirementUnmet);
      }
      return Success((request, decided.value));
    }

    method Authorize(attested: Mesh.Input -> bool, call: IssueCall) returns (r: Issuance)
      requires log.Valid() && log.hash == env.hash && Mesh.Injective(env.meshDigest)
      modifies log
      ensures log.Valid() && log.usedNonces == old(log.usedNonces)
      ensures r == Issue(env, arbiterKeys, attested, keyId, sign, call)
      ensures log.frames == AppendAll(env.hash, old(log.frames), Entries(r))
    {
      var admitted := Admit(call);
      if admitted.Failure? {
        return Rejected(admitted.error);
      }
      var (request, decision) := admitted.value;
      var evidence, before := NO_EVIDENCE, [];
      if call.meshInputs != [] {
        var requestDigest := env.prims.requestDigest(request);
        var preflight := Mesh.Preflight(env.meshDigest, env.meshSeal, attested, call.meshInputs, requestDigest, None);
        if preflight.Failure? {
          return Rejected(MeshInputsInvalid);
        }
        before := [MeshFrame(preflight.value)];
        decision := WithMesh(decision, preflight.value);
        evidence := EvidenceOf(env, request, preflight.value, call.meshInputs);
        var _ := log.Append(before[0].0, before[0].1);
      }
      r := Finish(call, request, decision, evidence, before, old(log.frames));
    }

    /** Log the authorization frame and sign the artifact, or log the denial. */
    method Finish(
      call: IssueCall, request: Dict, decision: Decision, evidence: MeshEvidence,
      before: seq<(string, Event)>, ghost start: Log)
      returns (r: Issuance)
      requires log.Valid() && log.hash == env.hash
      requires |before| <= 1 && log.frames == AppendAll(env.hash, start, before)
      modifies log
      ensures log.Valid() && log.usedNonces == old(log.usedNonces)
      ensures r == Conclude(keyId, sign, call, request, decision, evidence, before)
      ensures !r.Rejected? && log.frames == AppendAll(env.hash, start, r.entries)
    {
      r := Conclude(keyId, sign, call, request, decision, evidence, before);
      var last := r.entries[|before|];
      assert r.entries == before + [last];
      AppendAllSteps(env.hash, start, before, last);
      var _ := log.Append(last.0, last.1);
    }

    /** None unless the log shows a failed execution of the nonce; then the request names what it compensates. */
    method AuthorizeCompensation(attested: Mesh.Input -> bool, failedNonce: string, call: IssueCall)
      returns (r: Option<Issuance>)
      requires log.Valid() && log.hash == env.hash && Mesh.Injective(env.meshDigest)
      modifies log
      ensures log.Valid() && log.usedNonces == old(log.usedNonces)
      ensures r.Some? <==> failedNonce != "" && FailureAudited(old(log.frames), failedNonce)
      ensures r.Some? ==>
        r.value == Issue(env, arbiterKeys, attested, keyId, sign, CompensationCall(failedNonce, call))
      ensures log.frames ==
        if r.Some? then AppendAll(env.hash, old(log.frames), Entries(r.value)) else old(log.frames)
    {
      if failedNonce == "" {
        return None;
      }
      var failed := AnyFailedExecution(log.frames, failedNonce);
      if !failed {
        return None;
      }
      var issuance := Authorize(attested, CompensationCall(failedNonce, call));
      return Some(issuance);
    }
  }

  /** The log records that the nonce was run and failed. */
  ghost predicate FailureAudited(log: Log, nonce: string) {
    exists i | 0 <= i < |log| :: FailedExecutionOf(log[i].event, nonce)
  }

  predicate FailedExecutionOf(e: Event, nonce: string) {
    e.Execution? && e.nonce == nonce && e.outcome.Failed?
  }

  /** `ExecutionBoundary`: re-check, claim, run, record. */
  class ExecutionBoundary {
    const env: Env
    const log: ReplayLog<Event>
    const arbiterKeys: map<string, PublicKey>
    var issuerKeys: map<string, PublicKey>
    var policies: Option<map<string, Policy>>
    /** every artifact whose action was run, in order */
    ghost var invoked: seq<Artifact>

    constructor (
      env: Env, log: ReplayLog<Event>, arbiterKeys: map<string, PublicKey>,
      issuerKeys: map<string, PublicKey>, policies: Option<map<string, Policy>>)
      ensures this.env == env && this.log == log && this.arbiterKeys == arbiterKeys
      ensures this.issuerKeys == issuerKeys && this.policies == policies && invoked == []
    {
      this.env, this.log, this.arbiterKeys := env, log, arbiterKeys;
      this.issuerKeys, this.policies, invoked := issuerKeys, policies, [];
    }

    method ValidateMeshEvidence(frame: Frame<Event>, a: Artifact) returns (r: Option<AuthError>)
      requires frame.event.Authorization? && Mesh.Injective(env.meshDigest)
      ensures r == CheckMesh(env, frame, a)
    {
      var evidence, signed := frame.event.mesh, a.payload.decision.meshPreflightDigest;
      if signed.None? {
        return if evidence == NO_EVIDENCE then None else Some(MeshEvidenceUnsigned);
      }
      if signed.value == "" {
        return Some(MeshDigestMalformed);
      }
      if evidence.digest.None? || evidence.requestDigest.None? || evidence.inputs.None? {
        return Some(MeshEvidenceIncomplete);
      }
      if evidence.digest != signed {
        return Some(MeshDigestMismatch);
      }
      var requestDigest := env.prims.requestDigest(a.payload.request);
      if evidence.requestDigest.value != requestDigest {
        return Some(MeshRequestMismatch);
      }
      var inputs := Mesh.FromRecords(env.meshDigest, evidence.inputs.value);
      if evidence.inputs.value == [] || inputs.None? {
        return Some(MeshInputsMalformed);
      }
      var preflight :=
        Mesh.Preflight(env.meshDigest, env.meshSeal, Mesh.NoAttestation, inputs.value, requestDigest, None);
      if preflight.Failure? {
        return Some(MeshInputsMalformed);
      }
      if !preflight.value.body.allow || preflight.value.digest != signed.value {
        return Some(MeshNotReconstructed);
      }
      var expected := CreateFrame(env.hash, frame.frameId, frame.previousHash, frame.event);
      if expected.frameHash != frame.frameHash {
        return Some(MeshFrameTampered);
      }
      return None;
    }

    method ValidatePolicy(a: Artifact) returns (r: Option<AuthError>)
      ensures r == CheckPolicy(env, policies, arbiterKeys, a)
    {
      if policies.None? {
        return None;
      }
      var decision := a.payload.decision;
      if decision.policy.None? || decision.policy.value !in policies.value {
        return Some(PolicyNotRegistered);
      }
      var policy := policies.value[decision.policy.value];
      if decision.policyDigest.Some? && decision.policyDigest.value != env.prims.policyDigest(policy) {
        return Some(PolicyDigestMismatch);
      }
      var again := RunDecide(env.prims, arbiterKeys, a.payload.request, policy);
      return if again.Some? && again.value.allow then None else Some(PolicyViolated);
    }

    method ValidateArtifact(now: int, a: Artifact) returns (r: Option<AuthError>)
      requires Mesh.Injective(env.meshDigest)
      ensures r == Validate(env, issuerKeys, now, log.usedNonces, log.frames, policies, arbiterKeys, a)
    {
      r := CheckCredentials(env, issuerKeys, now, a.payload.nonce in log.usedNonces, a);
      if r.Some? {
        return;
      }
      var frame := log.Get(a.payload.frameRef);
      r := CheckFrame(frame, a);
      if r.Some? {
        return;
      }
      r := ValidateMeshEvidence(frame.value, a);
      if r.Some? {
        return;
      }
      if !a.payload.decision.allow {
        return Some(DecisionNotAllowed);
      }
      r := ValidatePolicy(a);
      if r.None? {
        r := CheckAction(a);
      }
    }

    /**
     * Run the action once the artifact is valid and its nonce claimed. A raised
     * exception is an outcome like any other: the nonce is spent and the frame written.
     */
    method Execute(now: int, a: Artifact, action: Dict -> Outcome) returns (r: Result<Outcome, AuthError>)
      requires log.Valid() && log.hash == env.hash && Mesh.Injective(env.meshDigest)
      modifies this`invoked, log
      ensures log.Valid()
      ensures r.Failure? <==>
        old(Validate(env, issuerKeys, now, log.usedNonces, log.frames, policies, arbiterKeys, a)).Some?
      ensures r.Failure? ==>
        && Some(r.error) == old(Validate(env, issuerKeys, now, log.usedNonces, log.frames, policies, arbiterKeys, a))
        && log.frames == old(log.frames) && log.usedNonces == old(log.usedNonces) && invoked == old(invoked)
      ensures r.Success? ==>
        && r.value == action(a.payload.request)
        && a.payload.nonce !in old(log.usedNonces) && log.usedNonces == old(log.usedNonces) + {a.payload.nonce}
        && log.frames == old(log.frames) +
             [NextFrame(env.hash, old(log.frames), ExecutionId(a.payload.nonce), ExecutionEvent(a, r.value))]
        && invoked == old(invoked) + [a]
    {
      var refused := ValidateArtifact(now, a);
      if refused.Some? {
        return Failure(refused.value);
      }
      var claimed := log.ClaimNonce(a.payload.nonce);
      if !claimed {
        return Failure(NonceUsed);
      }
      var outcome := action(a.payload.request);
      invoked := invoked + [a];
      var _ := log.Append(ExecutionId(a.payload.nonce), ExecutionEvent(a, outcome));
      return Success(outcome);
    }
  }
}
