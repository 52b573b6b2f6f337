/**
 * `PolicyChangeManager`: proposals, approvals and activation by quorum, while
 * keys are trusted and revoked and others register policies.
 */
module Quorum {
  import opened Wrappers
  import opened Arbitration
  import opened Registries
  import opened Trust
  import Sorting
  import StringOrder

  /** What an approver signs. */
  datatype ApprovalBody = ApprovalBody(proposalId: string, policyId: string, policyDigest: string, approver: string)

  datatype Approval = Approval(body: ApprovalBody, signature: string)

  datatype ProposalBody = ProposalBody(
    id: string, policyId: string, currentDigest: string, policy: Policy, proposer: string, rationale: string)

  datatype Proposal = Proposal(body: ProposalBody, signature: string, activated: bool, approvals: seq<Approval>)

  datatype Config = Config(
    digest: PolicyDigest,
    required: int,
    separateDuties: bool,
    verifyProposal: (PublicKey, ProposalBody, string) -> bool,
    verifyApproval: (PublicKey, ApprovalBody, string) -> bool)

  /** An approval as it was accepted, with the trust store of that moment. */
  datatype Accepted = Accepted(approval: Approval, trust: TrustState)

  datatype Activation = Activation(id: string, policy: Policy)

  datatype State = State(
    trust: TrustState,
    registry: RegistryState,
    proposals: map<string, Proposal>,
    accepted: seq<Accepted>,
    activations: seq<Activation>)

  datatype Error =
    | UnknownProposal
    | NotPending
    | ProposalExists
    | ProposerUntrusted
    | ProposalSignatureInvalid
    | ProposerMayNotApprove
    | AlreadyApproved
    | ApproverUntrusted
    | ApprovalSignatureInvalid
    | QuorumNotMet
    | PolicyConflict

  /** `SetTrust` and `RegisterElsewhere` are what the rest of the system does meanwhile. */
  datatype Op =
    | Propose(policy: Policy, proposer: string, rationale: string, id: string, signature: string)
    | Approve(id: string, approver: string, signature: string)
    | ApproveSigned(id: string, approver: string, signature: string)
    | Activate(id: string)
    | SetTrust(trust: TrustState)
    | RegisterElsewhere(policy: Policy)

  function CurrentDigest(c: Config, r: RegistryState, policyId: string): string {
    if policyId in r.policies then c.digest(r.policies[policyId]) else ""
  }

  function ProposalId(c: Config, r: RegistryState, policy: Policy, id: string): string {
    var current := CurrentDigest(c, r, policy.policyId);
    if id != "" then id
    else "policy-proposal:" + policy.policyId + ":" + (if current != "" then current else "new")
  }

  function BodyOf(c: Config, r: RegistryState, policy: Policy, proposer: string, rationale: string, id: string)
    : ProposalBody
  {
    ProposalBody(ProposalId(c, r, policy, id), policy.policyId, CurrentDigest(c, r, policy.policyId), policy,
                 proposer, rationale)
  }

  predicate ProposalVerifies(c: Config, t: TrustState, body: ProposalBody, signature: string) {
    var key := Resolve(t, body.proposer);
    key.Some? && c.verifyProposal(key.value, body, signature)
  }

  function ApprovalFor(c: Config, p: Proposal, approver: string, signature: string): Approval {
    Approval(ApprovalBody(p.body.id, p.body.policyId, c.digest(p.body.policy), approver), signature)
  }

  predicate ApprovalVerifies(c: Config, t: TrustState, a: Approval) {
    var key := Resolve(t, a.body.approver);
    key.Some? && c.verifyApproval(key.value, a.body, a.signature)
  }

  function ApproverKeys(p: Proposal): set<string> {
    set a | a in p.approvals :: a.body.approver
  }

  predicate ByApprover(a: Approval, b: Approval) {
    StringOrder.Le(a.body.approver, b.body.approver)
  }

  function WithApproval(p: Proposal, a: Approval): Proposal {
    p.(approvals := Sorting.Sort(ByApprover, p.approvals + [a]))
  }

  function ApprovalError(c: Config, s: State, id: string, approver: string, signature: string, refuseRepeat: bool)
    : Option<Error>
  {
    if id !in s.proposals then Some(UnknownProposal)
    else
      var p := s.proposals[id];
      if p.activated then Some(NotPending)
      else if c.separateDuties && approver == p.body.proposer then Some(ProposerMayNotApprove)
      else if refuseRepeat && approver in ApproverKeys(p) then Some(AlreadyApproved)
      else if Resolve(s.trust, approver).None? then Some(ApproverUntrusted)
      else if !ApprovalVerifies(c, s.trust, ApprovalFor(c, p, approver, signature)) then Some(ApprovalSignatureInvalid)
      else None
  }

  function ErrorOf(c: Config, s: State, op: Op): Option<Error> {
    match op
    case Propose(policy, proposer, rationale, id, signature) =>
      var body := BodyOf(c, s.registry, policy, proposer, rationale, id);
      if Resolve(s.trust, proposer).None? then Some(ProposerUntrusted)
      else if !ProposalVerifies(c, s.trust, body, signature) then Some(ProposalSignatureInvalid)
      else if body.id in s.proposals then Some(ProposalExists)
      else None
    case Approve(id, approver, signature) => ApprovalError(c, s, id, approver, signature, false)
    case ApproveSigned(id, approver, signature) => ApprovalError(c, s, id, approver, signature, true)
    case Activate(id) =>
      if id !in s.proposals then Some(UnknownProposal)
      else
        var p := s.proposals[id];
        if p.activated then Some(NotPending)
        else if !ProposalVerifies(c, s.trust, p.body, p.signature) then Some(ProposalSignatureInvalid)
        else if |ApproverKeys(p)| < c.required then Some(QuorumNotMet)
        else if !CanRegister(c.digest, s.registry, p.body.policy) then Some(PolicyConflict)
        else None
    case SetTrust(_) => None
    case RegisterElsewhere(policy) => if CanRegister(c.digest, s.registry, policy) then None else Some(PolicyConflict)
  }

  function Approved(c: Config, s: State, id: string, approver: string, signature: string): State
    requires id in s.proposals
  {
    var a := ApprovalFor(c, s.proposals[id], approver, signature);
    s.(proposals := s.proposals[id := WithApproval(s.proposals[id], a)], accepted := s.accepted + [Accepted(a, s.trust)])
  }

  /** One call; a call that raises changes nothing. */
  function Apply(c: Config, s: State, op: Op): State {
    if ErrorOf(c, s, op).Some? then s
    else
      match op
      case Propose(policy, proposer, rationale, id, signature) =>
        var body := BodyOf(c, s.registry, policy, proposer, rationale, id);
        s.(proposals := s.proposals[body.id := Proposal(body, signature, false, [])])
      case Approve(id, approver, signature) => Approved(c, s, id, approver, signature)
      case ApproveSigned(id, approver, signature) => Approved(c, s, id, approver, signature)
      case Activate(id) =>
        var p := s.proposals[id];
        s.(proposals := s.proposals[id := p.(activated := true)],
           registry := WithPolicy(s.registry, p.body.policy),
           activations := s.activations + [Activation(id, p.body.policy)])
      case SetTrust(t) => s.(trust := t)
      case RegisterElsewhere(policy) => s.(registry := WithPolicy(s.registry, policy))
  }

  function Run(c: Config, s: State, ops: seq<Op>): State
    decreases |ops|
  {
    if ops == [] then s else Run(c, Apply(c, s, ops[0]), ops[1..])
  }

  const INITIAL := State(TrustState(map[], {}), EMPTY, map[], [], [])

  // ----- what every call keeps -----

  /** The approval was accepted for this very proposal and policy, by a key trusted and verifying at that time. */
  ghost predicate Genuine(c: Config, accepted: seq<Accepted>, body: ProposalBody, a: Approval) {
    && a.body == ApprovalBody(body.id, body.policyId, c.digest(body.policy), a.body.approver)
    && (c.separateDuties ==> a.body.approver != body.proposer)
    && exists k :: 0 <= k < |accepted| && accepted[k].approval == a && ApprovalVerifies(c, accepted[k].trust, a)
  }

  ghost predicate ProposalOk(c: Config, accepted: seq<Accepted>, id: string, p: Proposal) {
    && p.body.id == id && p.body.policyId == p.body.policy.policyId
    && forall a | a in p.approvals :: Genuine(c, accepted, p.body, a)
  }

  ghost predicate ActivationOk(c: Config, s: State, act: Activation) {
    && act.id in s.proposals && s.proposals[act.id].activated
    && s.proposals[act.id].body.policy == act.policy
    && |ApproverKeys(s.proposals[act.id])| >= c.required
    && act.policy.policyId in s.registry.policies
    && c.digest(s.registry.policies[act.policy.policyId]) == c.digest(act.policy)
  }

  ghost predicate Inv(c: Config, s: State) {
    && (forall id | id in s.proposals :: ProposalOk(c, s.accepted, id, s.proposals[id]))
    && (forall k | 0 <= k < |s.activations| :: ActivationOk(c, s, s.activations[k]))
    && (forall k, l | 0 <= k < l < |s.activations| :: s.activations[k].id != s.activations[l].id)
  }

  lemma GenuineStays(c: Config, accepted: seq<Accepted>, more: seq<Accepted>, body: ProposalBody, a: Approval)
    requires Genuine(c, accepted, body, a)
    ensures Genuine(c, accepted + more, body, a)
  {
    var k :| 0 <= k < |accepted| && accepted[k].approval == a && ApprovalVerifies(c, accepted[k].trust, a);
    assert (accepted + more)[k] == accepted[k];
  }

  lemma ProposalStaysOk(c: Config, accepted: seq<Accepted>, more: seq<Accepted>, id: string, p: Proposal)
    requires ProposalOk(c, accepted, id, p)
    ensures ProposalOk(c, accepted + more, id, p)
  {
    forall a | a in p.approvals ensures Genuine(c, accepted + more, p.body, a) {
      GenuineStays(c, accepted, more, p.body, a);
    }
  }

  lemma ApprovedKeepsProposal(
    c: Config, accepted: seq<Accepted>, trust: TrustState, id: string, p: Proposal, approver: string, signature: string)
    requires ProposalOk(c, accepted, id, p)
    requires c.separateDuties ==> approver != p.body.proposer
    requires ApprovalVerifies(c, trust, ApprovalFor(c, p, approver, signature))
    ensures var a := ApprovalFor(c, p, approver, signature);
            ProposalOk(c, accepted + [Accepted(a, trust)], id, WithApproval(p, a))
  {
    var a := ApprovalFor(c, p, approver, signature);
    var longer := accepted + [Accepted(a, trust)];
    Sorting.SortPermutes(ByApprover, p.approvals + [a]);
    forall b | b in WithApproval(p, a).approvals ensures Genuine(c, longer, p.body, b) {
      assert b in p.approvals + [a];
      if b in p.approvals {
        GenuineStays(c, accepted, [Accepted(a, trust)], p.body, b);
      } else {
        assert longer[|accepted|].approval == b;
      }
    }
  }

  lemma ApprovingKeepsInv(c: Config, s: State, id: string, approver: string, signature: string, refuseRepeat: bool)
    requires Inv(c, s) && ApprovalError(c, s, id, approver, signature, refuseRepeat).None?
    ensures Inv(c, Approved(c, s, id, approver, signature))
  {
    var s' := Approved(c, s, id, approver, signature);
    var more := s'.accepted[|s.accepted|..];
    assert s'.accepted == s.accepted + more;
    forall other | other in s'.proposals ensures ProposalOk(c, s'.accepted, other, s'.proposals[other]) {
      if other == id {
        ApprovedKeepsProposal(c, s.accepted, s.trust, id, s.proposals[id], approver, signature);
      } else {
        ProposalStaysOk(c, s.accepted, more, other, s.proposals[other]);
      }
    }
    forall k | 0 <= k < |s'.activations| ensures ActivationOk(c, s', s'.activations[k]) {
      assert ActivationOk(c, s, s.activations[k]);
    }
  }

  lemma ActivatedStays(c: Config, s: State, id: string, act: Activation)
    requires ErrorOf(c, s, Activate(id)).None? && ActivationOk(c, s, act)
    ensures ActivationOk(c, Apply(c, s, Activate(id)), act) && act.id != id
  {}

  lemma ActivatingKeepsInv(c: Config, s: State, id: string)
    requires Inv(c, s) && ErrorOf(c, s, Activate(id)).None?
    ensures Inv(c, Apply(c, s, Activate(id)))
  {
    var s' := Apply(c, s, Activate(id));
    assert ProposalOk(c, s.accepted, id, s.proposals[id]);
    forall other | other in s'.proposals ensures ProposalOk(c, s'.accepted, other, s'.proposals[other]) {
      assert ProposalOk(c, s.accepted, other, s.proposals[other]);
    }
    forall k | 0 <= k < |s.activations| ensures ActivationOk(c, s', s.activations[k]) && s.activations[k].id != id {
      ActivatedStays(c, s, id, s.activations[k]);
    }
    assert ActivationOk(c, s', Activation(id, s.proposals[id].body.policy));
  }

  lemma OthersKeepInv(c: Config, s: State, op: Op)
    requires Inv(c, s) && ErrorOf(c, s, op).None? && (op.Propose? || op.SetTrust? || op.RegisterElsewhere?)
    ensures Inv(c, Apply(c, s, op))
  {
    var s' := Apply(c, s, op);
    forall id | id in s'.proposals ensures ProposalOk(c, s'.accepted, id, s'.proposals[id]) {
      if id in s.proposals {
        assert ProposalOk(c, s.accepted, id, s.proposals[id]);
      }
    }
    forall k | 0 <= k < |s'.activations| ensures ActivationOk(c, s', s'.activations[k]) {
      assert ActivationOk(c, s, s.activations[k]);
    }
  }

  lemma ApplyKeepsInv(c: Config, s: State, op: Op)
    requires Inv(c, s)
    ensures Inv(c, Apply(c, s, op))
  {
    if ErrorOf(c, s, op).None? {
      match op
      case Approve(id, approver, signature) => ApprovingKeepsInv(c, s, id, approver, signature, false);
      case ApproveSigned(id, approver, signature) => ApprovingKeepsInv(c, s, id, approver, signature, true);
      case Activate(id) => ActivatingKeepsInv(c, s, id);
      case _ => OthersKeepInv(c, s, op);
    }
  }

  lemma {:induction false} RunKeepsInv(c: Config, s: State, ops: seq<Op>)
    requires Inv(c, s)
    ensures Inv(c, Run(c, s, ops))
    decreases |ops|
  {
    if ops != [] {
      ApplyKeepsInv(c, s, ops[0]);
      RunKeepsInv(c, Apply(c, s, ops[0]), ops[1..]);
    }
  }

  /** Some key, trusted when it approved, signed this proposal of exactly this policy. */
  ghost predicate SignedBy(c: Config, accepted: seq<Accepted>, act: Activation, approver: string) {
    exists k :: 0 <= k < |accepted|
      && accepted[k].approval.body == ApprovalBody(act.id, act.policy.policyId, c.digest(act.policy), approver)
      && ApprovalVerifies(c, accepted[k].trust, accepted[k].approval)
  }

  /** At least `required` different keys signed, none of them the proposer's when duties are separate. */
  ghost predicate QuorumBehind(c: Config, s: State, act: Activation, signers: set<string>) {
    && act.id in s.proposals
    && |signers| >= c.required
    && (forall approver | approver in signers :: SignedBy(c, s.accepted, act, approver))
    && (c.separateDuties ==> s.proposals[act.id].body.proposer !in signers)
  }

  /**
   * Quorum over all runs, however `approve` and `approve_signed` are mixed: an
   * activation has a quorum of distinct genuine signers over exactly the policy
   * that got registered, the registry still holds that policy's digest, and no
   * proposal is activated twice.
   */
  lemma QuorumSafety(c: Config, ops: seq<Op>)
    ensures var s := Run(c, INITIAL, ops);
      && (forall k | 0 <= k < |s.activations| ::
            && (exists signers :: QuorumBehind(c, s, s.activations[k], signers))
            && var policy := s.activations[k].policy;
            && policy.policyId in s.registry.policies
            && c.digest(s.registry.policies[policy.policyId]) == c.digest(policy))
      && (forall k, l | 0 <= k < l < |s.activations| :: s.activations[k].id != s.activations[l].id)
  {
    RunKeepsInv(c, INITIAL, ops);
    var s := Run(c, INITIAL, ops);
    forall k | 0 <= k < |s.activations|
      ensures exists signers :: QuorumBehind(c, s, s.activations[k], signers)
      ensures ActivationOk(c, s, s.activations[k])
    {
      var act := s.activations[k];
      assert ActivationOk(c, s, act);
      ApproversSigned(c, s, act);
      assert QuorumBehind(c, s, act, ApproverKeys(s.proposals[act.id]));
    }
  }

  lemma ApproversSigned(c: Config, s: State, act: Activation)
    requires Inv(c, s) && ActivationOk(c, s, act)
    ensures QuorumBehind(c, s, act, ApproverKeys(s.proposals[act.id]))
  {
    var p := s.proposals[act.id];
    assert ProposalOk(c, s.accepted, act.id, p);
    forall approver | approver in ApproverKeys(p)
      ensures SignedBy(c, s.accepted, act, approver) && (c.separateDuties ==> approver != p.body.proposer)
    {
      var a :| a in p.approvals && a.body.approver == approver;
      assert Genuine(c, s.accepted, p.body, a);
      var k :| 0 <= k < |s.accepted| && s.accepted[k].approval == a && ApprovalVerifies(c, s.accepted[k].trust, a);
      assert s.accepted[k].approval.body == ApprovalBody(act.id, act.policy.policyId, c.digest(act.policy), approver);
    }
  }

  /** The manager over its shared trust store and registry. */
  class PolicyChangeManager {
    const config: Config
    const trustStore: TrustStore
    const registry: PolicyRegistry
    var proposals: map<string, Proposal>
    ghost var accepted: seq<Accepted>
    ghost var activations: seq<Activation>

    ghost function Value(): State
      reads this, trustStore, registry
    {
      State(trustStore.Value(), registry.Value(), proposals, accepted, activations)
    }

    ghost predicate Valid()
      reads this, trustStore, registry
    {
      Inv(config, Value()) && registry.Valid() && registry.digest == config.digest
    }

    constructor (config: Config, trustStore: TrustStore, registry: PolicyRegistry)
      requires config.required > 0 && registry.Valid() && registry.digest == config.digest
      ensures Valid() && proposals == map[] && accepted == [] && activations == []
      ensures this.config == config && this.trustStore == trustStore && this.registry == registry
    {
      this.config, this.trustStore, this.registry := config, trustStore, registry;
      proposals, accepted, activations := map[], [], [];
    }

    method ProposeSigned(policy: Policy, proposer: string, rationale: string, id: string, signature: string)
      returns (error: Option<Error>)
      requires Valid()
      modifies this
      ensures Valid() && error == ErrorOf(config, old(Value()), Op.Propose(policy, proposer, rationale, id, signature))
      ensures Value() == Apply(config, old(Value()), Op.Propose(policy, proposer, rationale, id, signature))
    {
      ApplyKeepsInv(config, Value(), Op.Propose(policy, proposer, rationale, id, signature));
      if Resolve(trustStore.Value(), proposer).None? {
        return Some(ProposerUntrusted);
      }
      var body := BodyOf(config, registry.Value(), policy, proposer, rationale, id);
      if !ProposalVerifies(config, trustStore.Value(), body, signature) {
        return Some(ProposalSignatureInvalid);
      }
      if body.id in proposals {
        return Some(ProposalExists);
      }
      proposals := proposals[body.id := Proposal(body, signature, false, [])];
      return None;
    }

    /** `approve` accepts repeats of a key; `approve_signed` refuses them. */
    method Approve(id: string, approver: string, signature: string, refuseRepeat: bool) returns (error: Option<Error>)
      requires Valid()
      modifies this
      ensures Valid()
      ensures error == ApprovalError(config, old(Value()), id, approver, signature, refuseRepeat)
      ensures Value() == if error.Some? then old(Value()) else Approved(config, old(Value()), id, approver, signature)
    {
      if id !in proposals {
        return Some(UnknownProposal);
      }
      var proposal := proposals[id];
      if proposal.activated {
        return Some(NotPending);
      }
      if config.separateDuties && approver == proposal.body.proposer {
        return Some(ProposerMayNotApprove);
      }
      if refuseRepeat && approver in ApproverKeys(proposal) {
        return Some(AlreadyApproved);
      }
      var trust := trustStore.Value();
      if Resolve(trust, approver).None? {
        return Some(ApproverUntrusted);
      }
      var approval := ApprovalFor(config, proposal, approver, signature);
      if !ApprovalVerifies(config, trust, approval) {
        return Some(ApprovalSignatureInvalid);
      }
      ApprovingKeepsInv(config, Value(), id, approver, signature, refuseRepeat);
      proposals := proposals[id := WithApproval(proposal, approval)];
      accepted := accepted + [Accepted(approval, trust)];
      return None;
    }

    method Activate(id: string) returns (r: Result<Policy, Error>)
      requires Valid()
      modifies this, registry
      ensures Valid()
      ensures Value() == Apply(config, old(Value()), Op.Activate(id))
      ensures match r
        case Failure(e) => ErrorOf(config, old(Value()), Op.Activate(id)) == Some(e)
        case Success(policy) =>
          ErrorOf(config, old(Value()), Op.Activate(id)) == None && policy == old(proposals)[id].body.policy
    {
      ApplyKeepsInv(config, Value(), Op.Activate(id));
      if id !in proposals {
        return Failure(UnknownProposal);
      }
      var proposal := proposals[id];
      if proposal.activated {
        return Failure(NotPending);
      }
      if !ProposalVerifies(config, trustStore.Value(), proposal.body, proposal.signature) {
        return Failure(ProposalSignatureInvalid);
      }
      if |ApproverKeys(proposal)| < config.required {
        return Failure(QuorumNotMet);
      }
      var registered := registry.Register(proposal.body.policy);
      if !registered {
        return Failure(PolicyConflict);
      }
      proposals := proposals[id := proposal.(activated := true)];
      activations := activations + [Activation(id, proposal.body.policy)];
      return Success(proposal.body.policy);
    }
  }
}
