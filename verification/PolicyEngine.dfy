/** JSON values as Python holds them, with Python's `==`. */
module Values {
  type pos = n: int | 0 < n witness 1

  /** A finite float is a fraction, so that values stay countable and can be hashed injectively. */
  datatype Fraction = Fraction(num: int, den: pos)

  datatype Value =
    | Null
    | Bool(b: bool)
    | Int(i: int)
    | Float(f: Fraction)
    | Infinite(positive: bool)
    | NaN
    | Text(s: string)
    | List(items: seq<Value>)
    | Object(fields: map<string, Value>)

  type Dict = map<string, Value>

  /** `dict.get`: a missing key reads as null. */
  function Lookup(dict: Dict, key: string): Value {
    if key in dict then dict[key] else Null
  }

  predicate Finite(v: Value) {
    v.Bool? || v.Int? || v.Float?
  }

  function Amount(f: Fraction): real {
    f.num as real / f.den as real
  }

  /** Booleans are integers in Python: `True == 1 == 1.0`. */
  function Numeric(v: Value): real
    requires Finite(v)
  {
    match v
    case Bool(b) => if b then 1.0 else 0.0
    case Int(i) => i as real
    case Float(f) => Amount(f)
  }

  /** Python's `==` on JSON values. It is not reflexive: NaN differs from itself. */
  predicate PyEq(a: Value, b: Value)
    decreases a
  {
    if Finite(a) && Finite(b) then Numeric(a) == Numeric(b)
    else if a.List? && b.List? then
      |a.items| == |b.items| && forall i | 0 <= i < |a.items| :: PyEq(a.items[i], b.items[i])
    else if a.Object? && b.Object? then
      a.fields.Keys == b.fields.Keys && forall k | k in a.fields :: PyEq(a.fields[k], b.fields[k])
    else !a.NaN? && !a.List? && !a.Object? && a == b
  }

  lemma {:induction false} PyEqSymmetric(a: Value, b: Value)
    requires PyEq(a, b)
    ensures PyEq(b, a)
    decreases a
  {
    if a.List? && b.List? {
      forall i | 0 <= i < |a.items| ensures PyEq(b.items[i], a.items[i]) {
        PyEqSymmetric(a.items[i], b.items[i]);
      }
    } else if a.Object? && b.Object? {
      forall k | k in a.fields ensures PyEq(b.fields[k], a.fields[k]) {
        PyEqSymmetric(a.fields[k], b.fields[k]);
      }
    }
  }

  lemma {:induction false} PyEqTransitive(a: Value, b: Value, c: Value)
    requires PyEq(a, b) && PyEq(b, c)
    ensures PyEq(a, c)
    decreases a
  {
    if a.List? && b.List? {
      forall i | 0 <= i < |a.items| ensures PyEq(a.items[i], c.items[i]) {
        PyEqTransitive(a.items[i], b.items[i], c.items[i]);
      }
    } else if a.Object? && b.Object? {
      forall k | k in a.fields ensures PyEq(a.fields[k], c.fields[k]) {
        PyEqTransitive(a.fields[k], b.fields[k], c.fields[k]);
      }
    }
  }
}

/** Data-only policies and the deterministic arbiter that evaluates a request against one. */
module Arbitration {
  import opened Wrappers
  import opened Values

  datatype PublicKey = PublicKey(raw: string)

  datatype Policy = Policy(
    policyId: string,
    allowedActions: seq<string>,
    requiredFields: map<string, seq<string>>,
    exactFields: map<string, Dict>,
    requiredContext: seq<string>,
    exactContext: Dict,
    maxRequestBytes: int,
    maxTtlSeconds: int,
    requiredApprovals: map<string, int>,
    maxNumericFields: map<string, map<string, Fraction>>,
    requiredMeshInputs: map<string, int>,
    requiredMeshSources: map<string, seq<string>>,
    meshRequiredActions: seq<string>,
    meshRequiredEnvironments: seq<string>)

  datatype SignedApproval = SignedApproval(
    action: string,
    requestDigest: string,
    decisionDigest: string,
    issuerKeyId: string,
    actorId: Option<string>,
    context: Dict)

  /** Hashing, serialisation and signature checking, which the model leaves abstract. */
  datatype Primitives = Primitives(
    requestDigest: Dict -> string,
    requestSize: Dict -> nat,
    policyDigest: Policy -> string,
    text: Value -> string,
    verifyApproval: (PublicKey, SignedApproval, string) -> bool)

  datatype Reason =
    | RequestTooLarge
    | InvalidContext
    | ActionNotAllowed
    | RequiredFieldMissing(name: string)
    | FieldMismatch(name: string)
    | NumericLimitExceeded(name: string)
    | RequiredContextMissing(name: string)
    | ContextMismatch(name: string)
    | ApprovalQuorumNotMet
    | MeshInputsRequired
    | MeshSourcesMissing
    | GovernanceMeshDenied

  datatype Decision = Decision(
    allow: bool,
    allowedActions: Option<seq<string>>,
    policy: Option<string>,
    policyDigest: Option<string>,
    reasons: set<Reason>,
    requestDigest: string,
    meshPreflightDigest: Option<string>)

  function Get<V>(m: map<string, V>, key: Value, default: V): V {
    if key.Text? && key.s in m then m[key.s] else default
  }

  // ----- approvals -----

  const APPROVAL_KEYS := {"action", "request_digest", "decision_digest", "issuer_key_id", "signature"}
  const OPTIONAL_APPROVAL_KEYS := {"actor_id", "context"}

  predicate NonEmptyText(v: Value) {
    v.Text? && v.s != ""
  }

  /** `SignedApproval.from_dict`: the approval and its signature, when the object is well formed. */
  function ParseApproval(v: Value): Option<(SignedApproval, string)> {
    if !v.Object? then None
    else if !(APPROVAL_KEYS <= v.fields.Keys <= APPROVAL_KEYS + OPTIONAL_APPROVAL_KEYS) then None
    else if !(forall k | k in APPROVAL_KEYS :: NonEmptyText(Lookup(v.fields, k))) then None
    else
      var actor := Lookup(v.fields, "actor_id");
      var context := if "context" in v.fields then v.fields["context"] else Object(map[]);
      if (actor != Null && !NonEmptyText(actor)) || !context.Object? then None
      else
        Some((SignedApproval(
          Lookup(v.fields, "action").s,
          Lookup(v.fields, "request_digest").s,
          Lookup(v.fields, "decision_digest").s,
          Lookup(v.fields, "issuer_key_id").s,
          if actor == Null then None else Some(actor.s),
          context.fields), Lookup(v.fields, "signature").s))
  }

  predicate MatchesRequest(prims: Primitives, approval: SignedApproval, request: Dict) {
    && approval.action == prims.text(Lookup(request, "action"))
    && approval.requestDigest == prims.requestDigest(request - {"approvals"})
  }

  /** The key a piece of evidence counts for, if it is a trusted, valid approval of this request. */
  function Approver(prims: Primitives, keys: map<string, PublicKey>, request: Dict, evidence: Value): Option<string> {
    match ParseApproval(evidence)
    case None => None
    case Some((approval, signature)) =>
      if approval.issuerKeyId !in keys then None
      else if !prims.verifyApproval(keys[approval.issuerKeyId], approval, signature) then None
      else if !MatchesRequest(prims, approval, request) then None
      else Some(approval.issuerKeyId)
  }

  function ExplicitCount(container: Dict): Option<int> {
    if Lookup(container, "approval_count").Int? then Some(container["approval_count"].i)
    else if Lookup(container, "approvals_count").Int? then Some(container["approvals_count"].i)
    else None
  }

  /** The distinct approvers among the first n pieces of evidence. */
  function ApproversAmong(
    prims: Primitives, keys: map<string, PublicKey>, request: Dict, items: seq<Value>, n: nat): set<string>
    requires n <= |items|
  {
    set i | 0 <= i < n && Approver(prims, keys, request, items[i]).Some? ::
      Approver(prims, keys, request, items[i]).value
  }

  function Approvers(prims: Primitives, keys: map<string, PublicKey>, request: Dict, container: Dict): set<string> {
    var approvals := Lookup(container, "approvals");
    if !approvals.List? then {} else ApproversAmong(prims, keys, request, approvals.items, |approvals.items|)
  }

  /** Distinct approver keys, unless the request or its context states a count outright. */
  function ApprovalCount(prims: Primitives, keys: map<string, PublicKey>, request: Dict, context: Dict): int {
    match ExplicitCount(request)
    case Some(n) => n
    case None =>
      match ExplicitCount(context)
      case Some(n) => n
      case None => |Approvers(prims, keys, request, request) + Approvers(prims, keys, request, context)|
  }

  // ----- decide -----

  function ContextOf(request: Dict): Value {
    if "context" in request then request["context"] else Object(map[])
  }

  function ContextFields(request: Dict): Dict {
    if ContextOf(request).Object? then ContextOf(request).fields else map[]
  }

  /** A list or object cannot be a dictionary key: looking the action up raises TypeError. */
  predicate Hashable(v: Value) {
    !v.List? && !v.Object?
  }

  predicate ActionAllowed(request: Dict, policy: Policy) {
    var action := Lookup(request, "action");
    action.Text? && action.s in policy.allowedActions
  }

  predicate WithinLimit(v: Value, maximum: Fraction) {
    (v.Int? || v.Float?) && Numeric(v) <= Amount(maximum)
  }

  ghost function FieldReasons(request: Dict, policy: Policy): set<Reason> {
    var action := Lookup(request, "action");
    var required := Get(policy.requiredFields, action, []);
    var exact := Get(policy.exactFields, action, map[]);
    var limits := Get(policy.maxNumericFields, action, map[]);
    (set f | f in required && f !in request :: RequiredFieldMissing(f))
    + (set f | f in exact && !PyEq(Lookup(request, f), exact[f]) :: FieldMismatch(f))
    + (set f | f in limits && !WithinLimit(Lookup(request, f), limits[f]) :: NumericLimitExceeded(f))
  }

  ghost function ContextReasons(context: Dict, policy: Policy): set<Reason> {
    (set c | c in policy.requiredContext && c !in context :: RequiredContextMissing(c))
    + (set c | c in policy.exactContext && !PyEq(Lookup(context, c), policy.exactContext[c]) :: ContextMismatch(c))
  }

  ghost function ShapeReasons(prims: Primitives, request: Dict, policy: Policy): set<Reason> {
    (if prims.requestSize(request) > policy.maxRequestBytes then {RequestTooLarge} else {})
    + (if ContextOf(request).Object? then {} else {InvalidContext})
    + (if ActionAllowed(request, policy) then {} else {ActionNotAllowed})
  }

  function Quorum(request: Dict, policy: Policy): int {
    Get(policy.requiredApprovals, Lookup(request, "action"), 0)
  }

  ghost predicate QuorumMet(prims: Primitives, keys: map<string, PublicKey>, request: Dict, policy: Policy) {
    Quorum(request, policy) > 0 ==>
      ApprovalCount(prims, keys, request, ContextFields(request)) >= Quorum(request, policy)
  }

  ghost function Reasons(
    prims: Primitives, keys: map<string, PublicKey>, request: Dict, policy: Policy): set<Reason>
  {
    ShapeReasons(prims, request, policy)
    + FieldReasons(request, policy)
    + ContextReasons(ContextFields(request), policy)
    + (if QuorumMet(prims, keys, request, policy) then {} else {ApprovalQuorumNotMet})
  }

  lemma NoReasons(prims: Primitives, keys: map<string, PublicKey>, request: Dict, policy: Policy)
    ensures Reasons(prims, keys, request, policy) == {} <==>
            && ShapeReasons(prims, request, policy) == {}
            && FieldReasons(request, policy) == {}
            && ContextReasons(ContextFields(request), policy) == {}
            && QuorumMet(prims, keys, request, policy)
  {
    assert (if QuorumMet(prims, keys, request, policy) then {} else {ApprovalQuorumNotMet})
           <= Reasons(prims, keys, request, policy);
  }

  /** The arbiter's decision; None is the TypeError of an unhashable action. */
  ghost function Decide(
    prims: Primitives, keys: map<string, PublicKey>, request: Dict, policy: Policy): Option<Decision>
  {
    if !Hashable(Lookup(request, "action")) then None
    else
      var reasons := Reasons(prims, keys, request, policy);
      Some(Decision(
        reasons == {}, Some(policy.allowedActions), Some(policy.policyId), Some(prims.policyDigest(policy)),
        reasons, prims.requestDigest(request), None))
  }

  ghost predicate Allows(prims: Primitives, keys: map<string, PublicKey>, request: Dict, policy: Policy) {
    var d := Decide(prims, keys, request, policy);
    d.Some? && d.value.allow
  }

  /** Everything a policy asks of a request, constraint by constraint. */
  ghost predicate Satisfied(prims: Primitives, keys: map<string, PublicKey>, request: Dict, policy: Policy) {
    var action := Lookup(request, "action");
    && prims.requestSize(request) <= policy.maxRequestBytes
    && ContextOf(request).Object?
    && action.Text? && action.s in policy.allowedActions
    && FieldsSatisfied(request, policy)
    && ContextSatisfied(ContextFields(request), policy)
    && QuorumMet(prims, keys, request, policy)
  }

  ghost predicate FieldsSatisfied(request: Dict, policy: Policy) {
    var action := Lookup(request, "action");
    var exact, limits := Get(policy.exactFields, action, map[]), Get(policy.maxNumericFields, action, map[]);
    && (forall f | f in Get(policy.requiredFields, action, []) :: f in request)
    && (forall f | f in exact :: PyEq(Lookup(request, f), exact[f]))
    && (forall f | f in limits :: WithinLimit(Lookup(request, f), limits[f]))
  }

  ghost predicate ContextSatisfied(context: Dict, policy: Policy) {
    && (forall c | c in policy.requiredContext :: c in context)
    && (forall c | c in policy.exactContext :: PyEq(Lookup(context, c), policy.exactContext[c]))
  }

  lemma ShapeMeaning(prims: Primitives, policy: Policy, request: Dict)
    ensures ShapeReasons(prims, request, policy) == {} <==>
            && prims.requestSize(request) <= policy.maxRequestBytes
            && ContextOf(request).Object?
            && ActionAllowed(request, policy)
  {
    if ShapeReasons(prims, request, policy) == {} {
      assert RequestTooLarge !in ShapeReasons(prims, request, policy);
      assert InvalidContext !in ShapeReasons(prims, request, policy);
      assert ActionNotAllowed !in ShapeReasons(prims, request, policy);
    }
  }

  lemma FieldMeaning(request: Dict, policy: Policy)
    ensures FieldReasons(request, policy) == {} <==> FieldsSatisfied(request, policy)
  {
    var action := Lookup(request, "action");
    var exact, limits := Get(policy.exactFields, action, map[]), Get(policy.maxNumericFields, action, map[]);
    if FieldReasons(request, policy) == {} {
      forall f | f in Get(policy.requiredFields, action, []) ensures f in request {
        assert RequiredFieldMissing(f) !in FieldReasons(request, policy);
      }
      forall f | f in exact ensures PyEq(Lookup(request, f), exact[f]) {
        assert FieldMismatch(f) !in FieldReasons(request, policy);
      }
      forall f | f in limits ensures WithinLimit(Lookup(request, f), limits[f]) {
        assert NumericLimitExceeded(f) !in FieldReasons(request, policy);
      }
    }
  }

  lemma ContextMeaning(context: Dict, policy: Policy)
    ensures ContextReasons(context, policy) == {} <==> ContextSatisfied(context, policy)
  {
    if ContextReasons(context, policy) == {} {
      forall c | c in policy.requiredContext ensures c in context {
        assert RequiredContextMissing(c) !in ContextReasons(context, policy);
      }
      forall c | c in policy.exactContext ensures PyEq(Lookup(context, c), policy.exactContext[c]) {
        assert ContextMismatch(c) !in ContextReasons(context, policy);
      }
    }
  }

  /** The arbiter allows a request exactly when it meets every constraint of the policy. */
  lemma AllowedMeaning(prims: Primitives, keys: map<string, PublicKey>, request: Dict, policy: Policy)
    ensures Allows(prims, keys, request, policy) <==> Satisfied(prims, keys, request, policy)
  {
    NoReasons(prims, keys, request, policy);
    ShapeMeaning(prims, policy, request);
    FieldMeaning(request, policy);
    ContextMeaning(ContextFields(request), policy);
  }

  /** Someone holding a trusted key signed this very request. */
  ghost predicate GenuineSigner(prims: Primitives, keys: map<string, PublicKey>, request: Dict, keyId: string) {
    keyId in keys && exists evidence: Value, approval: SignedApproval, signature: string ::
      && ParseApproval(evidence) == Some((approval, signature))
      && approval.issuerKeyId == keyId
      && prims.verifyApproval(keys[keyId], approval, signature)
      && MatchesRequest(prims, approval, request)
  }

  ghost predicate AllGenuine(prims: Primitives, keys: map<string, PublicKey>, request: Dict, signers: set<string>) {
    forall k | k in signers :: GenuineSigner(prims, keys, request, k)
  }

  lemma ApproversAreGenuine(prims: Primitives, keys: map<string, PublicKey>, request: Dict, container: Dict)
    ensures AllGenuine(prims, keys, request, Approvers(prims, keys, request, container))
  {
    forall k | k in Approvers(prims, keys, request, container) ensures GenuineSigner(prims, keys, request, k) {
      var approvals := Lookup(container, "approvals");
      var i :| 0 <= i < |approvals.items| && Approver(prims, keys, request, approvals.items[i]) == Some(k);
      var (approval, signature) := ParseApproval(approvals.items[i]).value;
      assert ParseApproval(approvals.items[i]) == Some((approval, signature));
    }
  }

  /** When no count is stated outright, a quorum is met by that many distinct trusted signers. */
  lemma QuorumNeedsSigners(prims: Primitives, keys: map<string, PublicKey>, request: Dict, policy: Policy)
    requires Allows(prims, keys, request, policy)
    requires ExplicitCount(request).None? && ExplicitCount(ContextFields(request)).None?
    ensures EnoughSigners(prims, keys, request, Quorum(request, policy))
  {
    NoReasons(prims, keys, request, policy);
    CountedSigners(prims, keys, request, ContextFields(request), Quorum(request, policy));
  }

  ghost predicate EnoughSigners(prims: Primitives, keys: map<string, PublicKey>, request: Dict, quorum: int) {
    exists signers: set<string> :: quorum <= |signers| && AllGenuine(prims, keys, request, signers)
  }

  lemma CountedSigners(prims: Primitives, keys: map<string, PublicKey>, request: Dict, context: Dict, quorum: int)
    requires ExplicitCount(request).None? && ExplicitCount(context).None?
    requires quorum > 0 ==> ApprovalCount(prims, keys, request, context) >= quorum
    ensures EnoughSigners(prims, keys, request, quorum)
  {
    ApproversAreGenuine(prims, keys, request, request);
    ApproversAreGenuine(prims, keys, request, context);
    var signers := Approvers(prims, keys, request, request) + Approvers(prims, keys, request, context);
    assert quorum <= |signers| && AllGenuine(prims, keys, request, signers);
  }

  // ----- the arbiter's loops -----

  method Missing(names: seq<string>, dict: Dict) returns (missing: set<string>)
    ensures missing == set n | n in names && n !in dict
  {
    missing := {};
    for i := 0 to |names|
      invariant missing == set n | n in names[..i] && n !in dict
    {
      assert names[..i + 1] == names[..i] + [names[i]];
      if names[i] !in dict {
        missing := missing + {names[i]};
      }
    }
    assert names[..|names|] == names;
  }

  method Mismatched(expected: Dict, dict: Dict) returns (wrong: set<string>)
    ensures wrong == set n | n in expected && !PyEq(Lookup(dict, n), expected[n])
  {
    wrong := {};
    var left := expected.Keys;
    while left != {}
      invariant left <= expected.Keys
      invariant wrong == set n | n in expected.Keys - left && !PyEq(Lookup(dict, n), expected[n])
      decreases left
    {
      var name :| name in left;
      left := left - {name};
      if !PyEq(Lookup(dict, name), expected[name]) {
        wrong := wrong + {name};
      }
    }
  }

  method OverLimit(limits: map<string, Fraction>, dict: Dict) returns (over: set<string>)
    ensures over == set n | n in limits && !WithinLimit(Lookup(dict, n), limits[n])
  {
    over := {};
    var left := limits.Keys;
    while left != {}
      invariant left <= limits.Keys
      invariant over == set n | n in limits.Keys - left && !WithinLimit(Lookup(dict, n), limits[n])
      decreases left
    {
      var name :| name in left;
      left := left - {name};
      if !WithinLimit(Lookup(dict, name), limits[name]) {
        over := over + {name};
      }
    }
  }

  /** `_approval_count`: two containers, each of which may end the count early. */
  method CountApprovals(prims: Primitives, keys: map<string, PublicKey>, request: Dict, context: Dict)
    returns (count: int)
    ensures count == ApprovalCount(prims, keys, request, context)
  {
    var approvers: set<string> := {};
    var containers := [request, context];
    for c := 0 to 2
      invariant c > 0 ==> ExplicitCount(request).None?
      invariant c > 1 ==> ExplicitCount(context).None?
      invariant approvers ==
        (if c > 0 then Approvers(prims, keys, request, request) else {})
        + (if c > 1 then Approvers(prims, keys, request, context) else {})
    {
      var container := containers[c];
      var stated := ExplicitCount(container);
      if stated.Some? {
        return stated.value;
      }
      var found := CollectApprovers(prims, keys, request, container);
      approvers := approvers + found;
    }
    return |approvers|;
  }

  method CollectApprovers(prims: Primitives, keys: map<string, PublicKey>, request: Dict, container: Dict)
    returns (found: set<string>)
    ensures found == Approvers(prims, keys, request, container)
  {
    found := {};
    var approvals := Lookup(container, "approvals");
    if approvals.List? {
      for i := 0 to |approvals.items|
        invariant found == ApproversAmong(prims, keys, request, approvals.items, i)
      {
        var approver := Approver(prims, keys, request, approvals.items[i]);
        if approver.Some? {
          found := found + {approver.value};
        }
      }
    }
  }

  method RunDecide(prims: Primitives, keys: map<string, PublicKey>, request: Dict, policy: Policy)
    returns (decision: Option<Decision>)
    ensures decision == Decide(prims, keys, request, policy)
  {
    var action := Lookup(request, "action");
    if !Hashable(action) {
      return None;
    }
    var shape := CheckShape(prims, request, policy);
    var fields := CheckFields(request, policy);
    var contexts := CheckContext(ContextFields(request), policy);
    var quorum := CheckQuorum(prims, keys, request, policy);
    var reasons := shape + fields + contexts + (if quorum then {} else {ApprovalQuorumNotMet});
    return Some(Decision(
      reasons == {}, Some(policy.allowedActions), Some(policy.policyId), Some(prims.policyDigest(policy)),
      reasons, prims.requestDigest(request), None));
  }

  method CheckShape(prims: Primitives, request: Dict, policy: Policy) returns (reasons: set<Reason>)
    ensures reasons == ShapeReasons(prims, request, policy)
  {
    reasons := {};
    if prims.requestSize(request) > policy.maxRequestBytes {
      reasons := reasons + {RequestTooLarge};
    }
    if !ContextOf(request).Object? {
      reasons := reasons + {InvalidContext};
    }
    if !ActionAllowed(request, policy) {
      reasons := reasons + {ActionNotAllowed};
    }
  }

  method CheckQuorum(prims: Primitives, keys: map<string, PublicKey>, request: Dict, policy: Policy)
    returns (met: bool)
    ensures met == QuorumMet(prims, keys, request, policy)
  {
    if Quorum(request, policy) <= 0 {
      return true;
    }
    var count := CountApprovals(prims, keys, request, ContextFields(request));
    return count >= Quorum(request, policy);
  }

  method CheckFields(request: Dict, policy: Policy) returns (reasons: set<Reason>)
    ensures reasons == FieldReasons(request, policy)
  {
    var action := Lookup(request, "action");
    var missing := Missing(Get(policy.requiredFields, action, []), request);
    var wrong := Mismatched(Get(policy.exactFields, action, map[]), request);
    var over := OverLimit(Get(policy.maxNumericFields, action, map[]), request);
    reasons := (set f | f in missing :: RequiredFieldMissing(f))
      + (set f | f in wrong :: FieldMismatch(f))
      + (set f | f in over :: NumericLimitExceeded(f));
  }

  method CheckContext(context: Dict, policy: Policy) returns (reasons: set<Reason>)
    ensures reasons == ContextReasons(context, policy)
  {
    var missing := Missing(policy.requiredContext, context);
    var wrong := Mismatched(policy.exactContext, context);
    reasons := (set c | c in missing :: RequiredContextMissing(c))
      + (set c | c in wrong :: ContextMismatch(c));
  }
}
