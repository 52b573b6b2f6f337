/** The issuer-key trust store. */
module Trust {
  import opened Wrappers
  import opened Arbitration

  datatype TrustState = TrustState(keys: map<string, PublicKey>, revoked: set<string>)

  /** The key of an id that is known and not revoked. */
  function Resolve(t: TrustState, keyId: string): Option<PublicKey> {
    if keyId in t.keys && keyId !in t.revoked then Some(t.keys[keyId]) else None
  }

  class TrustStore {
    var keys: map<string, PublicKey>
    var revoked: set<string>

    ghost predicate Valid()
      reads this
    {
      revoked <= keys.Keys
    }

    function Value(): TrustState
      reads this
    {
      TrustState(keys, revoked)
    }

    constructor ()
      ensures Valid() && Value() == TrustState(map[], {})
    {
      keys, revoked := map[], {};
    }

    /** A live key cannot be replaced; a revoked one can come back. */
    method Add(keyId: string, key: PublicKey) returns (ok: bool)
      requires Valid()
      modifies this
      ensures Valid()
      ensures ok <==> keyId != "" && Resolve(old(Value()), keyId).None?
      ensures !ok ==> Value() == old(Value())
      ensures ok ==> Resolve(Value(), keyId) == Some(key)
      ensures forall other: string | other != keyId :: Resolve(Value(), other) == Resolve(old(Value()), other)
    {
      if keyId == "" || (keyId in keys && keyId !in revoked) {
        return false;
      }
      keys := keys[keyId := key];
      revoked := revoked - {keyId};
      return true;
    }

    method Revoke(keyId: string) returns (ok: bool)
      requires Valid()
      modifies this
      ensures Valid()
      ensures ok <==> keyId in old(keys)
      ensures !ok ==> Value() == old(Value())
      ensures Resolve(Value(), keyId).None?
      ensures forall other: string | other != keyId :: Resolve(Value(), other) == Resolve(old(Value()), other)
    {
      if keyId !in keys {
        return false;
      }
      revoked := revoked + {keyId};
      return true;
    }
  }
}

/** The in-process policy registry: an id, once registered, keeps its digest. */
module Registries {
  import opened Wrappers
  import opened Arbitration
  import opened Trust

  type PolicyDigest = Policy -> string

  datatype Manifest = Manifest(policy: Policy, version: int, signerKeyId: string, signature: string)

  type ManifestCheck = (PublicKey, Manifest) -> bool

  datatype RegistryState = RegistryState(
    policies: map<string, Policy>, versions: map<string, int>, manifests: map<string, Manifest>)

  const EMPTY := RegistryState(map[], map[], map[])

  function Digests(digest: PolicyDigest, r: RegistryState): map<string, string> {
    map id | id in r.policies :: digest(r.policies[id])
  }

  ghost predicate WellKeyed(r: RegistryState) {
    && r.versions.Keys == r.policies.Keys
    && r.manifests.Keys <= r.policies.Keys
    && forall id | id in r.policies :: r.policies[id].policyId == id
  }

  /** Every manifest is of the policy registered under its id. */
  ghost predicate ManifestsMatch(r: RegistryState) {
    && WellKeyed(r)
    && forall id | id in r.manifests :: r.manifests[id].policy == r.policies[id]
  }

  ghost predicate DigestInjective(digest: PolicyDigest) {
    forall p, q :: digest(p) == digest(q) ==> p == q
  }

  predicate CanRegister(digest: PolicyDigest, r: RegistryState, policy: Policy) {
    policy.policyId in r.policies ==> digest(r.policies[policy.policyId]) == digest(policy)
  }

  function WithPolicy(r: RegistryState, policy: Policy): RegistryState {
    r.(policies := r.policies[policy.policyId := policy],
       versions := if policy.policyId in r.versions then r.versions else r.versions[policy.policyId := 1])
  }

  predicate ManifestTrusted(check: ManifestCheck, trust: TrustState, m: Manifest) {
    var key := Resolve(trust, m.signerKeyId);
    m.version > 0 && key.Some? && check(key.value, m)
  }

  /** `register_signed`: None when it raises. */
  function SignedRegistered(
    digest: PolicyDigest, check: ManifestCheck, trust: TrustState, r: RegistryState, m: Manifest): Option<RegistryState>
    requires r.versions.Keys == r.policies.Keys
  {
    var id := m.policy.policyId;
    if !ManifestTrusted(check, trust, m) then None
    else if id in r.policies && m.version <= r.versions[id] then
      if m.version == r.versions[id] && digest(r.policies[id]) == digest(m.policy) then Some(r) else None
    else if !CanRegister(digest, r, m.policy) then None
    else Some(RegistryState(r.policies[id := m.policy], r.versions[id := m.version], r.manifests[id := m]))
  }

  /** Nothing registered under an id ever changes its digest. */
  ghost predicate Preserves(digest: PolicyDigest, r: RegistryState, r': RegistryState) {
    forall id | id in r.policies :: id in r'.policies && digest(r'.policies[id]) == digest(r.policies[id])
  }

  lemma RegisteringKeepsIds(digest: PolicyDigest, r: RegistryState, policy: Policy)
    requires WellKeyed(r) && CanRegister(digest, r, policy)
    ensures WellKeyed(WithPolicy(r, policy)) && Preserves(digest, r, WithPolicy(r, policy))
  {}

  /** Registering keeps the manifests matching exactly when it does not put another policy under a manifest's id. */
  lemma RegisteringKeepsManifests(digest: PolicyDigest, r: RegistryState, policy: Policy)
    requires ManifestsMatch(r) && CanRegister(digest, r, policy)
    ensures ManifestsMatch(WithPolicy(r, policy)) <==>
            policy.policyId in r.manifests ==> policy == r.policies[policy.policyId]
    ensures DigestInjective(digest) ==> ManifestsMatch(WithPolicy(r, policy))
  {
    var r' := WithPolicy(r, policy);
    RegisteringKeepsIds(digest, r, policy);
    if policy.policyId in r.manifests && policy != r.policies[policy.policyId] {
      assert r'.manifests[policy.policyId].policy != r'.policies[policy.policyId];
    }
  }

  lemma SignedStaysKeyed(
    digest: PolicyDigest, check: ManifestCheck, trust: TrustState, r: RegistryState, m: Manifest)
    requires WellKeyed(r)
    ensures var next := SignedRegistered(digest, check, trust, r, m); next.Some? ==> WellKeyed(next.value)
  {}

  lemma SignedPreserves(
    digest: PolicyDigest, check: ManifestCheck, trust: TrustState, r: RegistryState, m: Manifest)
    requires WellKeyed(r)
    ensures var next := SignedRegistered(digest, check, trust, r, m); next.Some? ==> Preserves(digest, r, next.value)
  {}

  /** A signed registration changes no registered digest. */
  lemma SignedKeepsIds(
    digest: PolicyDigest, check: ManifestCheck, trust: TrustState, r: RegistryState, m: Manifest)
    requires WellKeyed(r)
    ensures var next := SignedRegistered(digest, check, trust, r, m);
            next.Some? ==> WellKeyed(next.value) && Preserves(digest, r, next.value)
  {
    SignedStaysKeyed(digest, check, trust, r, m);
    SignedPreserves(digest, check, trust, r, m);
  }

  /** Registering the policy first and then noting manifest and version is the whole of it. */
  lemma SignedIsRegistered(
    digest: PolicyDigest, check: ManifestCheck, trust: TrustState, r: RegistryState, m: Manifest)
    requires WellKeyed(r) && ManifestTrusted(check, trust, m)
    requires m.policy.policyId in r.policies ==> m.version > r.versions[m.policy.policyId]
    ensures var id := m.policy.policyId;
            var w := WithPolicy(r, m.policy);
            SignedRegistered(digest, check, trust, r, m) ==
              if CanRegister(digest, r, m.policy)
              then Some(RegistryState(w.policies, w.versions[id := m.version], w.manifests[id := m])) else None
  {
    var id := m.policy.policyId;
    assert WithPolicy(r, m.policy).versions[id := m.version] == r.versions[id := m.version];
  }

  class PolicyRegistry {
    const digest: PolicyDigest
    var policies: map<string, Policy>
    var versions: map<string, int>
    var manifests: map<string, Manifest>

    function Value(): RegistryState
      reads this
    {
      RegistryState(policies, versions, manifests)
    }

    ghost predicate Valid()
      reads this
    {
      WellKeyed(Value())
    }

    constructor (digest: PolicyDigest)
      ensures Valid() && this.digest == digest && Value() == EMPTY
    {
      this.digest, policies, versions, manifests := digest, map[], map[], map[];
    }

    method Register(policy: Policy) returns (ok: bool)
      requires Valid()
      modifies this
      ensures Valid()
      ensures ok <==> CanRegister(digest, old(Value()), policy)
      ensures Value() == if ok then WithPolicy(old(Value()), policy) else old(Value())
    {
      if CanRegister(digest, Value(), policy) {
        RegisteringKeepsIds(digest, Value(), policy);
      }
      if policy.policyId in policies && digest(policies[policy.policyId]) != digest(policy) {
        return false;
      }
      policies := policies[policy.policyId := policy];
      if policy.policyId !in versions {
        versions := versions[policy.policyId := 1];
      }
      return true;
    }

    /** A signed manifest must be trusted, newer than what is registered, and of the same digest. */
    method RegisterSigned(m: Manifest, check: ManifestCheck, trust: TrustState) returns (ok: bool)
      requires Valid()
      modifies this
      ensures Valid()
      ensures var next := SignedRegistered(digest, check, trust, old(Value()), m);
        ok == next.Some? && Value() == if ok then next.value else old(Value())
    {
      SignedKeepsIds(digest, check, trust, Value(), m);
      if !ManifestTrusted(check, trust, m) {
        return false;
      }
      var id := m.policy.policyId;
      if id in policies && m.version <= versions[id] {
        return m.version == versions[id] && digest(policies[id]) == digest(m.policy);
      }
      SignedIsRegistered(digest, check, trust, Value(), m);
      ok := Register(m.policy);
      if ok {
        manifests := manifests[id := m];
        versions := versions[id := m.version];
      }
    }
  }
}
