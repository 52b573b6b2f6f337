/** `GovernanceReconciler`: importing another organisation's policies without ever overriding one's own. */
module Federation {
  import opened Wrappers
  import opened Arbitration
  import opened Registries
  import opened Trust
  import Sorting
  import StringOrder

  datatype Signed = Signed(keyId: string, signature: string)

  /** One registry entry on the wire; the policy is None when it does not parse. */
  datatype Entry = Entry(policy: Option<Policy>, version: int, signed: Option<Signed>)

  /** The id-to-entry object and the id-to-digest object of a snapshot, without its organisation. */
  datatype Contents = Contents(version: int, entries: map<string, Entry>, digests: map<string, string>)

  datatype Snapshot = Snapshot(sourceOrg: string, contents: Contents, snapshotDigest: string)

  datatype SyncEvent = SyncEvent(
    sourceOrg: string, targetOrg: string, policyDigests: map<string, string>, nonce: string, signerKeyId: string)

  datatype Envelope = Envelope(event: SyncEvent, snapshot: Snapshot)

  datatype Conflict = Conflict(policyId: string, localDigest: string, remoteDigest: string)

  datatype Status = Identical | Adopted | Conflicted

  datatype Outcome = Outcome(status: Status, imported: seq<string>, conflicts: seq<Conflict>)

  datatype Error =
    | UnknownSource
    | WrongTarget
    | NonceConsumed
    | EnvelopeInvalid
    | DigestsDiffer
    | DigestMissing
    | EntryInvalid
    | EntryDigestMismatch
    | Unsigned
    | ManifestInvalid

  function EntryOf(r: RegistryState, id: string): Entry
    requires id in r.policies && id in r.versions
  {
    if id in r.manifests then
      var m := r.manifests[id];
      Entry(Some(m.policy), m.version, Some(Signed(m.signerKeyId, m.signature)))
    else Entry(Some(r.policies[id]), r.versions[id], None)
  }

  /** What `from_registry` puts in a snapshot. */
  function ContentsOf(digest: PolicyDigest, r: RegistryState, version: int): Contents
    requires r.versions.Keys == r.policies.Keys
  {
    Contents(version, map id | id in r.policies :: EntryOf(r, id), Digests(digest, r))
  }

  function ManifestOf(e: Entry): Manifest
    requires e.policy.Some? && e.signed.Some?
  {
    Manifest(e.policy.value, e.version, e.signed.value.keyId, e.signed.value.signature)
  }

  /** Signed entries carry the policy that is registered. */
  /** A snapshot taken of the registry. */
  ghost predicate HonestSnapshot(digest: PolicyDigest, hash: Contents -> string, remote: RegistryState, s: Snapshot) {
    && ManifestsMatch(remote)
    && s.contents == ContentsOf(digest, remote, s.contents.version)
    && s.snapshotDigest == hash(s.contents)
  }

  /** The local map extended by exactly the unknown remote ids. */
  function Merged(local: map<string, string>, remote: map<string, string>): map<string, string> {
    remote + local
  }

  ghost predicate ImportableFrom(check: ManifestCheck, trust: TrustState, local: RegistryState, remote: RegistryState)
    requires remote.versions.Keys == remote.policies.Keys
  {
    forall id | id in remote.policies && id !in local.policies ::
      id in remote.manifests && ManifestTrusted(check, trust, remote.manifests[id])
  }

  /** Exactly the shared ids whose digests differ. */
  ghost predicate ConflictsExact(
    local: map<string, string>, remote: map<string, string>, ids: set<string>, conflicts: seq<Conflict>)
  {
    forall c :: c in conflicts <==> c.policyId in ids && IsConflict(local, remote, c)
  }

  predicate IsConflict(local: map<string, string>, remote: map<string, string>, c: Conflict) {
    && c.policyId in local && c.policyId in remote
    && c.localDigest == local[c.policyId] && c.remoteDigest == remote[c.policyId]
    && c.localDigest != c.remoteDigest
  }

  /** What parsing a snapshot from the wire guarantees. */
  ghost predicate Keyed(contents: Contents) {
    && contents.entries.Keys == contents.digests.Keys
    && forall id | id in contents.entries && contents.entries[id].policy.Some? ::
         contents.entries[id].policy.value.policyId == id
  }

  /** The part of the remote digests that has been gone through. */
  function Restrict(m: map<string, string>, ids: set<string>): map<string, string> {
    map id | id in m && id in ids :: m[id]
  }

  /** One pass of the loop body: the registry after it and the conflict found, or the error raised. */
  function Step(
    digest: PolicyDigest, check: ManifestCheck, trust: TrustState, contents: Contents, r: RegistryState, id: string)
    : Result<(RegistryState, Option<Conflict>), Error>
    requires r.versions.Keys == r.policies.Keys && id in contents.entries
  {
    var e := contents.entries[id];
    if id !in contents.digests then Failure(DigestMissing)
    else if e.policy.None? then Failure(EntryInvalid)
    else if digest(e.policy.value) != contents.digests[id] then Failure(EntryDigestMismatch)
    else if id in r.policies then
      var mine := digest(r.policies[id]);
      Success((r, if mine != contents.digests[id] then Some(Conflict(id, mine, contents.digests[id])) else None))
    else if e.signed.None? then Failure(Unsigned)
    else
      var next := SignedRegistered(digest, check, trust, r, ManifestOf(e));
      if next.None? then Failure(ManifestInvalid) else Success((next.value, None))
  }

  /** Whatever was registered is registered still, unchanged. */
  ghost predicate OwnKept(local: RegistryState, r: RegistryState) {
    forall id | id in local.policies :: id in r.policies && r.policies[id] == local.policies[id]
  }

  /** Exactly the unknown ids. */
  ghost predicate ImportsExact(local: RegistryState, ids: set<string>, imports: seq<string>) {
    forall id :: id in imports <==> id in ids && id !in local.policies
  }

  /** Where the loop stands after the ids in `done`. */
  ghost predicate Progress(
    digest: PolicyDigest, local: RegistryState, contents: Contents, done: set<string>,
    r: RegistryState, imports: seq<string>, conflicts: seq<Conflict>)
  {
    && WellKeyed(r)
    && OwnKept(local, r)
    && Digests(digest, r) == Merged(Digests(digest, local), Restrict(contents.digests, done))
    && ImportsExact(local, done, imports)
    && ConflictsExact(Digests(digest, local), contents.digests, done, conflicts)
  }

  lemma StepKeepsOwn(
    digest: PolicyDigest, check: ManifestCheck, trust: TrustState, contents: Contents, r: RegistryState, id: string)
    requires WellKeyed(r) && Keyed(contents) && id in contents.entries
    requires Step(digest, check, trust, contents, r, id).Success?
    ensures var r' := Step(digest, check, trust, contents, r, id).value.0;
            WellKeyed(r') && OwnKept(r, r')
  {
    StepRegisters(digest, check, trust, contents, r, id);
    StepPreserves(digest, check, trust, contents, r, id);
  }

  lemma DigestsOfInsert(digest: PolicyDigest, r: RegistryState, r': RegistryState, id: string, policy: Policy)
    requires r'.policies == r.policies[id := policy]
    ensures Digests(digest, r') == Digests(digest, r)[id := digest(policy)]
  {}

  lemma MergedOne(local: map<string, string>, remote: map<string, string>, id: string)
    requires id in remote
    ensures Merged(local, Restrict(remote, {id})) == if id in local then local else local[id := remote[id]]
  {
    assert Restrict(remote, {id}) == map[id := remote[id]];
  }

  lemma MergedTwice(local: map<string, string>, remote: map<string, string>, done: set<string>, id: string)
    ensures Merged(Merged(local, Restrict(remote, done)), Restrict(remote, {id})) ==
            Merged(local, Restrict(remote, done + {id}))
  {}

  /** When a pass succeeds on a keyed snapshot. */
  lemma KeyedStepSucceeds(
    digest: PolicyDigest, check: ManifestCheck, trust: TrustState, contents: Contents, r: RegistryState, id: string)
    requires WellKeyed(r) && Keyed(contents) && id in contents.entries
    ensures Step(digest, check, trust, contents, r, id).Success? <==>
      && contents.entries[id].policy.Some? && digest(contents.entries[id].policy.value) == contents.digests[id]
      && (id in r.policies ||
          (contents.entries[id].signed.Some? && ManifestTrusted(check, trust, ManifestOf(contents.entries[id]))))
  {}

  /** An entry of a keyed snapshot adds its own id and nothing else. */
  lemma KeyedStep(
    digest: PolicyDigest, check: ManifestCheck, trust: TrustState, contents: Contents, r: RegistryState, id: string)
    requires WellKeyed(r) && Keyed(contents) && id in contents.entries
    requires Step(digest, check, trust, contents, r, id).Success?
    ensures var (r', conflict) := Step(digest, check, trust, contents, r, id).value;
      && Digests(digest, r') == Merged(Digests(digest, r), Restrict(contents.digests, {id}))
      && conflict == (if id in r.policies && digest(r.policies[id]) != contents.digests[id]
                      then Some(Conflict(id, digest(r.policies[id]), contents.digests[id])) else None)
  {
    var r' := Step(digest, check, trust, contents, r, id).value.0;
    MergedOne(Digests(digest, r), contents.digests, id);
    if id !in r.policies {
      DigestsOfInsert(digest, r, r', id, contents.entries[id].policy.value);
    }
  }

  lemma ConflictsStep(
    local: map<string, string>, remote: map<string, string>, done: set<string>, conflicts: seq<Conflict>,
    id: string, conflict: Option<Conflict>)
    requires ConflictsExact(local, remote, done, conflicts) && id !in done && id in remote
    requires conflict == if id in local && local[id] != remote[id] then Some(Conflict(id, local[id], remote[id])) else None
    ensures ConflictsExact(local, remote, done + {id}, if conflict.Some? then conflicts + [conflict.value] else conflicts)
  {
    var longer := if conflict.Some? then conflicts + [conflict.value] else conflicts;
    forall c ensures c in longer <==> c.policyId in done + {id} && IsConflict(local, remote, c) {
      assert c in longer <==> c in conflicts || Some(c) == conflict;
    }
  }

  lemma ImportsStep(local: RegistryState, done: set<string>, imports: seq<string>, id: string)
    requires ImportsExact(local, done, imports)
    ensures ImportsExact(local, done + {id}, if id in local.policies then imports else imports + [id])
  {}

  lemma ProgressStep(
    digest: PolicyDigest, check: ManifestCheck, trust: TrustState, local: RegistryState, contents: Contents,
    done: set<string>, r: RegistryState, imports: seq<string>, conflicts: seq<Conflict>, id: string)
    requires Keyed(contents) && id in contents.entries && id !in done && WellKeyed(local)
    requires Progress(digest, local, contents, done, r, imports, conflicts)
    requires Step(digest, check, trust, contents, r, id).Success?
    ensures var (r', conflict) := Step(digest, check, trust, contents, r, id).value;
            Progress(digest, local, contents, done + {id}, r',
                     if id in r.policies then imports else imports + [id],
                     if conflict.Some? then conflicts + [conflict.value] else conflicts)
  {
    var (r', conflict) := Step(digest, check, trust, contents, r, id).value;
    StepKeepsOwn(digest, check, trust, contents, r, id);
    KeyedStep(digest, check, trust, contents, r, id);
    KnownBefore(digest, local, contents, done, r, id);
    ProgressKeeps(digest, local, contents, done, r, r', imports, conflicts, id, conflict);
  }

  lemma ProgressKeeps(
    digest: PolicyDigest, local: RegistryState, contents: Contents, done: set<string>, r: RegistryState,
    r': RegistryState, imports: seq<string>, conflicts: seq<Conflict>, id: string, conflict: Option<Conflict>)
    requires id in contents.digests && id !in done
    requires Progress(digest, local, contents, done, r, imports, conflicts)
    requires WellKeyed(r') && OwnKept(r, r')
    requires Digests(digest, r') == Merged(Digests(digest, r), Restrict(contents.digests, {id}))
    requires id in r.policies <==> id in local.policies
    requires id in r.policies ==> digest(r.policies[id]) == digest(local.policies[id])
    requires conflict == (if id in r.policies && digest(r.policies[id]) != contents.digests[id]
                          then Some(Conflict(id, digest(r.policies[id]), contents.digests[id])) else None)
    ensures Progress(digest, local, contents, done + {id}, r',
                     if id in r.policies then imports else imports + [id],
                     if conflict.Some? then conflicts + [conflict.value] else conflicts)
  {
    ImportsStep(local, done, imports, id);
    MergedTwice(Digests(digest, local), contents.digests, done, id);
    ConflictsStep(Digests(digest, local), contents.digests, done, conflicts, id, conflict);
  }

  /** An id still to come is known now exactly when it was known at the start. */
  lemma KnownBefore(
    digest: PolicyDigest, local: RegistryState, contents: Contents, done: set<string>, r: RegistryState, id: string)
    requires Digests(digest, r) == Merged(Digests(digest, local), Restrict(contents.digests, done)) && id !in done
    ensures id in r.policies <==> id in local.policies
    ensures id in r.policies ==> digest(r.policies[id]) == digest(local.policies[id])
  {
    assert id in Digests(digest, r) <==> id in Digests(digest, local);
    if id in r.policies {
      assert Digests(digest, r)[id] == Digests(digest, local)[id];
    }
  }

  ghost predicate EntryAcceptable(
    digest: PolicyDigest, check: ManifestCheck, trust: TrustState, local: RegistryState, contents: Contents, id: string)
    requires id in contents.entries
  {
    var e := contents.entries[id];
    && id in contents.digests && e.policy.Some? && digest(e.policy.value) == contents.digests[id]
    && (id in local.policies || (e.signed.Some? && ManifestTrusted(check, trust, ManifestOf(e))))
  }

  /** Everything in the snapshot is intact, and whatever is unknown here is signed by someone trusted. */
  ghost predicate Acceptable(
    digest: PolicyDigest, check: ManifestCheck, trust: TrustState, local: RegistryState, contents: Contents)
  {
    forall id | id in contents.entries :: EntryAcceptable(digest, check, trust, local, contents, id)
  }

  class GovernanceReconciler {
    const localOrg: string
    const hash: Contents -> string
    const check: ManifestCheck
    const registry: PolicyRegistry
    const trustStore: TrustStore
    const organizationKeys: map<string, string>
    var seenNonces: set<(string, string)>

    constructor (
      localOrg: string, hash: Contents -> string, check: ManifestCheck,
      registry: PolicyRegistry, trustStore: TrustStore, organizationKeys: map<string, string>)
      ensures this.localOrg == localOrg && this.hash == hash && this.check == check
      ensures this.registry == registry && this.trustStore == trustStore
      ensures this.organizationKeys == organizationKeys && seenNonces == {}
    {
      this.localOrg, this.hash, this.check := localOrg, hash, check;
      this.registry, this.trustStore, this.organizationKeys := registry, trustStore, organizationKeys;
      seenNonces := {};
    }

    /** Who may send what: the checks before anything of the snapshot is looked at. */
    ghost function Refusal(envelope: Envelope, verified: bool): Option<Error>
      reads this
    {
      var event := envelope.event;
      if event.sourceOrg !in organizationKeys || organizationKeys[event.sourceOrg] != event.signerKeyId then
        Some(UnknownSource)
      else if event.targetOrg != localOrg then Some(WrongTarget)
      else if (event.sourceOrg, event.nonce) in seenNonces then Some(NonceConsumed)
      else if !verified then Some(EnvelopeInvalid)
      else if event.policyDigests != envelope.snapshot.contents.digests then Some(DigestsDiffer)
      else None
    }

    method CheckEnvelope(envelope: Envelope, verified: bool) returns (refused: Option<Error>)
      ensures refused == Refusal(envelope, verified)
    {
      var event := envelope.event;
      if event.sourceOrg !in organizationKeys || organizationKeys[event.sourceOrg] != event.signerKeyId {
        return Some(UnknownSource);
      }
      if event.targetOrg != localOrg {
        return Some(WrongTarget);
      }
      if (event.sourceOrg, event.nonce) in seenNonces {
        return Some(NonceConsumed);
      }
      if !verified {
        return Some(EnvelopeInvalid);
      }
      if event.policyDigests != envelope.snapshot.contents.digests {
        return Some(DigestsDiffer);
      }
      return None;
    }

    /** One entry of the snapshot: known and equal, known and conflicting, or imported. */
    method ReconcileEntry(id: string, contents: Contents, trust: TrustState)
      returns (r: Result<Option<Conflict>, Error>)
      requires registry.Valid() && id in contents.entries
      modifies registry
      ensures registry.Valid()
      ensures match Step(registry.digest, check, trust, contents, old(registry.Value()), id)
        case Failure(e) => r == Failure(e) && registry.Value() == old(registry.Value())
        case Success((next, conflict)) => r == Success(conflict) && registry.Value() == next
    {
      if id !in contents.digests {
        return Failure(DigestMissing);
      }
      var remoteDigest := contents.digests[id];
      var entry := contents.entries[id];
      if entry.policy.None? {
        return Failure(EntryInvalid);
      }
      if registry.digest(entry.policy.value) != remoteDigest {
        return Failure(EntryDigestMismatch);
      }
      if id in registry.policies {
        var mine := registry.digest(registry.policies[id]);
        return Success(if mine != remoteDigest then Some(Conflict(id, mine, remoteDigest)) else None);
      }
      if entry.signed.None? {
        return Failure(Unsigned);
      }
      var ok := registry.RegisterSigned(ManifestOf(entry), check, trust);
      return if ok then Success(None) else Failure(ManifestInvalid);
    }

    /**
     * Reconcile with an envelope whose signatures and age were `verified`. An
     * error in the middle leaves the imports made so far; what was there before
     * keeps its digest on every path.
     */
    method Reconcile(envelope: Envelope, verified: bool) returns (r: Result<Outcome, Error>)
      requires registry.Valid()
      modifies this`seenNonces, registry
      ensures registry.Valid() && Preserves(registry.digest, old(registry.Value()), registry.Value())
      ensures ManifestsMatch(old(registry.Value())) ==> ManifestsMatch(registry.Value())
      ensures Keyed(envelope.snapshot.contents) ==> OwnKept(old(registry.Value()), registry.Value())
      ensures var refused := old(Refusal(envelope, verified));
        && (refused.Some? ==> r == Failure(refused.value) && registry.Value() == old(registry.Value()))
        && seenNonces == old(seenNonces) +
             (if refused.Some? then {} else {(envelope.event.sourceOrg, envelope.event.nonce)})
      ensures r.Success? && r.value.status == Identical ==>
        && registry.Value() == old(registry.Value()) && r.value == Outcome(Identical, [], [])
        && hash(ContentsOf(registry.digest, old(registry.Value()), envelope.snapshot.contents.version)) ==
           envelope.snapshot.snapshotDigest
      ensures Keyed(envelope.snapshot.contents) && r.Success? && r.value.status != Identical ==>
        Settled(registry.digest, old(registry.Value()), envelope.snapshot.contents, registry.Value(), r.value)
      ensures old(Refusal(envelope, verified)).None? && Keyed(envelope.snapshot.contents)
        && Acceptable(registry.digest, check, trustStore.Value(), old(registry.Value()), envelope.snapshot.contents)
        ==> r.Success?
    {
      var contents := envelope.snapshot.contents;
      var refused := CheckEnvelope(envelope, verified);
      if refused.Some? {
        return Failure(refused.value);
      }
      seenNonces := seenNonces + {(envelope.event.sourceOrg, envelope.event.nonce)};
      if hash(ContentsOf(registry.digest, registry.Value(), contents.version)) == envelope.snapshot.snapshotDigest {
        return Success(Outcome(Identical, [], []));
      }
      r := ReconcileEntries(contents);
    }

    method ReconcileEntries(contents: Contents) returns (r: Result<Outcome, Error>)
      requires registry.Valid()
      modifies registry
      ensures registry.Valid() && Preserves(registry.digest, old(registry.Value()), registry.Value())
      ensures ManifestsMatch(old(registry.Value())) ==> ManifestsMatch(registry.Value())
      ensures Keyed(contents) ==> OwnKept(old(registry.Value()), registry.Value())
      ensures Keyed(contents) && r.Success? ==>
        Settled(registry.digest, old(registry.Value()), contents, registry.Value(), r.value)
      ensures r.Success? ==> r.value.status != Identical
      ensures Keyed(contents) && Acceptable(registry.digest, check, trustStore.Value(), old(registry.Value()), contents)
        ==> r.Success?
    {
      ghost var digest, local, trust := registry.digest, registry.Value(), trustStore.Value();
      var error, imports, conflicts;
      ghost var order;
      error, imports, conflicts, order := GoThrough(contents);
      FoldIsSound(digest, check, trust, contents, local, order);
      if error.Some? {
        return Failure(error.value);
      }
      r := Success(Summary(imports, conflicts));
      if Keyed(contents) {
        AllDone(digest, local, contents, registry.Value(), imports, conflicts);
      }
    }

    /** The loop over the snapshot's entries, in whatever order they come; an error leaves it where it was raised. */
    method GoThrough(contents: Contents)
      returns (error: Option<Error>, imports: seq<string>, conflicts: seq<Conflict>, ghost order: seq<string>)
      requires registry.Valid()
      modifies registry
      ensures registry.Valid() && InEntries(contents, order)
      ensures Fold(registry.digest, check, trustStore.Value(), contents, old(registry.Value()), order)
              == Pass(registry.Value(), imports, conflicts, error)
      ensures error.None? ==> Elements(order) == contents.entries.Keys
    {
      ghost var digest, local := registry.digest, registry.Value();
      var trust := trustStore.Value();
      error, imports, conflicts, order := None, [], [], [];
      var todo := contents.entries.Keys;
      while todo != {} && error.None?
        invariant todo <= contents.entries.Keys && registry.Valid() && InEntries(contents, order)
        invariant Elements(order) !! todo && (error.None? ==> Elements(order) + todo == contents.entries.Keys)
        invariant Fold(digest, check, trust, contents, local, order) == Pass(registry.Value(), imports, conflicts, error)
        decreases todo
      {
        var id :| id in todo;
        FoldSnoc(digest, check, trust, contents, local, order, id);
        error, imports, conflicts := TakeOne(id, contents, trust, imports, conflicts);
        order := order + [id];
        todo := todo - {id};
      }
    }

    /** One turn of the loop. */
    method TakeOne(id: string, contents: Contents, trust: TrustState, before: seq<string>, found: seq<Conflict>)
      returns (error: Option<Error>, imports: seq<string>, conflicts: seq<Conflict>)
      requires registry.Valid() && id in contents.entries
      modifies registry
      ensures registry.Valid()
      ensures Pass(registry.Value(), imports, conflicts, error) ==
        PassOn(registry.digest, check, trust, contents, Pass(old(registry.Value()), before, found, None), id)
    {
      error, imports, conflicts := None, before, found;
      var known := id in registry.policies;
      var step := ReconcileEntry(id, contents, trust);
      if step.Failure? {
        error := Some(step.error);
      } else {
        if step.value.Some? {
          conflicts := conflicts + [step.value.value];
        }
        if !known {
          imports := imports + [id];
        }
      }
    }
  }

  /** Where the loop stands: the registry, both lists, and the error if one was raised. */
  datatype Pass = Pass(
    registry: RegistryState, imports: seq<string>, conflicts: seq<Conflict>, error: Option<Error>)

  /** The ids are entries of the snapshot, none twice. */
  ghost predicate InEntries(contents: Contents, ids: seq<string>) {
    && (forall i | 0 <= i < |ids| :: ids[i] in contents.entries)
    && (forall i, j | 0 <= i < j < |ids| :: ids[i] != ids[j])
  }

  function Elements(ids: seq<string>): set<string> {
    set id | id in ids
  }

  /** The loop body on values. */
  ghost function PassOn(
    digest: PolicyDigest, check: ManifestCheck, trust: TrustState, contents: Contents, p: Pass, id: string): Pass
    requires WellKeyed(p.registry) && id in contents.entries
  {
    if p.error.Some? then p
    else
      match Step(digest, check, trust, contents, p.registry, id)
      case Failure(e) => p.(error := Some(e))
      case Success((next, conflict)) =>
        Pass(next,
             if id in p.registry.policies then p.imports else p.imports + [id],
             if conflict.Some? then p.conflicts + [conflict.value] else p.conflicts,
             None)
  }

  /** The whole loop on values. */
  ghost function Fold(
    digest: PolicyDigest, check: ManifestCheck, trust: TrustState, contents: Contents, local: RegistryState,
    ids: seq<string>): (p: Pass)
    requires WellKeyed(local) && InEntries(contents, ids)
    ensures WellKeyed(p.registry)
  {
    if ids == [] then Pass(local, [], [], None)
    else
      var n := |ids| - 1;
      var p := Fold(digest, check, trust, contents, local, ids[..n]);
      PassKeepsIds(digest, check, trust, contents, p, ids[n]);
      PassOn(digest, check, trust, contents, p, ids[n])
  }

  lemma PassKeepsIds(
    digest: PolicyDigest, check: ManifestCheck, trust: TrustState, contents: Contents, p: Pass, id: string)
    requires WellKeyed(p.registry) && id in contents.entries
    ensures WellKeyed(PassOn(digest, check, trust, contents, p, id).registry)
  {
    if p.error.None? && Step(digest, check, trust, contents, p.registry, id).Success? {
      StepPreserves(digest, check, trust, contents, p.registry, id);
    }
  }

  lemma FoldSnoc(
    digest: PolicyDigest, check: ManifestCheck, trust: TrustState, contents: Contents, local: RegistryState,
    ids: seq<string>, id: string)
    requires WellKeyed(local) && InEntries(contents, ids) && id in contents.entries && id !in ids
    ensures InEntries(contents, ids + [id]) && Elements(ids + [id]) == Elements(ids) + {id}
    ensures Fold(digest, check, trust, contents, local, ids + [id]) ==
            PassOn(digest, check, trust, contents, Fold(digest, check, trust, contents, local, ids), id)
  {
    assert (ids + [id])[..|ids|] == ids;
  }

  /** One more pass keeps what holds so far. */
  lemma PassIsSound(
    digest: PolicyDigest, check: ManifestCheck, trust: TrustState, contents: Contents, local: RegistryState,
    done: set<string>, p: Pass, id: string)
    requires WellKeyed(local) && id in contents.entries && id !in done && p.error.None?
    requires SoFar(digest, local, contents, done, p.registry, p.imports, p.conflicts)
    ensures var p' := PassOn(digest, check, trust, contents, p, id);
      && (Keyed(contents) && Acceptable(digest, check, trust, local, contents) ==> p'.error.None?)
      && (p'.error.Some? ==> p'.registry == p.registry)
      && (p'.error.None? ==> SoFar(digest, local, contents, done + {id}, p'.registry, p'.imports, p'.conflicts))
  {
    EntrySoFar(digest, check, trust, local, contents, done, p.registry, p.imports, p.conflicts, id);
  }

  /** What the loop leaves behind, in whatever order it went. */
  lemma {:induction false} FoldIsSound(
    digest: PolicyDigest, check: ManifestCheck, trust: TrustState, contents: Contents, local: RegistryState,
    ids: seq<string>)
    requires WellKeyed(local) && InEntries(contents, ids)
    ensures var p := Fold(digest, check, trust, contents, local, ids);
      && Kept(digest, local, contents, p.registry)
      && (Keyed(contents) && Acceptable(digest, check, trust, local, contents) ==> p.error.None?)
      && (p.error.None? ==> SoFar(digest, local, contents, Elements(ids), p.registry, p.imports, p.conflicts))
    decreases |ids|
  {
    if ids == [] {
      StartsClean(digest, local, contents);
    } else {
      var n := |ids| - 1;
      FoldIsSound(digest, check, trust, contents, local, ids[..n]);
      FoldSnoc(digest, check, trust, contents, local, ids[..n], ids[n]);
      assert ids == ids[..n] + [ids[n]];
      var p := Fold(digest, check, trust, contents, local, ids[..n]);
      if p.error.None? {
        PassIsSound(digest, check, trust, contents, local, Elements(ids[..n]), p, ids[n]);
      }
    }
  }

  /** What no path through the loop loses. */
  ghost predicate Kept(digest: PolicyDigest, local: RegistryState, contents: Contents, r: RegistryState) {
    && Preserves(digest, local, r)
    && (ManifestsMatch(local) ==> ManifestsMatch(r))
    && (Keyed(contents) ==> OwnKept(local, r))
  }

  /** The result of a full pass; without conflicts the imports come sorted. */
  function Summary(imports: seq<string>, conflicts: seq<Conflict>): Outcome {
    if conflicts != [] then Outcome(Conflicted, imports, conflicts)
    else Outcome(Adopted, Sorting.Sort(StringOrder.Le, imports), [])
  }

  /** What a normal return means. */
  ghost predicate Settled(
    digest: PolicyDigest, local: RegistryState, contents: Contents, r: RegistryState, outcome: Outcome)
  {
    && Digests(digest, r) == Merged(Digests(digest, local), contents.digests)
    && OwnKept(local, r)
    && ImportsExact(local, contents.digests.Keys, outcome.imported)
    && ConflictsExact(Digests(digest, local), contents.digests, contents.digests.Keys, outcome.conflicts)
    && outcome.status == (if outcome.conflicts != [] then Conflicted else Adopted)
  }

  lemma StartsClean(digest: PolicyDigest, local: RegistryState, contents: Contents)
    requires WellKeyed(local)
    ensures SoFar(digest, local, contents, {}, local, [], [])
  {
    assert Restrict(contents.digests, {}) == map[];
    assert Merged(Digests(digest, local), map[]) == Digests(digest, local);
  }

  lemma StepSucceeds(
    digest: PolicyDigest, check: ManifestCheck, trust: TrustState, local: RegistryState, contents: Contents,
    done: set<string>, r: RegistryState, id: string)
    requires Keyed(contents) && id in contents.entries && id !in done && WellKeyed(r) && OwnKept(local, r)
    ensures Acceptable(digest, check, trust, local, contents) ==>
            Step(digest, check, trust, contents, r, id).Success?
  {
    KeyedStepSucceeds(digest, check, trust, contents, r, id);
    assert Acceptable(digest, check, trust, local, contents) ==>
           EntryAcceptable(digest, check, trust, local, contents, id);
  }

  lemma EntryReconciled(
    digest: PolicyDigest, check: ManifestCheck, trust: TrustState, local: RegistryState, contents: Contents,
    done: set<string>, r: RegistryState, imports: seq<string>, conflicts: seq<Conflict>, id: string)
    requires Keyed(contents) && id in contents.entries && id !in done && WellKeyed(local)
    requires Progress(digest, local, contents, done, r, imports, conflicts)
    ensures var step := Step(digest, check, trust, contents, r, id);
      && (Acceptable(digest, check, trust, local, contents) ==> step.Success?)
      && (step.Success? ==>
            var (r', conflict) := step.value;
            Progress(digest, local, contents, done + {id}, r',
                     if id in r.policies then imports else imports + [id],
                     if conflict.Some? then conflicts + [conflict.value] else conflicts))
  {
    StepSucceeds(digest, check, trust, local, contents, done, r, id);
    if Step(digest, check, trust, contents, r, id).Success? {
      ProgressStep(digest, check, trust, local, contents, done, r, imports, conflicts, id);
    }
  }

  /** What holds in the middle of the loop, whatever the snapshot looks like. */
  ghost predicate SoFar(
    digest: PolicyDigest, local: RegistryState, contents: Contents, done: set<string>,
    r: RegistryState, imports: seq<string>, conflicts: seq<Conflict>)
  {
    && WellKeyed(r) && Preserves(digest, local, r)
    && (ManifestsMatch(local) ==> ManifestsMatch(r))
    && (Keyed(contents) ==> Progress(digest, local, contents, done, r, imports, conflicts))
  }

  /** An imported manifest is the registered policy's own. */
  lemma ImportKeepsManifests(
    digest: PolicyDigest, check: ManifestCheck, trust: TrustState, r: RegistryState, m: Manifest)
    requires ManifestsMatch(r)
    ensures var next := SignedRegistered(digest, check, trust, r, m); next.Some? ==> ManifestsMatch(next.value)
  {
    SignedKeepsIds(digest, check, trust, r, m);
  }

  lemma StepKeepsManifests(
    digest: PolicyDigest, check: ManifestCheck, trust: TrustState, contents: Contents, r: RegistryState, id: string)
    requires ManifestsMatch(r) && id in contents.entries
    requires Step(digest, check, trust, contents, r, id).Success?
    ensures ManifestsMatch(Step(digest, check, trust, contents, r, id).value.0)
  {
    StepRegisters(digest, check, trust, contents, r, id);
    if id !in r.policies {
      ImportKeepsManifests(digest, check, trust, r, ManifestOf(contents.entries[id]));
    }
  }

  /** A pass leaves the registry alone or registers the entry's manifest. */
  lemma StepRegisters(
    digest: PolicyDigest, check: ManifestCheck, trust: TrustState, contents: Contents, r: RegistryState, id: string)
    requires WellKeyed(r) && id in contents.entries && Step(digest, check, trust, contents, r, id).Success?
    ensures var r' := Step(digest, check, trust, contents, r, id).value.0;
            var e := contents.entries[id];
            if id in r.policies then r' == r
            else e.policy.Some? && e.signed.Some?
                 && SignedRegistered(digest, check, trust, r, ManifestOf(e)) == Some(r')
  {}

  lemma StepPreserves(
    digest: PolicyDigest, check: ManifestCheck, trust: TrustState, contents: Contents, r: RegistryState, id: string)
    requires WellKeyed(r) && id in contents.entries && Step(digest, check, trust, contents, r, id).Success?
    ensures var r' := Step(digest, check, trust, contents, r, id).value.0;
            WellKeyed(r') && Preserves(digest, r, r')
  {
    StepRegisters(digest, check, trust, contents, r, id);
    if id !in r.policies {
      SignedKeepsIds(digest, check, trust, r, ManifestOf(contents.entries[id]));
    }
  }

  lemma PreservesTransitive(digest: PolicyDigest, a: RegistryState, b: RegistryState, c: RegistryState)
    requires Preserves(digest, a, b) && Preserves(digest, b, c)
    ensures Preserves(digest, a, c)
  {}

  lemma EntrySoFar(
    digest: PolicyDigest, check: ManifestCheck, trust: TrustState, local: RegistryState, contents: Contents,
    done: set<string>, r: RegistryState, imports: seq<string>, conflicts: seq<Conflict>, id: string)
    requires id in contents.entries && id !in done && WellKeyed(local)
    requires SoFar(digest, local, contents, done, r, imports, conflicts)
    ensures var step := Step(digest, check, trust, contents, r, id);
      && (Keyed(contents) && Acceptable(digest, check, trust, local, contents) ==> step.Success?)
      && (step.Success? ==>
            var (r', conflict) := step.value;
            SoFar(digest, local, contents, done + {id}, r',
                  if id in r.policies then imports else imports + [id],
                  if conflict.Some? then conflicts + [conflict.value] else conflicts))
  {
    if Keyed(contents) {
      EntryReconciled(digest, check, trust, local, contents, done, r, imports, conflicts, id);
    }
    if Step(digest, check, trust, contents, r, id).Success? {
      StepPreserves(digest, check, trust, contents, r, id);
      PreservesTransitive(digest, local, r, Step(digest, check, trust, contents, r, id).value.0);
      if ManifestsMatch(local) {
        StepKeepsManifests(digest, check, trust, contents, r, id);
      }
    }
  }

  lemma AllDone(
    digest: PolicyDigest, local: RegistryState, contents: Contents, r: RegistryState,
    imports: seq<string>, conflicts: seq<Conflict>)
    requires Keyed(contents)
    requires Progress(digest, local, contents, contents.entries.Keys, r, imports, conflicts)
    ensures Settled(digest, local, contents, r, Summary(imports, conflicts))
  {
    assert Restrict(contents.digests, contents.entries.Keys) == contents.digests;
    Sorting.SortPermutes(StringOrder.Le, imports);
  }

  // ----- between organisations -----

  lemma HonestIsKeyed(digest: PolicyDigest, hash: Contents -> string, remote: RegistryState, s: Snapshot)
    requires HonestSnapshot(digest, hash, remote, s)
    ensures Keyed(s.contents) && s.contents.digests == Digests(digest, remote)
  {}

  lemma HonestEntry(
    digest: PolicyDigest, hash: Contents -> string, remote: RegistryState, s: Snapshot, id: string)
    requires HonestSnapshot(digest, hash, remote, s) && id in remote.policies
    ensures id in s.contents.entries && id in s.contents.digests
    ensures var e := s.contents.entries[id];
      && e.policy == Some(remote.policies[id]) && digest(remote.policies[id]) == s.contents.digests[id]
      && (e.signed.Some? <==> id in remote.manifests)
      && (e.signed.Some? ==> ManifestOf(e) == remote.manifests[id])
  {
    assert s.contents.entries[id] == EntryOf(remote, id);
  }

  lemma AcceptableIsImportable(
    digest: PolicyDigest, hash: Contents -> string, check: ManifestCheck, trust: TrustState,
    local: RegistryState, remote: RegistryState, s: Snapshot)
    requires HonestSnapshot(digest, hash, remote, s) && Acceptable(digest, check, trust, local, s.contents)
    ensures ImportableFrom(check, trust, local, remote)
  {
    forall id | id in remote.policies && id !in local.policies
      ensures id in remote.manifests && ManifestTrusted(check, trust, remote.manifests[id])
    {
      HonestEntry(digest, hash, remote, s, id);
    }
  }

  lemma ImportableIsAcceptable(
    digest: PolicyDigest, hash: Contents -> string, check: ManifestCheck, trust: TrustState,
    local: RegistryState, remote: RegistryState, s: Snapshot)
    requires HonestSnapshot(digest, hash, remote, s) && ImportableFrom(check, trust, local, remote)
    ensures Acceptable(digest, check, trust, local, s.contents)
  {
    forall id | id in s.contents.entries
      ensures EntryAcceptable(digest, check, trust, local, s.contents, id)
    {
      HonestEntry(digest, hash, remote, s, id);
    }
  }

  /** A honest snapshot is acceptable exactly when every unknown policy is signed by someone trusted here. */
  lemma HonestIsAcceptable(
    digest: PolicyDigest, hash: Contents -> string, check: ManifestCheck, trust: TrustState,
    local: RegistryState, remote: RegistryState, s: Snapshot)
    requires HonestSnapshot(digest, hash, remote, s)
    ensures Acceptable(digest, check, trust, local, s.contents) <==> ImportableFrom(check, trust, local, remote)
  {
    if Acceptable(digest, check, trust, local, s.contents) {
      AcceptableIsImportable(digest, hash, check, trust, local, remote, s);
    }
    if ImportableFrom(check, trust, local, remote) {
      ImportableIsAcceptable(digest, hash, check, trust, local, remote, s);
    }
  }

  /** What is acceptable stays so as more becomes known. */
  lemma AcceptableAgain(
    digest: PolicyDigest, check: ManifestCheck, trust: TrustState, local: RegistryState, after: RegistryState,
    contents: Contents)
    requires Acceptable(digest, check, trust, local, contents) && OwnKept(local, after)
    ensures Acceptable(digest, check, trust, after, contents)
  {
    forall id | id in contents.entries ensures EntryAcceptable(digest, check, trust, after, contents, id) {
      assert EntryAcceptable(digest, check, trust, local, contents, id);
    }
  }

  /** What a normal return from a honest snapshot leaves behind. */
  ghost predicate Reconciled(
    digest: PolicyDigest, hash: Contents -> string, local: RegistryState, s: Snapshot,
    after: RegistryState, outcome: Outcome)
  {
    if outcome.status == Identical then
      && after == local && outcome == Outcome(Identical, [], [])
      && local.versions.Keys == local.policies.Keys
      && hash(ContentsOf(digest, local, s.contents.version)) == s.snapshotDigest
    else Settled(digest, local, s.contents, after, outcome)
  }

  ghost predicate CollisionFree(hash: Contents -> string) {
    forall a, b :: hash(a) == hash(b) ==> a == b
  }

  /** What the digest maps say about one reconciliation. */
  ghost predicate MergedInto(
    digest: PolicyDigest, local: RegistryState, remote: RegistryState, after: RegistryState, outcome: Outcome)
  {
    && Digests(digest, after) == Merged(Digests(digest, local), Digests(digest, remote))
    && OwnKept(local, after)
    && ImportsExact(local, remote.policies.Keys, outcome.imported)
    && ConflictsExact(Digests(digest, local), Digests(digest, remote), remote.policies.Keys, outcome.conflicts)
  }

  lemma IdenticalMeansSame(
    digest: PolicyDigest, hash: Contents -> string, local: RegistryState, remote: RegistryState, s: Snapshot)
    requires CollisionFree(hash) && HonestSnapshot(digest, hash, remote, s)
    requires local.versions.Keys == local.policies.Keys
    requires hash(ContentsOf(digest, local, s.contents.version)) == s.snapshotDigest
    ensures Digests(digest, local) == Digests(digest, remote) && local.policies.Keys == remote.policies.Keys
  {
    assert ContentsOf(digest, local, s.contents.version) == s.contents;
    assert Digests(digest, local) == Digests(digest, remote);
    assert Digests(digest, local).Keys == Digests(digest, remote).Keys;
    assert local.policies.Keys == Digests(digest, local).Keys;
    assert remote.policies.Keys == Digests(digest, remote).Keys;
  }

  /**
   * Reconciling is a local-wins merge: the id-to-digest map is the local one
   * extended by exactly the unknown remote ids, and the conflicts are exactly
   * the shared ids with different digests, also when the snapshots are found
   * identical.
   */
  lemma LocalWins(
    digest: PolicyDigest, hash: Contents -> string, local: RegistryState, remote: RegistryState, s: Snapshot,
    after: RegistryState, outcome: Outcome)
    requires CollisionFree(hash)
    requires HonestSnapshot(digest, hash, remote, s) && Reconciled(digest, hash, local, s, after, outcome)
    ensures MergedInto(digest, local, remote, after, outcome)
  {
    if outcome.status == Identical {
      IdenticalMeansSame(digest, hash, local, remote, s);
      MergedSelf(Digests(digest, local));
    } else {
      HonestIsKeyed(digest, hash, remote, s);
      assert s.contents.digests.Keys == remote.policies.Keys;
    }
  }

  lemma MergedSelf(m: map<string, string>)
    ensures Merged(m, m) == m
    ensures forall ids :: ConflictsExact(m, m, ids, [])
  {}

  lemma MergedAgain(mine: map<string, string>, theirs: map<string, string>)
    ensures Merged(Merged(mine, theirs), theirs) == Merged(mine, theirs)
    ensures forall c :: IsConflict(Merged(mine, theirs), theirs, c) <==> IsConflict(mine, theirs, c)
  {}

  /** Reconciling the same snapshot again, under a new nonce, imports nothing and finds the same conflicts. */
  lemma SecondTimeImportsNothing(
    digest: PolicyDigest, hash: Contents -> string, local: RegistryState, remote: RegistryState, s: Snapshot,
    after: RegistryState, outcome: Outcome, again: RegistryState, second: Outcome)
    requires CollisionFree(hash) && HonestSnapshot(digest, hash, remote, s)
    requires Reconciled(digest, hash, local, s, after, outcome) && Reconciled(digest, hash, after, s, again, second)
    ensures second.imported == [] && Digests(digest, again) == Digests(digest, after)
    ensures forall c :: c in second.conflicts <==> c in outcome.conflicts
  {
    LocalWins(digest, hash, local, remote, s, after, outcome);
    LocalWins(digest, hash, after, remote, s, again, second);
    SecondMerge(digest, local, remote, after, outcome, again, second);
  }

  lemma FirstIsMember<T>(s: seq<T>)
    ensures s == [] || s[0] in s
  {}

  lemma SecondMerge(
    digest: PolicyDigest, local: RegistryState, remote: RegistryState,
    after: RegistryState, outcome: Outcome, again: RegistryState, second: Outcome)
    requires MergedInto(digest, local, remote, after, outcome) && MergedInto(digest, after, remote, again, second)
    ensures second.imported == [] && Digests(digest, again) == Digests(digest, after)
    ensures forall c :: c in second.conflicts <==> c in outcome.conflicts
  {
    MergedAgain(Digests(digest, local), Digests(digest, remote));
    NothingUnknown(digest, local, remote, after);
    FirstIsMember(second.imported);
  }

  lemma NothingUnknown(digest: PolicyDigest, local: RegistryState, remote: RegistryState, after: RegistryState)
    requires Digests(digest, after) == Merged(Digests(digest, local), Digests(digest, remote))
    ensures remote.policies.Keys <= after.policies.Keys
  {
    assert after.policies.Keys == Digests(digest, after).Keys;
    assert remote.policies.Keys == Digests(digest, remote).Keys;
  }

  ghost predicate ConflictFree(mine: map<string, string>, theirs: map<string, string>) {
    forall id | id in mine && id in theirs :: mine[id] == theirs[id]
  }

  lemma ConflictFreeMerges(mine: map<string, string>, theirs: map<string, string>)
    ensures ConflictFree(mine, theirs) <==> Merged(mine, theirs) == Merged(theirs, mine)
  {
    if Merged(mine, theirs) == Merged(theirs, mine) {
      forall id | id in mine && id in theirs ensures mine[id] == theirs[id] {
        assert Merged(mine, theirs)[id] == mine[id] && Merged(theirs, mine)[id] == theirs[id];
      }
    }
  }

  lemma NoConflictsMeansFree(mine: map<string, string>, theirs: map<string, string>, conflicts: seq<Conflict>)
    requires ConflictsExact(mine, theirs, theirs.Keys, conflicts)
    ensures conflicts == [] <==> ConflictFree(mine, theirs)
  {
    if conflicts != [] {
      assert conflicts[0] in conflicts;
    }
    forall id | id in mine && id in theirs && conflicts == [] ensures mine[id] == theirs[id] {
      assert Conflict(id, mine[id], theirs[id]) !in conflicts;
    }
  }

  /**
   * Two organisations that reconcile each other's snapshots agree on whether
   * there are conflicts, and end up with the same policies exactly when there are none.
   */
  lemma MutualConvergence(
    digest: PolicyDigest, hash: Contents -> string,
    a: RegistryState, b: RegistryState, ofA: Snapshot, ofB: Snapshot,
    a': RegistryState, b': RegistryState, atA: Outcome, atB: Outcome)
    requires CollisionFree(hash)
    requires HonestSnapshot(digest, hash, a, ofA) && HonestSnapshot(digest, hash, b, ofB)
    requires Reconciled(digest, hash, a, ofB, a', atA) && Reconciled(digest, hash, b, ofA, b', atB)
    ensures atA.conflicts == [] <==> atB.conflicts == []
    ensures atA.conflicts == [] <==> Digests(digest, a') == Digests(digest, b')
    ensures atA.conflicts == [] <==> ConflictFree(Digests(digest, a), Digests(digest, b))
  {
    LocalWins(digest, hash, a, b, ofB, a', atA);
    LocalWins(digest, hash, b, a, ofA, b', atB);
    MutualMerge(digest, a, b, a', b', atA, atB);
  }

  lemma MutualMerge(
    digest: PolicyDigest, a: RegistryState, b: RegistryState,
    a': RegistryState, b': RegistryState, atA: Outcome, atB: Outcome)
    requires MergedInto(digest, a, b, a', atA) && MergedInto(digest, b, a, b', atB)
    ensures atA.conflicts == [] <==> atB.conflicts == []
    ensures atA.conflicts == [] <==> Digests(digest, a') == Digests(digest, b')
    ensures atA.conflicts == [] <==> ConflictFree(Digests(digest, a), Digests(digest, b))
  {
    var mine, theirs := Digests(digest, a), Digests(digest, b);
    assert a.policies.Keys == mine.Keys && b.policies.Keys == theirs.Keys;
    NoConflictsMeansFree(mine, theirs, atA.conflicts);
    NoConflictsMeansFree(theirs, mine, atB.conflicts);
    ConflictFreeMerges(mine, theirs);
  }

  /** An admitted envelope with an acceptable honest snapshot: the call returns normally. */
  method ReconcileHonest(rec: GovernanceReconciler, ghost remote: RegistryState, envelope: Envelope)
    returns (outcome: Outcome)
    requires rec.registry.Valid()
    requires HonestSnapshot(rec.registry.digest, rec.hash, remote, envelope.snapshot)
    requires rec.Refusal(envelope, true).None?
    requires Acceptable(rec.registry.digest, rec.check, rec.trustStore.Value(), rec.registry.Value(), envelope.snapshot.contents)
    modifies rec`seenNonces, rec.registry
    ensures rec.registry.Valid() && OwnKept(old(rec.registry.Value()), rec.registry.Value())
    ensures rec.seenNonces == old(rec.seenNonces) + {(envelope.event.sourceOrg, envelope.event.nonce)}
    ensures Reconciled(
              rec.registry.digest, rec.hash, old(rec.registry.Value()), envelope.snapshot, rec.registry.Value(), outcome)
  {
    HonestIsKeyed(rec.registry.digest, rec.hash, remote, envelope.snapshot);
    var r := rec.Reconcile(envelope, true);
    outcome := r.value;
  }

  /**
   * Reconcile the same honest snapshot twice, under two nonces: both calls
   * return normally, and the second imports nothing and changes no digest.
   */
  method ReconcileAgain(rec: GovernanceReconciler, ghost remote: RegistryState, first: Envelope, second: Envelope)
    returns (outcome: Outcome, again: Outcome)
    requires rec.registry.Valid() && CollisionFree(rec.hash)
    requires HonestSnapshot(rec.registry.digest, rec.hash, remote, first.snapshot) && second.snapshot == first.snapshot
    requires rec.Refusal(first, true).None? && rec.Refusal(second, true).None?
    requires (first.event.sourceOrg, first.event.nonce) != (second.event.sourceOrg, second.event.nonce)
    requires ImportableFrom(rec.check, rec.trustStore.Value(), rec.registry.Value(), remote)
    modifies rec`seenNonces, rec.registry
    ensures rec.registry.Valid()
    ensures MergedInto(rec.registry.digest, old(rec.registry.Value()), remote, rec.registry.Value(), outcome)
    ensures again.imported == [] && forall c :: c in again.conflicts <==> c in outcome.conflicts
  {
    ghost var digest, contents := rec.registry.digest, first.snapshot.contents;
    ghost var local, trust := rec.registry.Value(), rec.trustStore.Value();
    HonestIsAcceptable(digest, rec.hash, rec.check, trust, local, remote, first.snapshot);
    outcome := ReconcileHonest(rec, remote, first);
    ghost var after := rec.registry.Value();
    AcceptableAgain(digest, rec.check, trust, local, after, contents);
    again := ReconcileHonest(rec, remote, second);
    LocalWins(digest, rec.hash, local, remote, first.snapshot, after, outcome);
    SecondTimeImportsNothing(
      digest, rec.hash, local, remote, first.snapshot, after, outcome, rec.registry.Value(), again);
  }

  /**
   * Two organisations reconcile each other's honest snapshots, every policy
   * unknown to the other being signed by a key the other trusts: both calls
   * return normally, and the digest maps are equal exactly when the shared ids
   * had equal digests.
   */
  method ReconcileEachOther(a: GovernanceReconciler, b: GovernanceReconciler, ofA: Envelope, ofB: Envelope)
    returns (atA: Outcome, atB: Outcome)
    requires a != b && a.registry != b.registry && a.registry.Valid() && b.registry.Valid()
    requires a.registry.digest == b.registry.digest && a.hash == b.hash && CollisionFree(a.hash)
    requires HonestSnapshot(a.registry.digest, a.hash, a.registry.Value(), ofA.snapshot)
    requires HonestSnapshot(b.registry.digest, b.hash, b.registry.Value(), ofB.snapshot)
    requires a.Refusal(ofB, true).None? && b.Refusal(ofA, true).None?
    requires ImportableFrom(a.check, a.trustStore.Value(), a.registry.Value(), b.registry.Value())
    requires ImportableFrom(b.check, b.trustStore.Value(), b.registry.Value(), a.registry.Value())
    modifies a`seenNonces, b`seenNonces, a.registry, b.registry
    ensures a.registry.Valid() && b.registry.Valid()
    ensures atA.conflicts == [] <==> atB.conflicts == []
    ensures Digests(a.registry.digest, a.registry.Value()) == Digests(b.registry.digest, b.registry.Value()) <==>
      old(ConflictFree(Digests(a.registry.digest, a.registry.Value()), Digests(b.registry.digest, b.registry.Value())))
  {
    ghost var digest, hash := a.registry.digest, a.hash;
    ghost var mine, theirs := a.registry.Value(), b.registry.Value();
    HonestIsAcceptable(digest, hash, a.check, a.trustStore.Value(), mine, theirs, ofB.snapshot);
    HonestIsAcceptable(digest, hash, b.check, b.trustStore.Value(), theirs, mine, ofA.snapshot);
    atA := ReconcileHonest(a, theirs, ofB);
    atB := ReconcileHonest(b, mine, ofA);
    MutualConvergence(
      digest, hash, mine, theirs, ofA.snapshot, ofB.snapshot, a.registry.Value(), b.registry.Value(), atA, atB);
  }

  // ----- snapshots on the wire -----

  /** What a snapshot digest is taken over: `from_registry` leaves the organisation out, `from_dict` puts it in. */
  datatype Document = Bare(contents: Contents) | Owned(sourceOrg: string, contents: Contents)

  datatype ParseError = SnapshotDigestMismatch | IdsDiffer | UnstableId

  /** `RegistrySnapshot.from_dict` on an object of the right shape. */
  function ParseSnapshot(seal: Document -> string, s: Snapshot): Result<Snapshot, ParseError> {
    var entries := s.contents.entries;
    if seal(Owned(s.sourceOrg, s.contents)) != s.snapshotDigest then Failure(SnapshotDigestMismatch)
    else if entries.Keys != s.contents.digests.Keys then Failure(IdsDiffer)
    else if exists id | id in entries :: entries[id].policy.Some? && entries[id].policy.value.policyId != id then
      Failure(UnstableId)
    else Success(s)
  }

  /** What parses is keyed. */
  lemma ParsedIsKeyed(seal: Document -> string, s: Snapshot)
    ensures ParseSnapshot(seal, s).Success? <==>
            seal(Owned(s.sourceOrg, s.contents)) == s.snapshotDigest && Keyed(s.contents)
  {}

  datatype ReceiveError = NotParsed(error: ParseError) | NotReconciled(why: Error)

  /**
   * An envelope off the wire: its snapshot is parsed and then reconciled, so
   * whatever arrives can only merge. What is registered stays as it is, and
   * what does not parse changes nothing.
   */
  method Receive(rec: GovernanceReconciler, seal: Document -> string, envelope: Envelope, verified: bool)
    returns (r: Result<Outcome, ReceiveError>)
    requires rec.registry.Valid()
    modifies rec`seenNonces, rec.registry
    ensures rec.registry.Valid() && OwnKept(old(rec.registry.Value()), rec.registry.Value())
    ensures ManifestsMatch(old(rec.registry.Value())) ==> ManifestsMatch(rec.registry.Value())
    ensures var parsed := ParseSnapshot(seal, envelope.snapshot);
      && (parsed.Failure? ==> r == Failure(NotParsed(parsed.error)) && rec.seenNonces == old(rec.seenNonces))
      && (r.Failure? && r.error.NotParsed? ==> rec.registry.Value() == old(rec.registry.Value()))
    ensures r.Success? && r.value.status != Identical ==>
      Settled(rec.registry.digest, old(rec.registry.Value()), envelope.snapshot.contents, rec.registry.Value(), r.value)
    ensures ParseSnapshot(seal, envelope.snapshot).Success? && old(rec.Refusal(envelope, verified)).None?
      && Acceptable(
           rec.registry.digest, rec.check, rec.trustStore.Value(), old(rec.registry.Value()), envelope.snapshot.contents)
      ==> r.Success?
  {
    var parsed := ParseSnapshot(seal, envelope.snapshot);
    if parsed.Failure? {
      return Failure(NotParsed(parsed.error));
    }
    ParsedIsKeyed(seal, envelope.snapshot);
    var reconciled := rec.Reconcile(envelope, verified);
    r := if reconciled.Success? then Success(reconciled.value) else Failure(NotReconciled(reconciled.error));
  }

  /** No snapshot built by `from_registry` survives the wire: its digest leaves out what the parser puts in. */
  lemma WireRoundTripFails(seal: Document -> string, s: Snapshot)
    requires forall a, b :: seal(a) == seal(b) ==> a == b
    requires s.snapshotDigest == seal(Bare(s.contents))
    ensures ParseSnapshot(seal, s) == Failure(SnapshotDigestMismatch)
  {
    assert Owned(s.sourceOrg, s.contents) != Bare(s.contents);
  }
}
