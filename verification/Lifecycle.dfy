/**
 * `VersionedPolicyRegistry`: lifecycle states, compare-and-swap activation,
 * history, revisions and state snapshots.
 *
 * Whether a stored record still matches its digest, and whether its signature
 * verifies under the keys trusted at the moment, come from outside: `Check`.
 */
module Lifecycle {
  import opened Wrappers

  datatype Lifecycle = Draft | Published | Active | Deprecated | Revoked

  datatype Key = Key(policyId: string, version: string)

  /** What version is selected, and how often the selection changed. Version "" means none any more. */
  datatype Selection = Selection(version: string, revision: int)

  datatype Event = Event(
    policyId: string, previousVersion: Option<string>, selectedVersion: string,
    requestedBy: string, reason: string, timestamp: string, revision: int, operation: string)

  datatype Check = Check(digestValid: bool, signatureValid: bool)

  datatype Error =
    | InvalidPolicy
    | Immutable
    | NotFound
    | Integrity
    | BadSignature
    | WrongLifecycle
    | RevisionConflict

  datatype Registry = Registry(
    stored: map<Key, string>,
    states: map<Key, Lifecycle>,
    active: map<string, Selection>,
    history: map<string, seq<Event>>)

  const EMPTY := Registry(map[], map[], map[], map[])

  /** One call. `stored` maps a version to its content hash. */
  datatype Op =
    | Register(key: Key, contentHash: string)
    | Publish(key: Key, contentHash: string, check: Check)
    | Activate(
        key: Key, requestedBy: string, reason: string, expected: Option<int>,
        timestamp: string, operation: string, check: Check)
    | Deprecate(key: Key, check: Check)
    | Revoke(key: Key, check: Check)

  function StateOf(r: Registry, key: Key): Lifecycle {
    if key in r.states then r.states[key] else Published
  }

  function RevisionOf(r: Registry, policyId: string): int {
    if policyId in r.active then r.active[policyId].revision else 0
  }

  function HistoryOf(r: Registry, policyId: string): seq<Event> {
    if policyId in r.history then r.history[policyId] else []
  }

  function CurrentVersion(r: Registry, policyId: string): Option<string> {
    if policyId in r.active then Some(r.active[policyId].version) else None
  }

  /** The error a call raises. No version string is empty, so version "" is never stored. */
  function ErrorOf(r: Registry, op: Op): Option<Error> {
    match op
    case Register(key, contentHash) =>
      if key.version == "" then Some(InvalidPolicy)
      else if key in r.stored && r.stored[key] != contentHash then Some(Immutable)
      else None
    case Publish(key, _, check) =>
      if key.version == "" then Some(InvalidPolicy)
      else if key in r.stored then Some(Immutable)
      else if !check.digestValid || !check.signatureValid then Some(BadSignature)
      else None
    case Activate(key, who, reason, expected, _, _, check) =>
      if who == "" || reason == "" then Some(WrongLifecycle)
      else if key !in r.stored then Some(NotFound)
      else if !check.digestValid then Some(Integrity)
      else if !check.signatureValid then Some(BadSignature)
      else if StateOf(r, key) != Published && StateOf(r, key) != Active then Some(WrongLifecycle)
      else if expected.Some? && expected.value != RevisionOf(r, key.policyId) then Some(RevisionConflict)
      else if CurrentVersion(r, key.policyId) == Some(key.version) then Some(WrongLifecycle)
      else None
    case Deprecate(key, check) =>
      if key !in r.stored then Some(NotFound)
      else if !check.digestValid then Some(Integrity)
      else if StateOf(r, key) == Active || StateOf(r, key) == Revoked then Some(WrongLifecycle)
      else None
    case Revoke(key, check) =>
      if key !in r.stored then Some(NotFound)
      else if !check.digestValid then Some(Integrity)
      else None
  }

  function EventOf(r: Registry, op: Op): Event
    requires op.Activate?
  {
    Event(op.key.policyId, CurrentVersion(r, op.key.policyId), op.key.version, op.requestedBy, op.reason,
          op.timestamp, RevisionOf(r, op.key.policyId) + 1, op.operation)
  }

  /** The registry after a call; a call that raises changes nothing. */
  function Apply(r: Registry, op: Op): Registry {
    if ErrorOf(r, op).Some? then r
    else
      var p := op.key.policyId;
      match op
      case Register(key, contentHash) =>
        if key in r.stored then r
        else r.(stored := r.stored[key := contentHash], states := r.states[key := Published])
      case Publish(key, contentHash, _) =>
        r.(stored := r.stored[key := contentHash], states := r.states[key := Published])
      case Activate(key, _, _, _, _, _, _) =>
        var current := CurrentVersion(r, p);
        var demoted := if current.Some? then r.states[Key(p, current.value) := Published] else r.states;
        r.(states := demoted[key := Active],
           active := r.active[p := Selection(key.version, RevisionOf(r, p) + 1)],
           history := r.history[p := HistoryOf(r, p) + [EventOf(r, op)]])
      case Deprecate(key, _) => r.(states := r.states[key := Deprecated])
      case Revoke(key, _) =>
        r.(states := r.states[key := Revoked],
           active := if CurrentVersion(r, p) == Some(key.version)
                     then r.active[p := Selection("", r.active[p].revision + 1)] else r.active)
  }

  function Run(r: Registry, ops: seq<Op>): Registry
    decreases |ops|
  {
    if ops == [] then r else Run(Apply(r, ops[0]), ops[1..])
  }

  // ----- the joint invariant -----

  /** The version is the selected one of its policy. */
  predicate Selected(r: Registry, key: Key) {
    CurrentVersion(r, key.policyId) == Some(key.version)
  }

  /** Events of one policy, oldest first. */
  ghost predicate HistoryChained(events: seq<Event>) {
    && (events != [] ==> events[0].revision == 1 && events[0].previousVersion == None)
    && (forall i | 0 <= i < |events| :: events[i].selectedVersion != "")
    && (forall i | 0 < i < |events| :: Follows(events[i - 1], events[i]))
  }

  /** A later event is one revision on from the earlier, or two when the earlier's version was revoked in between. */
  predicate Follows(e: Event, f: Event) {
    || (f.previousVersion == Some(e.selectedVersion) && f.revision == e.revision + 1)
    || (f.previousVersion == Some("") && f.revision == e.revision + 2)
  }

  /** The selection is the last event's, unless its version was revoked since. */
  ghost predicate SelectionCurrent(r: Registry, p: string) {
    var events := HistoryOf(r, p);
    if events == [] then p !in r.active
    else
      var last := events[|events| - 1];
      && p in r.active
      && (r.active[p] == Selection(last.selectedVersion, last.revision)
          || r.active[p] == Selection("", last.revision + 1))
  }

  ghost predicate Inv(r: Registry) {
    && (forall key | key in r.stored :: key.version != "")
    && (forall key | key in r.states :: key in r.stored || (key.version == "" && r.states[key] == Published))
    && (forall key: Key | key.version != "" :: StateOf(r, key) == Active <==> Selected(r, key))
    && (forall p :: HistoryChained(HistoryOf(r, p)) && SelectionCurrent(r, p))
  }

  lemma ActivateKeepsStates(r: Registry, op: Op)
    requires Inv(r) && op.Activate? && ErrorOf(r, op).None?
    ensures var r' := Apply(r, op);
      && (forall key | key in r'.states :: key in r'.stored || (key.version == "" && r'.states[key] == Published))
      && (forall key: Key | key.version != "" :: StateOf(r', key) == Active <==> Selected(r', key))
  {
    var r' := Apply(r, op);
    var p, current := op.key.policyId, CurrentVersion(r, op.key.policyId);
    assert SelectionCurrent(r, p);
    if current.Some? && current.value != "" {
      assert StateOf(r, Key(p, current.value)) == Active;
    }
    forall key: Key | key.version != "" ensures StateOf(r', key) == Active <==> Selected(r', key) {
      assert StateOf(r, key) == Active <==> Selected(r, key);
    }
  }

  lemma ActivateKeepsHistory(r: Registry, op: Op, p: string)
    requires Inv(r) && op.Activate? && ErrorOf(r, op).None?
    ensures HistoryChained(HistoryOf(Apply(r, op), p)) && SelectionCurrent(Apply(r, op), p)
  {
    assert HistoryChained(HistoryOf(r, p)) && SelectionCurrent(r, p);
  }

  lemma QuietKeepsHistory(r: Registry, op: Op, p: string)
    requires Inv(r) && !op.Activate? && ErrorOf(r, op).None?
    ensures HistoryChained(HistoryOf(Apply(r, op), p)) && SelectionCurrent(Apply(r, op), p)
  {
    assert HistoryChained(HistoryOf(r, p)) && SelectionCurrent(r, p);
    assert HistoryOf(Apply(r, op), p) == HistoryOf(r, p);
  }

  lemma QuietKeepsStates(r: Registry, op: Op)
    requires Inv(r) && !op.Activate? && ErrorOf(r, op).None?
    ensures var r' := Apply(r, op);
      && (forall key | key in r'.states :: key in r'.stored || (key.version == "" && r'.states[key] == Published))
      && (forall key: Key | key.version != "" :: StateOf(r', key) == Active <==> Selected(r', key))
  {
    var r' := Apply(r, op);
    assert op.key.version != "";
    assert op.key !in r.stored ==> op.key !in r.states;
    assert StateOf(r, op.key) == Active <==> Selected(r, op.key);
    forall key: Key | key.version != "" ensures StateOf(r', key) == Active <==> Selected(r', key) {
      assert StateOf(r, key) == Active <==> Selected(r, key);
    }
  }

  lemma ApplyKeepsInv(r: Registry, op: Op)
    requires Inv(r)
    ensures Inv(Apply(r, op))
  {
    if ErrorOf(r, op).None? {
      var r' := Apply(r, op);
      if op.Activate? { ActivateKeepsStates(r, op); } else { QuietKeepsStates(r, op); }
      forall p ensures HistoryChained(HistoryOf(r', p)) && SelectionCurrent(r', p) {
        if op.Activate? { ActivateKeepsHistory(r, op, p); } else { QuietKeepsHistory(r, op, p); }
      }
    }
  }

  lemma {:induction false} RunKeepsInv(r: Registry, ops: seq<Op>)
    requires Inv(r)
    ensures Inv(Run(r, ops))
    decreases |ops|
  {
    if ops != [] {
      ApplyKeepsInv(r, ops[0]);
      RunKeepsInv(Apply(r, ops[0]), ops[1..]);
    }
  }

  /** In every reachable registry a version is active exactly when it is selected, so at most one per policy is. */
  lemma ActiveMeansSelected(ops: seq<Op>, policyId: string, v: string, w: string)
    requires v != "" && w != ""
    ensures var r := Run(EMPTY, ops);
      && (StateOf(r, Key(policyId, v)) == Active <==> Selected(r, Key(policyId, v)))
      && (StateOf(r, Key(policyId, v)) == Active && StateOf(r, Key(policyId, w)) == Active ==> v == w)
  {
    RunKeepsInv(EMPTY, ops);
  }

  // ----- terminal states -----

  /** How a stored version may move on. */
  predicate MayBecome(before: Lifecycle, after: Lifecycle) {
    && (before == Revoked ==> after == Revoked)
    && (before == Deprecated ==> after == Deprecated || after == Revoked)
  }

  lemma StepMayBecome(r: Registry, op: Op, key: Key)
    requires Inv(r) && key in r.stored
    ensures key in Apply(r, op).stored && MayBecome(StateOf(r, key), StateOf(Apply(r, op), key))
  {
    assert StateOf(r, key) == Active <==> Selected(r, key);
  }

  /** Revoked is terminal and deprecated leads only to revoked, in spite of `activate` writing PUBLISHED blindly. */
  lemma {:induction false} TerminalStates(r: Registry, ops: seq<Op>, key: Key)
    requires Inv(r) && key in r.stored
    ensures MayBecome(StateOf(r, key), StateOf(Run(r, ops), key))
    decreases |ops|
  {
    if ops != [] {
      StepMayBecome(r, ops[0], key);
      ApplyKeepsInv(r, ops[0]);
      TerminalStates(Apply(r, ops[0]), ops[1..], key);
    }
  }

  // ----- revisions -----

  /** The call revokes the version that is selected. */
  predicate RevokesSelected(r: Registry, op: Op, p: string) {
    op.Revoke? && op.key.policyId == p && ErrorOf(r, op).None? && Selected(r, op.key)
  }

  /** How often a run revokes the selected version of the policy. */
  function ActiveRevocations(r: Registry, ops: seq<Op>, p: string): nat
    decreases |ops|
  {
    if ops == [] then 0
    else
      (if RevokesSelected(r, ops[0], p) then 1 else 0) + ActiveRevocations(Apply(r, ops[0]), ops[1..], p)
  }

  lemma RevisionStep(r: Registry, op: Op, p: string)
    ensures RevisionOf(Apply(r, op), p) - RevisionOf(r, p) ==
            |HistoryOf(Apply(r, op), p)| - |HistoryOf(r, p)| + (if RevokesSelected(r, op, p) then 1 else 0)
    ensures HistoryOf(r, p) <= HistoryOf(Apply(r, op), p)
  {}

  lemma {:induction false} RevisionsGrow(r: Registry, ops: seq<Op>, p: string)
    ensures RevisionOf(Run(r, ops), p) - RevisionOf(r, p) ==
            |HistoryOf(Run(r, ops), p)| - |HistoryOf(r, p)| + ActiveRevocations(r, ops, p)
    ensures HistoryOf(r, p) <= HistoryOf(Run(r, ops), p)
    decreases |ops|
  {
    if ops != [] {
      RevisionStep(r, ops[0], p);
      RevisionsGrow(Apply(r, ops[0]), ops[1..], p);
    }
  }

  /**
   * The revision counts the history events plus the revocations of the selected
   * version, and consecutive events are one revision apart, or two exactly when
   * the later one found no version selected.
   */
  lemma RevisionAccounting(ops: seq<Op>, p: string)
    ensures var r := Run(EMPTY, ops);
            var events := HistoryOf(r, p);
      && RevisionOf(r, p) == |events| + ActiveRevocations(EMPTY, ops, p)
      && (forall i | 0 < i < |events| ::
            && events[i].revision - events[i - 1].revision in {1, 2}
            && (events[i].revision - events[i - 1].revision == 2 <==> events[i].previousVersion == Some("")))
  {
    RevisionsGrow(EMPTY, ops, p);
    RunKeepsInv(EMPTY, ops);
    var events := HistoryOf(Run(EMPTY, ops), p);
    assert HistoryChained(events);
    forall i | 0 < i < |events|
      ensures events[i].revision - events[i - 1].revision in {1, 2}
      ensures events[i].revision - events[i - 1].revision == 2 <==> events[i].previousVersion == Some("")
    {
      assert Follows(events[i - 1], events[i]);
    }
  }

  /** At most one activation carrying a given expected revision ever succeeds. */
  lemma NoAba(r: Registry, first: Op, between: seq<Op>, second: Op)
    requires Inv(r)
    requires first.Activate? && second.Activate? && first.key.policyId == second.key.policyId
    requires first.expected.Some? && second.expected == first.expected
    requires ErrorOf(r, first).None?
    ensures ErrorOf(Run(Apply(r, first), between), second).Some?
  {
    ApplyKeepsInv(r, first);
    RevisionsGrow(Apply(r, first), between, first.key.policyId);
  }

  // ----- snapshots -----

  /** What the state file holds: states grouped by policy. */
  datatype Snapshot = Snapshot(
    states: map<string, map<string, Lifecycle>>, active: map<string, Selection>, history: map<string, seq<Event>>)

  ghost predicate Groups(nested: map<string, map<string, Lifecycle>>, flat: map<Key, Lifecycle>) {
    && (forall key | key in flat ::
          && key.policyId in nested && key.version in nested[key.policyId]
          && nested[key.policyId][key.version] == flat[key])
    && (forall p, v | p in nested && v in nested[p] :: Key(p, v) in flat)
  }

  ghost predicate IsSnapshotOf(snapshot: Snapshot, r: Registry) {
    Groups(snapshot.states, r.states) && snapshot.active == r.active && snapshot.history == r.history
  }

  /** A grouping determines what it groups. */
  lemma GroupsDetermines(nested: map<string, map<string, Lifecycle>>, a: map<Key, Lifecycle>, b: map<Key, Lifecycle>)
    requires Groups(nested, a) && Groups(nested, b)
    ensures a == b
  {
    assert forall key | key in a :: Key(key.policyId, key.version) in b;
    assert forall key | key in b :: Key(key.policyId, key.version) in a;
  }

  lemma GroupsStep(
    nested: map<string, map<string, Lifecycle>>, flat: map<Key, Lifecycle>, key: Key, state: Lifecycle)
    requires Groups(nested, flat)
    ensures var versions := if key.policyId in nested then nested[key.policyId] else map[];
            Groups(nested[key.policyId := versions[key.version := state]], flat[key := state])
  {}

  method GroupStates(states: map<Key, Lifecycle>) returns (nested: map<string, map<string, Lifecycle>>)
    ensures Groups(nested, states)
  {
    nested := map[];
    var todo := states.Keys;
    ghost var done: map<Key, Lifecycle> := map[];
    while todo != {}
      invariant todo <= states.Keys && done.Keys == states.Keys - todo
      invariant forall key | key in done :: done[key] == states[key]
      invariant Groups(nested, done)
      decreases todo
    {
      var key :| key in todo;
      GroupsStep(nested, done, key, states[key]);
      var versions := if key.policyId in nested then nested[key.policyId] else map[];
      nested := nested[key.policyId := versions[key.version := states[key]]];
      done := done[key := states[key]];
      todo := todo - {key};
    }
    assert done == states;
  }

  /** The states of one policy, with those already flattened. */
  method FlattenPolicy(p: string, versions: map<string, Lifecycle>, start: map<Key, Lifecycle>)
    returns (flat: map<Key, Lifecycle>)
    requires forall v :: Key(p, v) !in start
    ensures forall key :: key in flat <==> key in start || (key.policyId == p && key.version in versions)
    ensures forall key | key in flat :: flat[key] == if key.policyId == p then versions[key.version] else start[key]
  {
    flat := start;
    var todo := versions.Keys;
    while todo != {}
      invariant todo <= versions.Keys
      invariant forall key :: key in flat <==>
        key in start || (key.policyId == p && key.version in versions && key.version !in todo)
      invariant forall key | key in flat :: flat[key] == if key.policyId == p then versions[key.version] else start[key]
      decreases todo
    {
      var v :| v in todo;
      flat := flat[Key(p, v) := versions[v]];
      todo := todo - {v};
    }
  }

  method FlattenStates(nested: map<string, map<string, Lifecycle>>) returns (flat: map<Key, Lifecycle>)
    ensures Groups(nested, flat)
  {
    flat := map[];
    var todo := nested.Keys;
    while todo != {}
      invariant todo <= nested.Keys
      invariant forall key :: key in flat <==>
        key.policyId in nested && key.policyId !in todo && key.version in nested[key.policyId]
      invariant forall key | key in flat :: flat[key] == nested[key.policyId][key.version]
      decreases todo
    {
      var p :| p in todo;
      flat := FlattenPolicy(p, nested[p], flat);
      todo := todo - {p};
    }
  }

  /** `_load_state`: None when a revision is negative. */
  method LoadState(stored: map<Key, string>, snapshot: Snapshot) returns (r: Option<Registry>)
    ensures r.None? <==> exists p :: p in snapshot.active && snapshot.active[p].revision < 0
    ensures r.Some? ==> r.value.stored == stored && IsSnapshotOf(snapshot, r.value)
  {
    var states := FlattenStates(snapshot.states);
    var todo := snapshot.active.Keys;
    var active: map<string, Selection> := map[];
    while todo != {}
      invariant todo <= snapshot.active.Keys
      invariant active.Keys == snapshot.active.Keys - todo
      invariant forall p | p in active :: active[p] == snapshot.active[p] && active[p].revision >= 0
      decreases todo
    {
      var p :| p in todo;
      if snapshot.active[p].revision < 0 {
        return None;
      }
      active := active[p := snapshot.active[p]];
      todo := todo - {p};
    }
    assert active == snapshot.active;
    return Some(Registry(stored, states, active, snapshot.history));
  }

  lemma {:induction false} RevisionsPositive(events: seq<Event>, i: nat)
    requires HistoryChained(events) && i < |events|
    ensures events[i].revision >= 1
  {
    if i > 0 {
      RevisionsPositive(events, i - 1);
      assert Follows(events[i - 1], events[i]);
    }
  }

  lemma RevisionsNotNegative(r: Registry)
    requires Inv(r)
    ensures forall p | p in r.active :: r.active[p].revision >= 0
  {
    forall p | p in r.active ensures r.active[p].revision >= 0 {
      var events := HistoryOf(r, p);
      assert SelectionCurrent(r, p) && HistoryChained(events);
      RevisionsPositive(events, |events| - 1);
    }
  }

  /** Loading what was saved in any reachable state restores that state, so every invariant survives a restart. */
  lemma SnapshotRoundTrip(ops: seq<Op>, snapshot: Snapshot, loaded: Option<Registry>)
    requires var r := Run(EMPTY, ops);
      && IsSnapshotOf(snapshot, r)
      && (loaded.None? <==> exists p :: p in snapshot.active && snapshot.active[p].revision < 0)
      && (loaded.Some? ==> loaded.value.stored == r.stored && IsSnapshotOf(snapshot, loaded.value))
    ensures loaded == Some(Run(EMPTY, ops)) && Inv(loaded.value)
  {
    var r := Run(EMPTY, ops);
    RunKeepsInv(EMPTY, ops);
    RevisionsNotNegative(r);
    GroupsDetermines(snapshot.states, r.states, loaded.value.states);
  }

  // ----- the registry object -----

  class VersionedPolicyRegistry {
    var stored: map<Key, string>
    var states: map<Key, Lifecycle>
    var active: map<string, Selection>
    var history: map<string, seq<Event>>
    /** the state file */
    var snapshot: Snapshot

    ghost function Value(): Registry
      reads this
    {
      Registry(stored, states, active, history)
    }

    ghost predicate Valid()
      reads this
    {
      Inv(Value()) && IsSnapshotOf(snapshot, Value())
    }

    constructor ()
      ensures Valid() && Value() == EMPTY
    {
      stored, states, active, history := map[], map[], map[], map[];
      snapshot := Snapshot(map[], map[], map[]);
    }

    method SaveState()
      modifies this`snapshot
      ensures IsSnapshotOf(snapshot, Value())
    {
      var nested := GroupStates(states);
      snapshot := Snapshot(nested, active, history);
    }

    /** Lose the object and build it again over the same storage: nothing is lost, and loading never fails. */
    method Reload() returns (ok: bool)
      requires Valid()
      modifies this
      ensures ok && Valid() && Value() == old(Value()) && snapshot == old(snapshot)
    {
      RevisionsNotNegative(Value());
      var loaded := LoadState(stored, snapshot);
      if loaded.None? {
        return false;
      }
      GroupsDetermines(snapshot.states, states, loaded.value.states);
      states, active, history := loaded.value.states, loaded.value.active, loaded.value.history;
      return true;
    }

    /** Write the fields a call computed, and save them. */
    method Commit(
      ghost op: Op, newStored: map<Key, string>, newStates: map<Key, Lifecycle>,
      newActive: map<string, Selection>, newHistory: map<string, seq<Event>>)
      requires Valid() && Registry(newStored, newStates, newActive, newHistory) == Apply(Value(), op)
      modifies this
      ensures Valid() && Value() == Apply(old(Value()), op)
    {
      ApplyKeepsInv(Value(), op);
      stored, states, active, history := newStored, newStates, newActive, newHistory;
      SaveState();
    }

    method Register(key: Key, contentHash: string) returns (error: Option<Error>)
      requires Valid()
      modifies this
      ensures Valid() && error == ErrorOf(old(Value()), Op.Register(key, contentHash))
      ensures Value() == Apply(old(Value()), Op.Register(key, contentHash))
    {
      if key.version == "" {
        return Some(InvalidPolicy);
      }
      if key in stored {
        return if stored[key] != contentHash then Some(Immutable) else None;
      }
      Commit(Op.Register(key, contentHash), stored[key := contentHash], states[key := Published], active, history);
      return None;
    }

    method Publish(key: Key, contentHash: string, check: Check) returns (error: Option<Error>)
      requires Valid()
      modifies this
      ensures Valid() && error == ErrorOf(old(Value()), Op.Publish(key, contentHash, check))
      ensures Value() == Apply(old(Value()), Op.Publish(key, contentHash, check))
    {
      if key.version == "" {
        return Some(InvalidPolicy);
      }
      if key in stored {
        return Some(Immutable);
      }
      if !(check.digestValid && check.signatureValid) {
        return Some(BadSignature);
      }
      Commit(Op.Publish(key, contentHash, check), stored[key := contentHash], states[key := Published], active, history);
      return None;
    }

    method Activate(
      key: Key, requestedBy: string, reason: string, expected: Option<int>,
      timestamp: string, operation: string, check: Check)
      returns (r: Result<Event, Error>)
      requires Valid()
      modifies this
      ensures Valid()
      ensures var op := Op.Activate(key, requestedBy, reason, expected, timestamp, operation, check);
        && Value() == Apply(old(Value()), op)
        && (match r
            case Failure(e) => ErrorOf(old(Value()), op) == Some(e)
            case Success(event) => ErrorOf(old(Value()), op) == None && event == EventOf(old(Value()), op))
    {
      if requestedBy == "" || reason == "" {
        return Failure(WrongLifecycle);
      }
      if key !in stored {
        return Failure(NotFound);
      }
      if !check.digestValid {
        return Failure(Integrity);
      }
      if !check.signatureValid {
        return Failure(BadSignature);
      }
      var state := if key in states then states[key] else Published;
      if state != Published && state != Active {
        return Failure(WrongLifecycle);
      }
      var current := if key.policyId in active then Some(active[key.policyId]) else None;
      var currentRevision := if current.Some? then current.value.revision else 0;
      if expected.Some? && expected.value != currentRevision {
        return Failure(RevisionConflict);
      }
      var previousVersion := if current.Some? then Some(current.value.version) else None;
      if previousVersion == Some(key.version) {
        return Failure(WrongLifecycle);
      }
      var newStates := states;
      if previousVersion.Some? {
        newStates := newStates[Key(key.policyId, previousVersion.value) := Published];
      }
      var revision := currentRevision + 1;
      newStates := newStates[key := Active];
      var event := Event(
        key.policyId, previousVersion, key.version, requestedBy, reason, timestamp, revision, operation);
      var events := if key.policyId in history then history[key.policyId] else [];
      ghost var op := Op.Activate(key, requestedBy, reason, expected, timestamp, operation, check);
      Commit(op, stored, newStates, active[key.policyId := Selection(key.version, revision)],
             history[key.policyId := events + [event]]);
      return Success(event);
    }

    method Deprecate(key: Key, check: Check) returns (error: Option<Error>)
      requires Valid()
      modifies this
      ensures Valid() && error == ErrorOf(old(Value()), Op.Deprecate(key, check))
      ensures Value() == Apply(old(Value()), Op.Deprecate(key, check))
    {
      if key !in stored {
        return Some(NotFound);
      }
      if !check.digestValid {
        return Some(Integrity);
      }
      var state := if key in states then states[key] else Published;
      if state == Active || state == Revoked {
        return Some(WrongLifecycle);
      }
      Commit(Op.Deprecate(key, check), stored, states[key := Deprecated], active, history);
      return None;
    }

    method Revoke(key: Key, check: Check) returns (error: Option<Error>)
      requires Valid()
      modifies this
      ensures Valid() && error == ErrorOf(old(Value()), Op.Revoke(key, check))
      ensures Value() == Apply(old(Value()), Op.Revoke(key, check))
    {
      if key !in stored {
        return Some(NotFound);
      }
      if !check.digestValid {
        return Some(Integrity);
      }
      var newActive := active;
      if key.policyId in active && active[key.policyId].version == key.version {
        newActive := active[key.policyId := Selection("", active[key.policyId].revision + 1)];
      }
      Commit(Op.Revoke(key, check), stored, states[key := Revoked], newActive, history);
      return None;
    }

    /**
     * `get_active` under unchanged checks: it answers with the selected version,
     * and its "not usable" error is never raised.
     */
    method GetActive(policyId: string, check: Check) returns (r: Result<string, Error>)
      requires Valid()
      ensures r != Failure(WrongLifecycle)
      ensures r.Success? ==>
        && Selected(Value(), Key(policyId, r.value)) && Key(policyId, r.value) in stored
        && StateOf(Value(), Key(policyId, r.value)) == Active && check.digestValid && check.signatureValid
      ensures check.digestValid && check.signatureValid ==>
        (r.Success? <==> policyId in active && active[policyId].version != "")
    {
      if policyId !in active {
        return Failure(NotFound);
      }
      var key := Key(policyId, active[policyId].version);
      assert key.version != "" ==> StateOf(Value(), key) == Active <==> Selected(Value(), key);
      if key !in stored {
        return Failure(NotFound);
      }
      if !check.digestValid {
        return Failure(Integrity);
      }
      if (if key in states then states[key] else Published) != Active {
        return Failure(WrongLifecycle);
      }
      if !check.signatureValid {
        return Failure(BadSignature);
      }
      return Success(key.version);
    }
  }
}
