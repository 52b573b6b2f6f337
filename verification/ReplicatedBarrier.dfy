/**
 * The barrier over many Postgres replicas: every call checks, claims and records
 * through some replica's cache and transactions, and every statement of every
 * replica interleaves freely. Each such run is a run of the barrier over one
 * shared log.
 */
module ReplicatedBarrier {
  import opened Wrappers
  import opened Values
  import opened Arbitration
  import opened ReplayChain
  import opened Artifacts
  import opened Barrier
  import B = BarrierRuns
  import R = Replicas

  /** What a replica's open transaction is for. */
  datatype Task =
    | Writing(writer: B.Step, frameId: string, event: Event)
    | Claiming(call: nat)
    | Recording(call: nat)

  datatype State = State(
    db: R.State<Event>, calls: map<nat, B.Phase>, effects: seq<B.Effect>, busy: map<nat, Task>)

  const INITIAL := State(R.Initial<Event>(), map[], [], map[])

  datatype Step =
    /** connecting, refreshing and extending caches */
    | Internal(step: R.Step<Event>)
    | CheckNonce(r: nat, call: nat, a: Artifact, issuerKeys: map<string, PublicKey>, now: int)
    | CheckFrame(r: nat, call: nat, policies: Option<map<string, Policy>>, keys: map<string, PublicKey>)
    | StartWrite(r: nat, writer: B.Step)
    | StartClaim(r: nat, call: nat)
    | StartRecord(r: nat, call: nat)
    | Insert(r: nat)
    /** the commit takes effect; whoever asked for it may see an error all the same */
    | Commit(r: nat, answered: bool)
    /** a statement or the answer of a commit is lost, and whoever waits for it sees an error */
    | Abort(r: nat)
    | RunAction(call: nat, outcome: Outcome)
    | CrashCall(call: nat)
    | Die(r: nat)

  /** The frame an issuer or another writer is about to append. */
  ghost function EntryOf(env: Env, step: B.Step): Option<(string, Event)> {
    match step
    case Arbitrate(keys, attested, keyId, sign, request) =>
      var issuance := Issue(env, keys, attested, keyId, sign, request);
      if issuance.Rejected? || issuance.entries == [] then None else Some(issuance.entries[|issuance.entries| - 1])
    case WriteOther(id, kind) => Some((id, Other(kind)))
    case _ => None
  }

  predicate Ready(s: State, r: nat) {
    r in s.db.replicas && s.db.replicas[r].phase.Ready? && r !in s.busy
  }

  predicate Holds(task: Task, call: nat) {
    (task.Claiming? || task.Recording?) && task.call == call
  }

  /** The call is inside no transaction. */
  ghost predicate Free(s: State, call: nat) {
    forall r | r in s.busy :: !Holds(s.busy[r], call)
  }

  predicate IsInternal(step: R.Step<Event>) {
    step.Connect? || step.ReadFrames? || step.ReadNonces? || step.ExtendCache? || step.RememberNonce?
  }

  function Ended(calls: map<nat, B.Phase>, call: nat): map<nat, B.Phase> {
    if call in calls && B.Unfinished(calls[call]) then calls[call := B.Crashed(calls[call])] else calls
  }

  /** A call ends together with the transaction it was in. */
  function EndedWith(calls: map<nat, B.Phase>, task: Task): map<nat, B.Phase> {
    if task.Writing? then calls else Ended(calls, task.call)
  }

  ghost function BeginCheck(
    env: Env, s: State, r: nat, call: nat, a: Artifact, issuerKeys: map<string, PublicKey>, now: int): State
  {
    if !Ready(s, r) || call in s.calls then s
    else
      var db := R.Apply(env.hash, s.db, R.ReadNonces(r));
      var refusal := CheckCredentials(env, issuerKeys, now, a.payload.nonce in db.replicas[r].used, a);
      s.(db := db, calls := s.calls[call := if refusal.Some? then B.Refused(refusal.value) else B.NonceChecked(a)])
  }

  ghost function ReadCheck(
    env: Env, s: State, r: nat, call: nat, policies: Option<map<string, Policy>>, keys: map<string, PublicKey>): State
  {
    if !Ready(s, r) || call !in s.calls || !s.calls[call].NonceChecked? then s
    else
      var a := s.calls[call].a;
      var db := R.Apply(env.hash, s.db, R.ReadFrames(r));
      var refusal := CheckEvidence(env, policies, keys, FindFrame(db.replicas[r].frames, a.payload.frameRef), a);
      s.(db := db, calls := s.calls[call := if refusal.Some? then B.Refused(refusal.value) else B.Validated(a)])
  }

  /** Take the lock of a transaction, if it is free. */
  function Locked(s: State, r: nat, db: R.State<Event>, task: Task): State {
    if db == s.db then s else s.(db := db, busy := s.busy[r := task])
  }

  /** An empty nonce is refused before any statement is sent; the call ends there. */
  ghost function StartTask(env: Env, s: State, r: nat, task: Task): State {
    match task
    case Writing(_, id, e) => Locked(s, r, R.Apply(env.hash, s.db, R.LockAppend(r, id, e)), task)
    case Claiming(t) =>
      if t !in s.calls || !s.calls[t].Validated? || !Free(s, t) then s
      else if s.calls[t].a.payload.nonce == "" then s.(calls := Ended(s.calls, t))
      else Locked(s, r, R.Apply(env.hash, s.db, R.LockClaim(r, s.calls[t].a.payload.nonce)), task)
    case Recording(t) =>
      if t !in s.calls || !s.calls[t].Invoked? || !Free(s, t) then s
      else
        var a := s.calls[t].a;
        var e := ExecutionEvent(a, s.calls[t].outcome);
        Locked(s, r, R.Apply(env.hash, s.db, R.LockAppend(r, ExecutionId(a.payload.nonce), e)), task)
  }

  /** The insert statement: on a conflict the transaction rolls back and whoever asked for it sees an error. */
  function InsertRow(hash: Hasher<Event>, s: State, r: nat): State {
    if r !in s.busy || r !in s.db.replicas then s
    else
      var task, phase := s.busy[r], s.db.replicas[r].phase;
      if phase.AppendRead? then
        var db := R.Apply(hash, s.db, R.InsertFrame(r));
        if R.Taken(s.db.table, phase.frameId) then
          s.(db := db, busy := s.busy - {r}, calls := EndedWith(s.calls, task))
        else s.(db := db)
      else if phase.ClaimLocked? && task.Claiming? then
        var db := R.Apply(hash, s.db, R.InsertNonce(r));
        if phase.nonce in s.db.consumed then
          s.(db := db, busy := s.busy - {r}, calls := s.calls[task.call := B.Refused(NonceUsed)])
        else s.(db := db)
      else s
  }

  function CommitRow(hash: Hasher<Event>, s: State, r: nat, answered: bool): State {
    if r !in s.busy || r !in s.db.replicas then s
    else
      var task, phase := s.busy[r], s.db.replicas[r].phase;
      if phase.AppendInserted? then
        var db := R.Apply(hash, s.db, R.CommitFrame(r));
        var calls :=
          if task.Recording? && task.call in s.calls && s.calls[task.call].Invoked? then
            var p := s.calls[task.call];
            s.calls[task.call := B.RecordedAs(p.a, p.outcome, |s.db.table|, answered)]
          else s.calls;
        s.(db := db, busy := s.busy - {r}, calls := calls)
      else if phase.ClaimInserted? && task.Claiming? && task.call in s.calls && s.calls[task.call].Validated? then
        var db := R.Apply(hash, s.db, R.CommitNonce(r));
        s.(db := db, busy := s.busy - {r}, calls := s.calls[task.call := B.Claimed(s.calls[task.call].a)])
      else s
  }

  /** A replica gives its transaction up. */
  function Broken(hash: Hasher<Event>, s: State, st: R.Step<Event>): State {
    s.(db := R.Apply(hash, s.db, st), busy := s.busy - {st.r},
       calls := if st.r in s.busy then EndedWith(s.calls, s.busy[st.r]) else s.calls)
  }

  ghost function Apply(env: Env, s: State, step: Step): State {
    match step
    case Internal(st) => if IsInternal(st) then s.(db := R.Apply(env.hash, s.db, st)) else s
    case CheckNonce(r, t, a, issuerKeys, now) => BeginCheck(env, s, r, t, a, issuerKeys, now)
    case CheckFrame(r, t, policies, keys) => ReadCheck(env, s, r, t, policies, keys)
    case StartWrite(r, b) =>
      var entry := EntryOf(env, b);
      if !Ready(s, r) || entry.None? then s else StartTask(env, s, r, Writing(b, entry.value.0, entry.value.1))
    case StartClaim(r, t) => if Ready(s, r) then StartTask(env, s, r, Claiming(t)) else s
    case StartRecord(r, t) => if Ready(s, r) then StartTask(env, s, r, Recording(t)) else s
    case Insert(r) => InsertRow(env.hash, s, r)
    case Commit(r, answered) => CommitRow(env.hash, s, r, answered)
    case Abort(r) => Broken(env.hash, s, R.Abort(r))
    case RunAction(t, outcome) =>
      if t !in s.calls || !s.calls[t].Claimed? then s
      else
        var a := s.calls[t].a;
        s.(calls := s.calls[t := B.Invoked(a, outcome)], effects := s.effects + [B.Effect(t, a, |s.db.table|)])
    case CrashCall(t) => if Free(s, t) then s.(calls := Ended(s.calls, t)) else s
    case Die(r) => Broken(env.hash, s, R.Die(r))
  }

  ghost function Run(env: Env, s: State, steps: seq<Step>): State
    decreases |steps|
  {
    if steps == [] then s else Run(env, Apply(env, s, steps[0]), steps[1..])
  }

  // ----- the run it shows -----

  /** The barrier's state behind the replicas: the committed tables, the calls and what they ran. */
  function Shown(s: State): B.State {
    B.State(s.db.table, s.db.consumed, s.calls, s.effects)
  }

  /** Authorization frames carry the id of their nonce, so the unique id keeps nonces fresh. */
  ghost predicate AuthorizationIds(log: Log) {
    forall i | 0 <= i < |log| && log[i].event.Authorization? :: log[i].frameId == AuthorizationId(log[i].event.nonce)
  }

  predicate Appends(phase: R.Phase<Event>, id: string, e: Event) {
    || phase == R.AppendLocked(id, e)
    || phase == R.AppendRead(id, e)
    || (phase.AppendInserted? && phase.frame.frameId == id && phase.frame.event == e)
  }

  predicate Claims(phase: R.Phase<Event>, nonce: string) {
    phase == R.ClaimLocked(nonce) || phase == R.ClaimInserted(nonce)
  }

  /** The replica's transaction is the task's. */
  ghost predicate TaskOk(env: Env, calls: map<nat, B.Phase>, task: Task, phase: R.Phase<Event>) {
    match task
    case Writing(b, id, e) => EntryOf(env, b) == Some((id, e)) && Appends(phase, id, e)
    case Claiming(t) => t in calls && calls[t].Validated? && Claims(phase, calls[t].a.payload.nonce)
    case Recording(t) =>
      && t in calls && calls[t].Invoked?
      && Appends(phase, ExecutionId(calls[t].a.payload.nonce), ExecutionEvent(calls[t].a, calls[t].outcome))
  }

  ghost predicate TasksOk(env: Env, s: State) {
    && (forall r | r in s.busy :: r in s.db.replicas && TaskOk(env, s.calls, s.busy[r], s.db.replicas[r].phase))
    && (forall q, r, t | q in s.busy && r in s.busy && Holds(s.busy[q], t) && Holds(s.busy[r], t) :: q == r)
  }

  ghost predicate Inv(env: Env, s: State) {
    R.Inv(env.hash, s.db) && AuthorizationIds(s.db.table) && TasksOk(env, s)
  }

  // ----- keeping tasks and transactions together -----

  /** A step of replica r: everybody else's transaction and call stay as they are. */
  ghost predicate OnlyMoves(s: State, s': State, r: nat) {
    && (forall q | q in s'.busy && q != r ::
          && q in s.busy && s'.busy[q] == s.busy[q]
          && (q in s.db.replicas ==> q in s'.db.replicas && s'.db.replicas[q] == s.db.replicas[q]))
    && (forall q, t | q in s'.busy && q != r && Holds(s'.busy[q], t) && t in s.calls ::
          t in s'.calls && s'.calls[t] == s.calls[t])
  }

  lemma TasksStay(env: Env, s: State, s': State, r: nat)
    requires TasksOk(env, s) && OnlyMoves(s, s', r)
    requires r in s'.busy ==>
      && r in s'.db.replicas && TaskOk(env, s'.calls, s'.busy[r], s'.db.replicas[r].phase)
      && (forall q, t | q in s.busy && q != r && Holds(s.busy[q], t) :: !Holds(s'.busy[r], t))
    ensures TasksOk(env, s')
  {
    forall q | q in s'.busy
      ensures q in s'.db.replicas && TaskOk(env, s'.calls, s'.busy[q], s'.db.replicas[q].phase)
    {
      if q != r {
        assert TaskOk(env, s.calls, s.busy[q], s.db.replicas[q].phase);
        TaskStays(env, s.calls, s'.calls, s.busy[q], s.db.replicas[q].phase);
      }
    }
  }

  lemma TaskStays(
    env: Env, calls: map<nat, B.Phase>, calls': map<nat, B.Phase>, task: Task, phase: R.Phase<Event>)
    requires TaskOk(env, calls, task, phase)
    requires forall t | Holds(task, t) && t in calls :: t in calls' && calls'[t] == calls[t]
    ensures TaskOk(env, calls', task, phase)
  {
    if !task.Writing? {
      assert Holds(task, task.call);
    }
  }

  /** A replica step touches no other replica. */
  lemma OthersStay(hash: Hasher<Event>, db: R.State<Event>, step: R.Step<Event>)
    ensures forall q | q in db.replicas && q != step.r ::
      q in R.Apply(hash, db, step).replicas && R.Apply(hash, db, step).replicas[q] == db.replicas[q]
  {}

  /** Only one call moves. */
  ghost predicate Moves(calls: map<nat, B.Phase>, calls': map<nat, B.Phase>, t: nat) {
    forall u | u in calls && u != t :: u in calls' && calls'[u] == calls[u]
  }

  /** Calls that change are held by no transaction but r's. */
  lemma ChangedCall(env: Env, s: State, calls: map<nat, B.Phase>, t: nat, r: nat)
    requires TasksOk(env, s) && Moves(s.calls, calls, t)
    requires t in s.calls ==>
      (Free(s, t) || (!s.calls[t].Validated? && !s.calls[t].Invoked?) || (r in s.busy && Holds(s.busy[r], t)))
    ensures forall q, u | q in s.busy && q != r && Holds(s.busy[q], u) && u in s.calls ::
              u in calls && calls[u] == s.calls[u]
  {
    forall q, u | q in s.busy && q != r && Holds(s.busy[q], u) && u in s.calls ensures u != t {
      assert TaskOk(env, s.calls, s.busy[q], s.db.replicas[q].phase);
    }
  }

  // ----- reading steps -----

  /** A replica refreshes its cache and a call that is in no transaction goes on. */
  lemma ReadingKeeps(env: Env, s: State, st: R.Step<Event>, calls: map<nat, B.Phase>, t: nat)
    requires Inv(env, s) && Ready(s, st.r) && (st.ReadNonces? || st.ReadFrames?)
    requires Moves(s.calls, calls, t) && (t in s.calls ==> !s.calls[t].Validated? && !s.calls[t].Invoked?)
    ensures Inv(env, s.(db := R.Apply(env.hash, s.db, st), calls := calls))
  {
    R.ApplyKeepsInv(env.hash, s.db, st);
    OthersStay(env.hash, s.db, st);
    ChangedCall(env, s, calls, t, st.r);
    TasksStay(env, s, s.(db := R.Apply(env.hash, s.db, st), calls := calls), st.r);
  }

  lemma BeginKeeps(
    env: Env, s: State, r: nat, t: nat, a: Artifact, issuerKeys: map<string, PublicKey>, now: int)
    requires Inv(env, s)
    ensures Inv(env, BeginCheck(env, s, r, t, a, issuerKeys, now))
  {
    if Ready(s, r) && t !in s.calls {
      ReadingKeeps(env, s, R.ReadNonces(r), BeginCheck(env, s, r, t, a, issuerKeys, now).calls, t);
    }
  }

  lemma BeginShows(
    env: Env, s: State, r: nat, t: nat, a: Artifact, issuerKeys: map<string, PublicKey>, now: int)
    requires Ready(s, r) && t !in s.calls
    ensures Shown(BeginCheck(env, s, r, t, a, issuerKeys, now)) ==
            B.Apply(env, Shown(s), B.Begin(t, a, issuerKeys, now))
  {
    FreshNonces(env.hash, s, r);
  }

  /** Right after a refresh the cache is the table. */
  lemma FreshNonces(hash: Hasher<Event>, s: State, r: nat)
    requires Ready(s, r)
    ensures var db := R.Apply(hash, s.db, R.ReadNonces(r));
            && r in db.replicas && db.replicas[r].used == s.db.consumed
            && db.table == s.db.table && db.consumed == s.db.consumed
  {}

  lemma FreshFrames(hash: Hasher<Event>, s: State, r: nat)
    requires Ready(s, r)
    ensures var db := R.Apply(hash, s.db, R.ReadFrames(r));
            && r in db.replicas && db.replicas[r].frames == s.db.table
            && db.table == s.db.table && db.consumed == s.db.consumed
  {}

  lemma ReadKeeps(
    env: Env, s: State, r: nat, t: nat, policies: Option<map<string, Policy>>, keys: map<string, PublicKey>)
    requires Inv(env, s)
    ensures Inv(env, ReadCheck(env, s, r, t, policies, keys))
  {
    if Ready(s, r) && t in s.calls && s.calls[t].NonceChecked? {
      ReadingKeeps(env, s, R.ReadFrames(r), ReadCheck(env, s, r, t, policies, keys).calls, t);
    }
  }

  lemma ReadShows(
    env: Env, s: State, r: nat, t: nat, policies: Option<map<string, Policy>>, keys: map<string, PublicKey>)
    requires Ready(s, r) && t in s.calls && s.calls[t].NonceChecked?
    ensures Shown(ReadCheck(env, s, r, t, policies, keys)) ==
            B.Apply(env, Shown(s), B.ReadFrame(t, policies, keys))
  {
    FreshFrames(env.hash, s, r);
  }

  // ----- transactions -----

  /** Reads and cache updates leave the tables alone, and a transaction goes from its lock to its refresh at most. */
  lemma InternalMoves(hash: Hasher<Event>, db: R.State<Event>, st: R.Step<Event>)
    requires IsInternal(st)
    ensures var db' := R.Apply(hash, db, st);
      && db'.table == db.table && db'.consumed == db.consumed
      && (st.r in db.replicas ==>
            st.r in db'.replicas && PhaseGoesOn(db.replicas[st.r].phase, db'.replicas[st.r].phase))
  {}

  predicate PhaseGoesOn(phase: R.Phase<Event>, phase': R.Phase<Event>) {
    || phase' == phase
    || (phase.AppendLocked? && phase' == R.AppendRead(phase.frameId, phase.event))
    || phase.Connecting? || phase.AppendCommitted? || phase.ClaimCommitted?
  }

  lemma TaskGoesOn(env: Env, calls: map<nat, B.Phase>, task: Task, phase: R.Phase<Event>, phase': R.Phase<Event>)
    requires TaskOk(env, calls, task, phase) && PhaseGoesOn(phase, phase')
    ensures TaskOk(env, calls, task, phase')
  {}

  lemma InternalKeeps(env: Env, s: State, st: R.Step<Event>)
    requires Inv(env, s) && IsInternal(st)
    ensures Inv(env, s.(db := R.Apply(env.hash, s.db, st)))
    ensures Shown(s.(db := R.Apply(env.hash, s.db, st))) == Shown(s)
  {
    R.ApplyKeepsInv(env.hash, s.db, st);
    InternalMoves(env.hash, s.db, st);
    OthersStay(env.hash, s.db, st);
    var s' := s.(db := R.Apply(env.hash, s.db, st));
    if st.r in s.busy {
      TaskGoesOn(env, s.calls, s.busy[st.r], s.db.replicas[st.r].phase, s'.db.replicas[st.r].phase);
    }
    TasksStay(env, s, s', st.r);
  }

  lemma LockMoves(hash: Hasher<Event>, db: R.State<Event>, st: R.Step<Event>)
    requires st.LockAppend? || st.LockClaim?
    ensures var db' := R.Apply(hash, db, st);
      db'.table == db.table && db'.consumed == db.consumed && (st.r in db.replicas ==> st.r in db'.replicas)
  {}

  /** A transaction begins on a replica that had none. */
  lemma LockingKeeps(env: Env, s: State, st: R.Step<Event>, task: Task)
    requires Inv(env, s) && Ready(s, st.r) && (st.LockAppend? || st.LockClaim?)
    requires !task.Writing? ==> Free(s, task.call)
    requires
      var db := R.Apply(env.hash, s.db, st);
      db != s.db ==> TaskOk(env, s.calls, task, db.replicas[st.r].phase)
    ensures
      var s' := Locked(s, st.r, R.Apply(env.hash, s.db, st), task);
      Inv(env, s') && Shown(s') == Shown(s)
  {
    var s' := Locked(s, st.r, R.Apply(env.hash, s.db, st), task);
    if s' != s {
      LockMoves(env.hash, s.db, st);
      R.ApplyKeepsInv(env.hash, s.db, st);
      OthersStay(env.hash, s.db, st);
      TasksStay(env, s, s', st.r);
    }
  }

  lemma StartKeeps(env: Env, s: State, r: nat, task: Task)
    requires Inv(env, s) && Ready(s, r)
    requires task.Writing? ==> EntryOf(env, task.writer) == Some((task.frameId, task.event))
    requires task.Claiming? && task.call in s.calls && s.calls[task.call].Validated? && Free(s, task.call) ==>
      s.calls[task.call].a.payload.nonce != ""
    ensures var s' := StartTask(env, s, r, task); Inv(env, s') && Shown(s') == Shown(s)
  {
    match task
    case Writing(_, id, e) => LockingKeeps(env, s, R.LockAppend(r, id, e), task);
    case Claiming(t) =>
      if t in s.calls && s.calls[t].Validated? && Free(s, t) {
        LockingKeeps(env, s, R.LockClaim(r, s.calls[t].a.payload.nonce), task);
      }
    case Recording(t) =>
      if t in s.calls && s.calls[t].Invoked? && Free(s, t) {
        var a := s.calls[t].a;
        LockingKeeps(
          env, s, R.LockAppend(r, ExecutionId(a.payload.nonce), ExecutionEvent(a, s.calls[t].outcome)), task);
      }
  }

  /** A replica's transaction is over, and the call it was for moves on. */
  lemma EndingKeepsTasks(env: Env, s: State, st: R.Step<Event>, calls: map<nat, B.Phase>)
    requires TasksOk(env, s) && st.r in s.busy
    requires calls == s.calls || (!s.busy[st.r].Writing? && Moves(s.calls, calls, s.busy[st.r].call))
    ensures TasksOk(env, s.(db := R.Apply(env.hash, s.db, st), busy := s.busy - {st.r}, calls := calls))
  {
    var s' := s.(db := R.Apply(env.hash, s.db, st), busy := s.busy - {st.r}, calls := calls);
    OthersStay(env.hash, s.db, st);
    if calls != s.calls {
      assert Holds(s.busy[st.r], s.busy[st.r].call);
      ChangedCall(env, s, calls, s.busy[st.r].call, st.r);
    }
    TasksStay(env, s, s', st.r);
  }

  /** An insert leaves the tables alone: it conflicts, or its replica waits for the commit. */
  lemma InsertMoves(env: Env, s: State, r: nat)
    requires Inv(env, s) && r in s.busy
    ensures r in s.db.replicas && TaskOk(env, s.calls, s.busy[r], s.db.replicas[r].phase)
    ensures
      var phase := s.db.replicas[r].phase;
      var db := R.Apply(env.hash, s.db, if phase.AppendRead? then R.InsertFrame(r) else R.InsertNonce(r));
      && db.table == s.db.table && db.consumed == s.db.consumed && r in db.replicas
      && (phase.AppendRead? && !R.Taken(s.db.table, phase.frameId) ==>
            Appends(db.replicas[r].phase, phase.frameId, phase.event))
      && (phase.ClaimLocked? && phase.nonce !in s.db.consumed ==> Claims(db.replicas[r].phase, phase.nonce))
  {
    assert TaskOk(env, s.calls, s.busy[r], s.db.replicas[r].phase);
  }

  lemma InsertedTask(env: Env, calls: map<nat, B.Phase>, task: Task, phase: R.Phase<Event>, phase': R.Phase<Event>)
    requires TaskOk(env, calls, task, phase)
    requires || (phase.AppendRead? && Appends(phase', phase.frameId, phase.event))
             || (phase.ClaimLocked? && Claims(phase', phase.nonce))
    ensures TaskOk(env, calls, task, phase')
  {}

  lemma WaitingKeeps(env: Env, s: State, r: nat, st: R.Step<Event>)
    requires Inv(env, s) && r in s.busy && st.r == r
    requires var db := R.Apply(env.hash, s.db, st);
      && db.table == s.db.table && r in db.replicas && TaskOk(env, s.calls, s.busy[r], db.replicas[r].phase)
    ensures Inv(env, s.(db := R.Apply(env.hash, s.db, st)))
  {
    R.ApplyKeepsInv(env.hash, s.db, st);
    OthersStay(env.hash, s.db, st);
    TasksStay(env, s, s.(db := R.Apply(env.hash, s.db, st)), r);
  }

  lemma TransactionEnds(env: Env, s: State, st: R.Step<Event>, calls: map<nat, B.Phase>)
    requires Inv(env, s) && st.r in s.busy && AuthorizationIds(R.Apply(env.hash, s.db, st).table)
    requires calls == s.calls || (!s.busy[st.r].Writing? && Moves(s.calls, calls, s.busy[st.r].call))
    ensures Inv(env, s.(db := R.Apply(env.hash, s.db, st), busy := s.busy - {st.r}, calls := calls))
  {
    R.ApplyKeepsInv(env.hash, s.db, st);
    EndingKeepsTasks(env, s, st, calls);
  }

  lemma EndedMoves(calls: map<nat, B.Phase>, task: Task)
    ensures EndedWith(calls, task) == calls || (!task.Writing? && Moves(calls, EndedWith(calls, task), task.call))
  {}

  lemma ConflictKeeps(env: Env, s: State, r: nat)
    requires Inv(env, s) && r in s.busy && r in s.db.replicas && s.db.replicas[r].phase.AppendRead?
    requires R.Taken(s.db.table, s.db.replicas[r].phase.frameId)
    ensures Inv(env, InsertRow(env.hash, s, r))
  {
    InsertMoves(env, s, r);
    EndedMoves(s.calls, s.busy[r]);
    TransactionEnds(env, s, R.InsertFrame(r), EndedWith(s.calls, s.busy[r]));
  }

  lemma FrameInsertKeeps(env: Env, s: State, r: nat)
    requires Inv(env, s) && r in s.busy && r in s.db.replicas && s.db.replicas[r].phase.AppendRead?
    requires !R.Taken(s.db.table, s.db.replicas[r].phase.frameId)
    ensures Inv(env, InsertRow(env.hash, s, r))
  {
    InsertMoves(env, s, r);
    var phase, task := s.db.replicas[r].phase, s.busy[r];
    InsertedTask(env, s.calls, task, phase, R.Apply(env.hash, s.db, R.InsertFrame(r)).replicas[r].phase);
    WaitingKeeps(env, s, r, R.InsertFrame(r));
  }

  lemma NonceInsertKeeps(env: Env, s: State, r: nat)
    requires Inv(env, s) && r in s.busy && r in s.db.replicas && s.db.replicas[r].phase.ClaimLocked?
    ensures Inv(env, InsertRow(env.hash, s, r))
  {
    InsertMoves(env, s, r);
    var phase, task := s.db.replicas[r].phase, s.busy[r];
    if phase.nonce in s.db.consumed {
      TransactionEnds(env, s, R.InsertNonce(r), s.calls[task.call := B.Refused(NonceUsed)]);
    } else {
      InsertedTask(env, s.calls, task, phase, R.Apply(env.hash, s.db, R.InsertNonce(r)).replicas[r].phase);
      WaitingKeeps(env, s, r, R.InsertNonce(r));
    }
  }

  lemma InsertKeeps(env: Env, s: State, r: nat)
    requires Inv(env, s)
    ensures Inv(env, InsertRow(env.hash, s, r))
  {
    if r in s.busy && r in s.db.replicas {
      if s.db.replicas[r].phase.AppendRead? {
        if R.Taken(s.db.table, s.db.replicas[r].phase.frameId) {
          ConflictKeeps(env, s, r);
        } else {
          FrameInsertKeeps(env, s, r);
        }
      } else if s.db.replicas[r].phase.ClaimLocked? {
        NonceInsertKeeps(env, s, r);
      }
    }
  }

  /** A rollback is a crash of the call that wanted the frame, or the refusal of the one that wanted the nonce. */
  lemma InsertShows(env: Env, s: State, r: nat) returns (b: Option<B.Step>)
    requires Inv(env, s)
    ensures Mirrors(env, s, InsertRow(env.hash, s, r), b)
  {
    b := None;
    if r in s.busy {
      InsertMoves(env, s, r);
      var phase, task := s.db.replicas[r].phase, s.busy[r];
      if phase.AppendRead? && R.Taken(s.db.table, phase.frameId) && task.Recording? {
        b := Some(B.Crash(task.call));
        EndedShows(env, Shown(s), task.call);
      } else if phase.ClaimLocked? && phase.nonce in s.db.consumed {
        b := Some(B.ClaimNonce(task.call));
        ConflictShows(env, Shown(s), task.call);
      }
    }
  }

  lemma EndedShows(env: Env, b: B.State, t: nat)
    ensures B.Apply(env, b, B.Crash(t)) == b.(calls := Ended(b.calls, t))
  {}

  lemma ConflictShows(env: Env, b: B.State, t: nat)
    requires t in b.calls && b.calls[t].Validated? && b.calls[t].a.payload.nonce in b.used
    ensures B.Apply(env, b, B.ClaimNonce(t)) == b.(calls := b.calls[t := B.Refused(NonceUsed)])
  {}

  lemma RecordShows(env: Env, b: B.State, t: nat, answered: bool)
    requires t in b.calls && b.calls[t].Invoked?
    ensures
      var a, outcome := b.calls[t].a, b.calls[t].outcome;
      B.Apply(env, b, if answered then B.WriteFrame(t) else B.LoseAnswer(t)) == b.(
        log := B.Written(env.hash, b.log, ExecutionId(a.payload.nonce), ExecutionEvent(a, outcome)),
        calls := b.calls[t := B.RecordedAs(a, outcome, |b.log|, answered)])
  {}

  lemma ClaimShows(env: Env, b: B.State, t: nat)
    requires t in b.calls && b.calls[t].Validated? && b.calls[t].a.payload.nonce !in b.used
    ensures B.Apply(env, b, B.ClaimNonce(t)) == b.(
        calls := b.calls[t := B.Claimed(b.calls[t].a)], used := b.used + {b.calls[t].a.payload.nonce})
  {}

  /** What the replicas did is one step of the barrier, or nothing. */
  ghost predicate Mirrors(env: Env, s: State, s': State, b: Option<B.Step>) {
    match b
    case None => Shown(s') == Shown(s)
    case Some(step) => !step.Restart? && Shown(s') == B.Apply(env, Shown(s), step)
  }

  /** An id that is free means a nonce that was not authorized yet. */
  lemma FreeIdFreshNonce(log: Log, nonce: string)
    requires AuthorizationIds(log) && !R.Taken(log, AuthorizationId(nonce))
    ensures !B.NonceKnown(log, nonce)
  {
    if B.NonceKnown(log, nonce) {
      var i :| 0 <= i < |log| && log[i].event.Authorization? && log[i].event.nonce == nonce;
      FindFrameIsFirst(log, AuthorizationId(nonce));
    }
  }

  /** What the frame about to be committed is. */
  lemma CommittedFrame(env: Env, s: State, r: nat)
    requires Inv(env, s) && r in s.busy && s.db.replicas[r].phase.AppendInserted?
    ensures
      var f := s.db.replicas[r].phase.frame;
      && f == NextFrame(env.hash, s.db.table, f.frameId, f.event) && !R.Taken(s.db.table, f.frameId)
      && R.Apply(env.hash, s.db, R.CommitFrame(r)).table == B.Written(env.hash, s.db.table, f.frameId, f.event)
      && R.Apply(env.hash, s.db, R.CommitFrame(r)).consumed == s.db.consumed
      && TaskOk(env, s.calls, s.busy[r], s.db.replicas[r].phase)
  {
    assert R.ReplicaOk(env.hash, s.db, r, s.db.replicas[r]);
  }

  lemma WriterEntry(env: Env, b: B.Step, id: string, e: Event)
    requires EntryOf(env, b) == Some((id, e))
    ensures e.Authorization? ==> b.Arbitrate? && id == AuthorizationId(e.nonce) && e.nonce == b.request.nonce
    ensures !e.Execution?
  {
    if b.Arbitrate? {
      B.ArbitrationEntry(env, b.arbiterKeys, b.attested, b.keyId, b.sign, b.request);
    }
  }

  lemma WriterResolves(env: Env, s: B.State, b: B.Step, id: string, e: Event)
    requires EntryOf(env, b) == Some((id, e))
    requires b.Arbitrate? ==> !B.NonceKnown(s.log, b.request.nonce)
    ensures !b.Restart? && B.Apply(env, s, b) == s.(log := B.Written(env.hash, s.log, id, e))
  {
    assert B.Resolve(env, s, b) == B.Write(id, e);
  }

  lemma WriterIsArbiter(env: Env, b: B.Step, id: string, e: Event)
    requires EntryOf(env, b) == Some((id, e)) && b.Arbitrate?
    ensures e.Authorization? && e.nonce == b.request.nonce && id == AuthorizationId(b.request.nonce)
  {
    B.ArbitrationEntry(env, b.arbiterKeys, b.attested, b.keyId, b.sign, b.request);
  }

  lemma WriteShows(env: Env, s: State, r: nat, answered: bool)
    requires Inv(env, s) && r in s.busy && s.busy[r].Writing? && s.db.replicas[r].phase.AppendInserted?
    ensures Mirrors(env, s, CommitRow(env.hash, s, r, answered), Some(s.busy[r].writer))
  {
    CommittedFrame(env, s, r);
    var task := s.busy[r];
    if task.writer.Arbitrate? {
      WriterIsArbiter(env, task.writer, task.frameId, task.event);
      FreeIdFreshNonce(s.db.table, task.writer.request.nonce);
    }
    WriterResolves(env, Shown(s), task.writer, task.frameId, task.event);
  }

  lemma CommitShows(env: Env, s: State, r: nat, answered: bool) returns (b: Option<B.Step>)
    requires Inv(env, s)
    ensures Mirrors(env, s, CommitRow(env.hash, s, r, answered), b)
  {
    b := None;
    if r in s.busy {
      var phase, task := s.db.replicas[r].phase, s.busy[r];
      if phase.AppendInserted? {
        CommittedFrame(env, s, r);
        if task.Writing? {
          WriteShows(env, s, r, answered);
          b := Some(task.writer);
        } else {
          RecordShows(env, Shown(s), task.call, answered);
          b := Some(if answered then B.WriteFrame(task.call) else B.LoseAnswer(task.call));
        }
      } else if phase.ClaimInserted? {
        CommittedNonce(env, s, r);
        ClaimShows(env, Shown(s), task.call);
        b := Some(B.ClaimNonce(task.call));
      }
    }
  }

  /** What the nonce about to be committed is. */
  lemma CommittedNonce(env: Env, s: State, r: nat)
    requires Inv(env, s) && r in s.busy && s.db.replicas[r].phase.ClaimInserted?
    ensures
      var n := s.db.replicas[r].phase.nonce;
      && n !in s.db.consumed
      && R.Apply(env.hash, s.db, R.CommitNonce(r)).table == s.db.table
      && R.Apply(env.hash, s.db, R.CommitNonce(r)).consumed == s.db.consumed + {n}
      && TaskOk(env, s.calls, s.busy[r], s.db.replicas[r].phase)
  {
    assert R.ReplicaOk(env.hash, s.db, r, s.db.replicas[r]);
  }

  lemma IdsGoOn(log: Log, f: Frame<Event>)
    requires AuthorizationIds(log) && (f.event.Authorization? ==> f.frameId == AuthorizationId(f.event.nonce))
    ensures AuthorizationIds(log + [f])
  {}

  lemma FrameCommitKeepsIds(env: Env, s: State, r: nat)
    requires Inv(env, s) && r in s.busy && s.db.replicas[r].phase.AppendInserted?
    ensures AuthorizationIds(R.Apply(env.hash, s.db, R.CommitFrame(r)).table)
  {
    CommittedFrame(env, s, r);
    var task, f := s.busy[r], s.db.replicas[r].phase.frame;
    if task.Writing? {
      WriterEntry(env, task.writer, task.frameId, task.event);
    }
    IdsGoOn(s.db.table, f);
  }

  lemma CommitMoves(env: Env, s: State, r: nat, answered: bool)
    requires TasksOk(env, s) && r in s.busy && s.db.replicas[r].phase.AppendInserted?
    ensures
      var calls := CommitRow(env.hash, s, r, answered).calls;
      && (calls == s.calls || (!s.busy[r].Writing? && Moves(s.calls, calls, s.busy[r].call)))
      && CommitRow(env.hash, s, r, answered) ==
           s.(db := R.Apply(env.hash, s.db, R.CommitFrame(r)), busy := s.busy - {r}, calls := calls)
  {}

  lemma FrameCommitKeeps(env: Env, s: State, r: nat, answered: bool)
    requires Inv(env, s) && r in s.busy && s.db.replicas[r].phase.AppendInserted?
    ensures Inv(env, CommitRow(env.hash, s, r, answered))
  {
    FrameCommitKeepsIds(env, s, r);
    CommitMoves(env, s, r, answered);
    TransactionEnds(env, s, R.CommitFrame(r), CommitRow(env.hash, s, r, answered).calls);
  }

  lemma NonceCommitKeeps(env: Env, s: State, r: nat, answered: bool)
    requires Inv(env, s) && r in s.busy && s.db.replicas[r].phase.ClaimInserted?
    ensures Inv(env, CommitRow(env.hash, s, r, answered))
  {
    CommittedNonce(env, s, r);
    TransactionEnds(env, s, R.CommitNonce(r), CommitRow(env.hash, s, r, answered).calls);
  }

  lemma CommitKeeps(env: Env, s: State, r: nat, answered: bool)
    requires Inv(env, s)
    ensures Inv(env, CommitRow(env.hash, s, r, answered))
  {
    if r in s.busy && r in s.db.replicas {
      if s.db.replicas[r].phase.AppendInserted? {
        FrameCommitKeeps(env, s, r, answered);
      } else if s.db.replicas[r].phase.ClaimInserted? {
        NonceCommitKeeps(env, s, r, answered);
      }
    }
  }

  // ----- calls -----

  /** A call inside no transaction moves on. */
  lemma MovingKeeps(env: Env, s: State, t: nat, p: B.Phase, effects: seq<B.Effect>)
    requires Inv(env, s)
    requires t in s.calls ==> (Free(s, t) || (!s.calls[t].Validated? && !s.calls[t].Invoked?))
    ensures Inv(env, s.(calls := s.calls[t := p], effects := effects))
  {
    var s' := s.(calls := s.calls[t := p], effects := effects);
    forall r | r in s'.busy ensures r in s'.db.replicas && TaskOk(env, s'.calls, s'.busy[r], s'.db.replicas[r].phase) {
      assert TaskOk(env, s.calls, s.busy[r], s.db.replicas[r].phase);
      TaskStays(env, s.calls, s'.calls, s.busy[r], s.db.replicas[r].phase);
    }
  }

  lemma EndingKeeps(env: Env, s: State, t: nat)
    requires Inv(env, s) && Free(s, t)
    ensures Inv(env, s.(calls := Ended(s.calls, t)))
    ensures Mirrors(env, s, s.(calls := Ended(s.calls, t)), Some(B.Crash(t)))
  {
    if t in s.calls && B.Unfinished(s.calls[t]) {
      MovingKeeps(env, s, t, B.Crashed(s.calls[t]), s.effects);
      assert s.(calls := Ended(s.calls, t)) == s.(calls := s.calls[t := B.Crashed(s.calls[t])], effects := s.effects);
    }
  }

  lemma RunningKeeps(env: Env, s: State, t: nat, outcome: Outcome)
    requires Inv(env, s)
    ensures Inv(env, Apply(env, s, RunAction(t, outcome)))
    ensures Mirrors(env, s, Apply(env, s, RunAction(t, outcome)), Some(B.RunAction(t, outcome)))
  {
    if t in s.calls && s.calls[t].Claimed? {
      var a := s.calls[t].a;
      MovingKeeps(env, s, t, B.Invoked(a, outcome), s.effects + [B.Effect(t, a, |s.db.table|)]);
    }
  }

  lemma BreakingMoves(hash: Hasher<Event>, db: R.State<Event>, st: R.Step<Event>)
    requires st.Die? || st.Abort?
    ensures var db' := R.Apply(hash, db, st);
            db'.table == db.table && db'.consumed == db.consumed
  {}

  lemma IdleBreaks(env: Env, s: State, st: R.Step<Event>)
    requires Inv(env, s) && st.r !in s.busy && (st.Die? || st.Abort?)
    ensures Inv(env, s.(db := R.Apply(env.hash, s.db, st), busy := s.busy - {st.r}))
  {
    BreakingMoves(env.hash, s.db, st);
    R.ApplyKeepsInv(env.hash, s.db, st);
    OthersStay(env.hash, s.db, st);
    TasksStay(env, s, s.(db := R.Apply(env.hash, s.db, st), busy := s.busy - {st.r}), st.r);
  }

  lemma BreakingKeeps(env: Env, s: State, st: R.Step<Event>)
    requires Inv(env, s) && (st.Die? || st.Abort?)
    ensures Inv(env, Broken(env.hash, s, st))
  {
    if st.r in s.busy {
      BreakingMoves(env.hash, s.db, st);
      EndedMoves(s.calls, s.busy[st.r]);
      TransactionEnds(env, s, st, EndedWith(s.calls, s.busy[st.r]));
    } else {
      IdleBreaks(env, s, st);
    }
  }

  lemma BreakingShows(env: Env, s: State, st: R.Step<Event>) returns (b: Option<B.Step>)
    requires st.Die? || st.Abort?
    ensures Mirrors(env, s, Broken(env.hash, s, st), b)
  {
    BreakingMoves(env.hash, s.db, st);
    b := None;
    if st.r in s.busy && !s.busy[st.r].Writing? {
      EndedShows(env, Shown(s), s.busy[st.r].call);
      b := Some(B.Crash(s.busy[st.r].call));
    }
  }

  // ----- refinement -----

  lemma StartSimulates(env: Env, s: State, r: nat, task: Task) returns (b: Option<B.Step>)
    requires Inv(env, s) && Ready(s, r)
    requires task.Writing? ==> EntryOf(env, task.writer) == Some((task.frameId, task.event))
    ensures var s' := StartTask(env, s, r, task); Inv(env, s') && Mirrors(env, s, s', b)
  {
    if && task.Claiming? && task.call in s.calls && s.calls[task.call].Validated? && Free(s, task.call)
       && s.calls[task.call].a.payload.nonce == "" {
      EndingKeeps(env, s, task.call);
      b := Some(B.Crash(task.call));
    } else {
      StartKeeps(env, s, r, task);
      b := None;
    }
  }

  lemma StartStepSimulates(env: Env, s: State, step: Step) returns (b: Option<B.Step>)
    requires Inv(env, s) && (step.StartWrite? || step.StartClaim? || step.StartRecord?)
    ensures Inv(env, Apply(env, s, step)) && Mirrors(env, s, Apply(env, s, step), b)
  {
    b := None;
    if Ready(s, step.r) {
      if step.StartWrite? {
        var entry := EntryOf(env, step.writer);
        if entry.Some? {
          b := StartSimulates(env, s, step.r, Writing(step.writer, entry.value.0, entry.value.1));
        }
      } else {
        b := StartSimulates(env, s, step.r, if step.StartClaim? then Claiming(step.call) else Recording(step.call));
      }
    }
  }

  lemma CheckStepSimulates(env: Env, s: State, step: Step) returns (b: Option<B.Step>)
    requires Inv(env, s) && (step.CheckNonce? || step.CheckFrame?)
    ensures Inv(env, Apply(env, s, step)) && Mirrors(env, s, Apply(env, s, step), b)
  {
    b := None;
    match step
    case CheckNonce(r, t, a, issuerKeys, now) =>
      BeginKeeps(env, s, r, t, a, issuerKeys, now);
      if Ready(s, r) && t !in s.calls {
        BeginShows(env, s, r, t, a, issuerKeys, now);
        b := Some(B.Begin(t, a, issuerKeys, now));
      }
    case CheckFrame(r, t, policies, keys) =>
      ReadKeeps(env, s, r, t, policies, keys);
      if Ready(s, r) && t in s.calls && s.calls[t].NonceChecked? {
        ReadShows(env, s, r, t, policies, keys);
        b := Some(B.ReadFrame(t, policies, keys));
      }
  }

  /** Every step of every replica is one step of the barrier over the shared log, or none, and never a restart. */
  lemma StepSimulates(env: Env, s: State, step: Step) returns (b: Option<B.Step>)
    requires Inv(env, s)
    ensures Inv(env, Apply(env, s, step)) && Mirrors(env, s, Apply(env, s, step), b)
  {
    b := None;
    match step
    case Internal(st) =>
      if IsInternal(st) {
        InternalKeeps(env, s, st);
      }
    case Insert(r) =>
      InsertKeeps(env, s, r);
      b := InsertShows(env, s, r);
    case Commit(r, answered) =>
      CommitKeeps(env, s, r, answered);
      b := CommitShows(env, s, r, answered);
    case RunAction(t, outcome) =>
      RunningKeeps(env, s, t, outcome);
      b := Some(B.RunAction(t, outcome));
    case CrashCall(t) =>
      if Free(s, t) {
        EndingKeeps(env, s, t);
        b := Some(B.Crash(t));
      }
    case Abort(r) =>
      BreakingKeeps(env, s, R.Abort(r));
      b := BreakingShows(env, s, R.Abort(r));
    case Die(r) =>
      BreakingKeeps(env, s, R.Die(r));
      b := BreakingShows(env, s, R.Die(r));
    case _ =>
      if step.CheckNonce? || step.CheckFrame? {
        b := CheckStepSimulates(env, s, step);
      } else {
        b := StartStepSimulates(env, s, step);
      }
  }

  ghost predicate NoRestart(steps: seq<B.Step>) {
    forall i | 0 <= i < |steps| :: !steps[i].Restart?
  }

  /** Every interleaved run of the replicas is a run of the barrier over the one shared log. */
  lemma {:induction false} RunSimulates(env: Env, s: State, steps: seq<Step>) returns (bs: seq<B.Step>)
    requires Inv(env, s)
    ensures Inv(env, Run(env, s, steps)) && NoRestart(bs)
    ensures Shown(Run(env, s, steps)) == B.Run(env, Shown(s), bs)
    decreases |steps|
  {
    bs := [];
    if steps != [] {
      var b := StepSimulates(env, s, steps[0]);
      bs := RunSimulates(env, Apply(env, s, steps[0]), steps[1..]);
      if b.Some? {
        assert ([b.value] + bs)[1..] == bs;
        bs := [b.value] + bs;
      }
    }
  }

  lemma {:induction false} NoRestartIsSafe(env: Env, s: B.State, bs: seq<B.Step>)
    requires NoRestart(bs)
    ensures B.SafeRestarts(env, s, bs)
    decreases |bs|
  {
    if bs != [] {
      assert forall i | 0 <= i < |bs[1..]| :: bs[1..][i] == bs[i + 1];
      NoRestartIsSafe(env, B.Apply(env, s, bs[0]), bs[1..]);
    }
  }

  /**
   * Over all runs of all replicas, whatever interleaves or dies: the shared
   * table is a valid chain, every cache is a prefix of it, every execution and
   * every action follows the authorization of its artifact, and no nonce's
   * action runs twice, since nonces are never reloaded from frames.
   */
  lemma ReplicatedSafety(env: Env, steps: seq<Step>)
    ensures var s := Run(env, INITIAL, steps);
      && ChainValid(env.hash, s.db.table) && FrameIdsUnique(s.db.table)
      && (forall r | r in s.db.replicas :: s.db.replicas[r].frames <= s.db.table)
      && (forall j | 0 <= j < |s.db.table| && s.db.table[j].event.Execution? ::
            exists a: Artifact, outcome ::
              s.db.table[j].event == ExecutionEvent(a, outcome) && B.IssuedBefore(s.db.table, j, a))
      && (forall k | 0 <= k < |s.effects| :: B.IssuedBefore(s.db.table, s.effects[k].at, s.effects[k].a))
      && !B.Repeats(s.effects)
  {
    var s := Run(env, INITIAL, steps);
    var bs := RunSimulates(env, INITIAL, steps);
    NoRestartIsSafe(env, B.INITIAL, bs);
    B.BarrierSafety(env, bs);
    B.AtMostOnce(env, bs);
    forall r | r in s.db.replicas ensures s.db.replicas[r].frames <= s.db.table {
      assert R.ReplicaOk(env.hash, s.db, r, s.db.replicas[r]);
    }
  }

  // ----- a call nobody disturbs -----

  /** Replica r is ready, no transaction is open and no lock is held. */
  ghost predicate Quiet(s: State, r: nat) {
    Ready(s, r) && s.busy == map[] && s.db.appendLock.None? && s.db.claimLock.None?
  }

  function ClaimSteps(r: nat, t: nat): seq<Step> {
    [StartClaim(r, t), Insert(r), Commit(r, true), Internal(R.RememberNonce(r))]
  }

  function RecordSteps(r: nat, t: nat): seq<Step> {
    [StartRecord(r, t), Internal(R.ReadFrames(r)), Insert(r), Commit(r, true), Internal(R.ExtendCache(r))]
  }

  lemma {:induction false} RunAppend(env: Env, s: State, a: seq<Step>, b: seq<Step>)
    ensures Run(env, s, a + b) == Run(env, Run(env, s, a), b)
    decreases |a|
  {
    if a == [] {
      assert a + b == b;
    } else {
      assert (a + b)[1..] == a[1..] + b;
      RunAppend(env, Apply(env, s, a[0]), a[1..], b);
    }
  }

  lemma RunInParts(env: Env, s: State, a: seq<Step>, b: seq<Step>, c: seq<Step>, d: seq<Step>)
    ensures Run(env, s, a + b + c + d) == Run(env, Run(env, Run(env, Run(env, s, a), b), c), d)
  {
    RunAppend(env, s, a, b);
    RunAppend(env, s, a + b, c);
    RunAppend(env, s, a + b + c, d);
  }

  lemma RunTwoSteps(env: Env, s: State, x: Step, y: Step)
    ensures Run(env, s, [x, y]) == Apply(env, Apply(env, s, x), y)
  {
    assert [x, y][1..] == [y] && [y][1..] == [];
    assert Run(env, Apply(env, s, x), [y]) == Run(env, Apply(env, Apply(env, s, x), y), []);
  }

  lemma RunFourSteps(env: Env, s: State, w: Step, x: Step, y: Step, z: Step)
    ensures Run(env, s, [w, x, y, z]) == Apply(env, Apply(env, Apply(env, Apply(env, s, w), x), y), z)
  {
    assert [w, x, y, z] == [w, x] + [y, z];
    RunAppend(env, s, [w, x], [y, z]);
    RunTwoSteps(env, s, w, x);
    RunTwoSteps(env, Run(env, s, [w, x]), y, z);
  }

  /** Replica r is inside the only open transaction, about to commit. */
  ghost predicate AboutToCommit(s: State, r: nat, task: Task, db: R.State<Event>) {
    && s.busy == map[r := task] && r in s.db.replicas
    && s.db.table == db.table && s.db.consumed == db.consumed
    && s.db.appendLock == (if task.Recording? then Some(r) else None)
    && s.db.claimLock == (if task.Claiming? then Some(r) else None)
  }

  lemma ClaimInserts(env: Env, s: State, r: nat, t: nat)
    requires Quiet(s, r) && t in s.calls && s.calls[t].Validated?
    requires s.calls[t].a.payload.nonce != "" && s.calls[t].a.payload.nonce !in s.db.consumed
    ensures
      var s' := Apply(env, Apply(env, s, StartClaim(r, t)), Insert(r));
      && AboutToCommit(s', r, Claiming(t), s.db) && s'.calls == s.calls && s'.effects == s.effects
      && s'.db.replicas[r].phase == R.ClaimInserted(s.calls[t].a.payload.nonce)
  {
    assert Apply(env, s, StartClaim(r, t)).busy == map[r := Claiming(t)];
  }

  lemma ClaimCommits(env: Env, s: State, r: nat, t: nat)
    requires t in s.calls && s.calls[t].Validated? && AboutToCommit(s, r, Claiming(t), s.db)
    requires s.db.replicas[r].phase == R.ClaimInserted(s.calls[t].a.payload.nonce)
    ensures
      var a := s.calls[t].a;
      var s' := Apply(env, Apply(env, s, Commit(r, true)), Internal(R.RememberNonce(r)));
      && Quiet(s', r)
      && Shown(s') == Shown(s).(calls := s.calls[t := B.Claimed(a)], used := s.db.consumed + {a.payload.nonce})
  {
    assert Apply(env, s, Commit(r, true)).busy == map[];
  }

  /** An undisturbed claim grants a nonce nobody claimed, and leaves the replica ready. */
  lemma ClaimCompletes(env: Env, s: State, r: nat, t: nat)
    requires Quiet(s, r) && t in s.calls && s.calls[t].Validated?
    requires s.calls[t].a.payload.nonce != "" && s.calls[t].a.payload.nonce !in s.db.consumed
    ensures
      var a := s.calls[t].a;
      var s' := Run(env, s, ClaimSteps(r, t));
      && Quiet(s', r)
      && Shown(s') == Shown(s).(calls := s.calls[t := B.Claimed(a)], used := s.db.consumed + {a.payload.nonce})
  {
    ClaimInserts(env, s, r, t);
    ClaimCommits(env, Apply(env, Apply(env, s, StartClaim(r, t)), Insert(r)), r, t);
    RunFourSteps(env, s, StartClaim(r, t), Insert(r), Commit(r, true), Internal(R.RememberNonce(r)));
  }

  lemma RecordInserts(env: Env, s: State, r: nat, t: nat)
    requires Quiet(s, r) && t in s.calls && s.calls[t].Invoked?
    requires !R.Taken(s.db.table, ExecutionId(s.calls[t].a.payload.nonce))
    ensures
      var id, e := ExecutionId(s.calls[t].a.payload.nonce), ExecutionEvent(s.calls[t].a, s.calls[t].outcome);
      var s' := Apply(env, Apply(env, Apply(env, s, StartRecord(r, t)), Internal(R.ReadFrames(r))), Insert(r));
      && AboutToCommit(s', r, Recording(t), s.db) && s'.calls == s.calls && s'.effects == s.effects
      && s'.db.replicas[r].phase == R.AppendInserted(NextFrame(env.hash, s.db.table, id, e))
  {
    assert Apply(env, s, StartRecord(r, t)).busy == map[r := Recording(t)];
  }

  lemma RecordCommits(env: Env, s: State, r: nat, t: nat)
    requires t in s.calls && s.calls[t].Invoked? && AboutToCommit(s, r, Recording(t), s.db)
    requires
      var id, e := ExecutionId(s.calls[t].a.payload.nonce), ExecutionEvent(s.calls[t].a, s.calls[t].outcome);
      s.db.replicas[r].phase == R.AppendInserted(NextFrame(env.hash, s.db.table, id, e))
    ensures
      var a, outcome := s.calls[t].a, s.calls[t].outcome;
      var s' := Apply(env, Apply(env, s, Commit(r, true)), Internal(R.ExtendCache(r)));
      && Quiet(s', r)
      && Shown(s') == Shown(s).(
           log := B.Written(env.hash, s.db.table, ExecutionId(a.payload.nonce), ExecutionEvent(a, outcome)),
           calls := s.calls[t := B.Returned(a, outcome, |s.db.table|)])
  {
    assert Apply(env, s, Commit(r, true)).busy == map[];
  }

  /** An undisturbed record appends the execution frame. */
  lemma RecordCompletes(env: Env, s: State, r: nat, t: nat)
    requires Quiet(s, r) && t in s.calls && s.calls[t].Invoked?
    requires !R.Taken(s.db.table, ExecutionId(s.calls[t].a.payload.nonce))
    ensures
      var a, outcome := s.calls[t].a, s.calls[t].outcome;
      var s' := Run(env, s, RecordSteps(r, t));
      && Quiet(s', r)
      && Shown(s') == Shown(s).(
           log := B.Written(env.hash, s.db.table, ExecutionId(a.payload.nonce), ExecutionEvent(a, outcome)),
           calls := s.calls[t := B.Returned(a, outcome, |s.db.table|)])
  {
    var steps := RecordSteps(r, t);
    RecordInserts(env, s, r, t);
    var s3 := Apply(env, Apply(env, Apply(env, s, StartRecord(r, t)), Internal(R.ReadFrames(r))), Insert(r));
    RecordCommits(env, s3, r, t);
    var s1 := Apply(env, s, steps[0]);
    assert steps == [steps[0]] + [steps[1], steps[2], steps[3], steps[4]];
    RunFourSteps(env, s1, steps[1], steps[2], steps[3], steps[4]);
    assert steps[1..] == [steps[1], steps[2], steps[3], steps[4]];
  }

  /** The steps of one call through replica r. */
  function Attempt(
    r: nat, t: nat, a: Artifact, outcome: Outcome, issuerKeys: map<string, PublicKey>, now: int,
    policies: Option<map<string, Policy>>, keys: map<string, PublicKey>): seq<Step>
  {
    [CheckNonce(r, t, a, issuerKeys, now), CheckFrame(r, t, policies, keys)]
    + ClaimSteps(r, t) + [RunAction(t, outcome)] + RecordSteps(r, t)
  }

  lemma BeginPasses(
    env: Env, s: State, r: nat, t: nat, a: Artifact, issuerKeys: map<string, PublicKey>, now: int)
    requires Quiet(s, r) && t !in s.calls
    requires CheckCredentials(env, issuerKeys, now, a.payload.nonce in s.db.consumed, a).None?
    ensures
      var s' := BeginCheck(env, s, r, t, a, issuerKeys, now);
      Quiet(s', r) && Shown(s') == Shown(s).(calls := s.calls[t := B.NonceChecked(a)])
  {
    FreshNonces(env.hash, s, r);
  }

  lemma ReadPasses(
    env: Env, s: State, r: nat, t: nat, policies: Option<map<string, Policy>>, keys: map<string, PublicKey>)
    requires Quiet(s, r) && t in s.calls && s.calls[t].NonceChecked?
    requires CheckEvidence(
               env, policies, keys, FindFrame(s.db.table, s.calls[t].a.payload.frameRef), s.calls[t].a).None?
    ensures
      var s' := ReadCheck(env, s, r, t, policies, keys);
      Quiet(s', r) && Shown(s') == Shown(s).(calls := s.calls[t := B.Validated(s.calls[t].a)])
  {
    FreshFrames(env.hash, s, r);
  }

  lemma BothChecksPass(
    env: Env, s: State, r: nat, t: nat, a: Artifact, issuerKeys: map<string, PublicKey>, now: int,
    policies: Option<map<string, Policy>>, keys: map<string, PublicKey>)
    requires Quiet(s, r) && t !in s.calls
    requires CheckCredentials(env, issuerKeys, now, a.payload.nonce in s.db.consumed, a).None?
    requires CheckEvidence(env, policies, keys, FindFrame(s.db.table, a.payload.frameRef), a).None?
    ensures
      var s' := ReadCheck(env, BeginCheck(env, s, r, t, a, issuerKeys, now), r, t, policies, keys);
      Quiet(s', r) && Shown(s') == Shown(s).(calls := s.calls[t := B.Validated(a)])
  {
    BeginPasses(env, s, r, t, a, issuerKeys, now);
    ReadAfterBegin(env, s, BeginCheck(env, s, r, t, a, issuerKeys, now), r, t, a, policies, keys);
  }

  lemma ReadAfterBegin(
    env: Env, s: State, s1: State, r: nat, t: nat, a: Artifact,
    policies: Option<map<string, Policy>>, keys: map<string, PublicKey>)
    requires Quiet(s1, r) && Shown(s1) == Shown(s).(calls := s.calls[t := B.NonceChecked(a)])
    requires CheckEvidence(env, policies, keys, FindFrame(s.db.table, a.payload.frameRef), a).None?
    ensures
      var s' := ReadCheck(env, s1, r, t, policies, keys);
      Quiet(s', r) && Shown(s') == Shown(s).(calls := s.calls[t := B.Validated(a)])
  {
    ReadPasses(env, s1, r, t, policies, keys);
    assert s.calls[t := B.NonceChecked(a)][t := B.Validated(a)] == s.calls[t := B.Validated(a)];
  }

  /** What it means to pass validation against the shared tables. */
  lemma ValidParts(
    env: Env, used: set<string>, log: Log, a: Artifact, issuerKeys: map<string, PublicKey>, now: int,
    policies: Option<map<string, Policy>>, keys: map<string, PublicKey>)
    requires Validate(env, issuerKeys, now, used, log, policies, keys, a).None?
    ensures CheckCredentials(env, issuerKeys, now, a.payload.nonce in used, a).None? && a.payload.nonce !in used
    ensures CheckEvidence(env, policies, keys, FindFrame(log, a.payload.frameRef), a).None?
  {}

  lemma CheckCompletes(
    env: Env, s: State, r: nat, t: nat, a: Artifact, issuerKeys: map<string, PublicKey>, now: int,
    policies: Option<map<string, Policy>>, keys: map<string, PublicKey>)
    requires Quiet(s, r) && t !in s.calls
    requires Validate(env, issuerKeys, now, s.db.consumed, s.db.table, policies, keys, a).None?
    ensures
      var s' := Run(env, s, [CheckNonce(r, t, a, issuerKeys, now), CheckFrame(r, t, policies, keys)]);
      && Quiet(s', r) && a.payload.nonce !in s.db.consumed
      && Shown(s') == Shown(s).(calls := s.calls[t := B.Validated(a)])
  {
    ValidParts(env, s.db.consumed, s.db.table, a, issuerKeys, now, policies, keys);
    RunTwoSteps(env, s, CheckNonce(r, t, a, issuerKeys, now), CheckFrame(r, t, policies, keys));
    BothChecksPass(env, s, r, t, a, issuerKeys, now, policies, keys);
  }

  lemma InvokeCompletes(env: Env, s: State, r: nat, t: nat, outcome: Outcome)
    requires Quiet(s, r) && t in s.calls && s.calls[t].Claimed?
    ensures
      var a := s.calls[t].a;
      var s' := Run(env, s, [RunAction(t, outcome)]);
      && Quiet(s', r)
      && Shown(s') == Shown(s).(
           calls := s.calls[t := B.Invoked(a, outcome)], effects := s.effects + [B.Effect(t, a, |s.db.table|)])
  {
    assert Run(env, Apply(env, s, RunAction(t, outcome)), []) == Apply(env, s, RunAction(t, outcome));
    assert [RunAction(t, outcome)][1..] == [];
  }

  lemma AttemptInParts(
    env: Env, s: State, r: nat, t: nat, a: Artifact, outcome: Outcome, issuerKeys: map<string, PublicKey>, now: int,
    policies: Option<map<string, Policy>>, keys: map<string, PublicKey>)
    ensures
      var s1 := Run(env, s, [CheckNonce(r, t, a, issuerKeys, now), CheckFrame(r, t, policies, keys)]);
      Run(env, s, Attempt(r, t, a, outcome, issuerKeys, now, policies, keys)) ==
        Run(env, Run(env, Run(env, s1, ClaimSteps(r, t)), [RunAction(t, outcome)]), RecordSteps(r, t))
  {
    var check := [CheckNonce(r, t, a, issuerKeys, now), CheckFrame(r, t, policies, keys)];
    RunInParts(env, s, check, ClaimSteps(r, t), [RunAction(t, outcome)], RecordSteps(r, t));
  }

  /** The barrier after it claimed, ran and recorded an artifact. */
  function Served(hash: Hasher<Event>, b: B.State, t: nat, a: Artifact, outcome: Outcome): B.State {
    B.State(
      B.Written(hash, b.log, ExecutionId(a.payload.nonce), ExecutionEvent(a, outcome)),
      b.used + {a.payload.nonce}, b.calls[t := B.Returned(a, outcome, |b.log|)],
      b.effects + [B.Effect(t, a, |b.log|)])
  }

  /** From a validated call to its frame. */
  lemma ActCompletes(env: Env, s: State, r: nat, t: nat, outcome: Outcome)
    requires Quiet(s, r) && t in s.calls && s.calls[t].Validated?
    requires s.calls[t].a.payload.nonce != "" && s.calls[t].a.payload.nonce !in s.db.consumed
    requires !R.Taken(s.db.table, ExecutionId(s.calls[t].a.payload.nonce))
    ensures
      var a := s.calls[t].a;
      var s' := Run(env, Run(env, Run(env, s, ClaimSteps(r, t)), [RunAction(t, outcome)]), RecordSteps(r, t));
      Quiet(s', r) && Shown(s') == Served(env.hash, Shown(s), t, a, outcome)
  {
    var a := s.calls[t].a;
    ClaimCompletes(env, s, r, t);
    var s2 := Run(env, s, ClaimSteps(r, t));
    InvokeCompletes(env, s2, r, t, outcome);
    var s3 := Run(env, s2, [RunAction(t, outcome)]);
    assert s3.calls == s.calls[t := B.Invoked(a, outcome)];
    RecordCompletes(env, s3, r, t);
    assert s3.calls[t := B.Returned(a, outcome, |s.db.table|)] == s.calls[t := B.Returned(a, outcome, |s.db.table|)];
  }

  lemma ValidatedGoesOn(env: Env, s: State, s1: State, r: nat, t: nat, a: Artifact, outcome: Outcome)
    requires Quiet(s1, r) && Shown(s1) == Shown(s).(calls := s.calls[t := B.Validated(a)])
    requires a.payload.nonce != "" && a.payload.nonce !in s.db.consumed
    requires !R.Taken(s.db.table, ExecutionId(a.payload.nonce))
    ensures
      var s' := Run(env, Run(env, Run(env, s1, ClaimSteps(r, t)), [RunAction(t, outcome)]), RecordSteps(r, t));
      Quiet(s', r) && Shown(s') == Served(env.hash, Shown(s), t, a, outcome)
  {
    ActCompletes(env, s1, r, t, outcome);
    assert s1.calls[t := B.Returned(a, outcome, |s.db.table|)] == s.calls[t := B.Returned(a, outcome, |s.db.table|)];
  }

  /**
   * A call that nobody disturbs does over a replica what it does over the
   * in-memory log: a valid artifact with a nonce that is not empty is claimed,
   * run once and recorded.
   */
  lemma UninterruptedCall(
    env: Env, s: State, r: nat, t: nat, a: Artifact, outcome: Outcome, issuerKeys: map<string, PublicKey>, now: int,
    policies: Option<map<string, Policy>>, keys: map<string, PublicKey>)
    requires Quiet(s, r) && t !in s.calls && a.payload.nonce != ""
    requires Validate(env, issuerKeys, now, s.db.consumed, s.db.table, policies, keys, a).None?
    requires !R.Taken(s.db.table, ExecutionId(a.payload.nonce))
    ensures
      var s' := Run(env, s, Attempt(r, t, a, outcome, issuerKeys, now, policies, keys));
      Quiet(s', r) && Shown(s') == Served(env.hash, Shown(s), t, a, outcome)
  {
    CheckCompletes(env, s, r, t, a, issuerKeys, now, policies, keys);
    AttemptInParts(env, s, r, t, a, outcome, issuerKeys, now, policies, keys);
    var s1 := Run(env, s, [CheckNonce(r, t, a, issuerKeys, now), CheckFrame(r, t, policies, keys)]);
    ValidatedGoesOn(env, s, s1, r, t, a, outcome);
  }
}
