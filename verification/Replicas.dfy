/**
 * Many `PostgresReplayLog` replicas over one frame table and one nonce table.
 *
 * A replica's own lock serialises its methods; between replicas every SQL
 * statement interleaves freely, and a replica may die at any point, which rolls
 * its open transaction back.
 */
module Replicas {
  import opened Wrappers
  import opened ReplayChain

  datatype Phase<E> =
    /** frames read, nonces not yet */
    | Connecting
    | Ready
    | AppendLocked(frameId: string, event: E)
    | AppendRead(frameId: string, event: E)
    | AppendInserted(frame: Frame<E>)
    /** committed, the lock released, the cache not yet extended */
    | AppendCommitted(frame: Frame<E>)
    | ClaimLocked(nonce: string)
    | ClaimInserted(nonce: string)
    | ClaimCommitted(nonce: string)

  datatype Replica<E> = Replica(frames: seq<Frame<E>>, used: set<string>, phase: Phase<E>)

  datatype Grant = Grant(replica: nat, nonce: string)

  /** The two tables, the two advisory locks, the replicas, and the claims that returned normally. */
  datatype State<E> = State(
    table: seq<Frame<E>>,
    consumed: set<string>,
    appendLock: Option<nat>,
    claimLock: Option<nat>,
    replicas: map<nat, Replica<E>>,
    granted: seq<Grant>)

  datatype Step<E> =
    | Connect(r: nat)
    | Die(r: nat)
    /** a statement raises: before the commit took effect it rolls back, after it only the answer is lost */
    | Abort(r: nat)
    | ReadFrames(r: nat)
    | ReadNonces(r: nat)
    | LockAppend(r: nat, frameId: string, event: E)
    | InsertFrame(r: nat)
    | CommitFrame(r: nat)
    | ExtendCache(r: nat)
    | LockClaim(r: nat, nonce: string)
    | InsertNonce(r: nat)
    | CommitNonce(r: nat)
    | RememberNonce(r: nat)

  function Initial<E>(): State<E> {
    State([], {}, None, None, map[], [])
  }

  predicate Taken<E>(table: seq<Frame<E>>, frameId: string) {
    FindFrame(table, frameId).Some?
  }

  function With<E>(s: State<E>, r: nat, replica: Replica<E>): State<E> {
    s.(replicas := s.replicas[r := replica])
  }

  function Released(lock: Option<nat>, r: nat): Option<nat> {
    if lock == Some(r) then None else lock
  }

  function Apply<E>(hash: Hasher<E>, s: State<E>, step: Step<E>): State<E> {
    if step.Connect? then
      if step.r in s.replicas then s else With(s, step.r, Replica(s.table, {}, Connecting))
    else if step.r !in s.replicas then s
    else
      var r, me := step.r, s.replicas[step.r];
      match step
      case Die(_) =>
        s.(replicas := s.replicas - {r}, appendLock := Released(s.appendLock, r), claimLock := Released(s.claimLock, r))
      case Abort(_) =>
        if me.phase.Ready? || me.phase.Connecting? then s
        else
          With(s, r, me.(phase := Ready))
          .(appendLock := Released(s.appendLock, r), claimLock := Released(s.claimLock, r))
      case ReadFrames(_) =>
        if me.phase.Ready? then With(s, r, me.(frames := s.table))
        else if me.phase.AppendLocked? then
          With(s, r, me.(frames := s.table, phase := AppendRead(me.phase.frameId, me.phase.event)))
        else s
      case ReadNonces(_) =>
        if me.phase.Connecting? then With(s, r, me.(used := s.consumed, phase := Ready))
        else if me.phase.Ready? || me.phase.AppendRead? then With(s, r, me.(used := s.consumed))
        else s
      case LockAppend(_, id, e) =>
        if me.phase.Ready? && s.appendLock.None? then
          With(s, r, me.(phase := AppendLocked(id, e))).(appendLock := Some(r))
        else s
      case InsertFrame(_) =>
        if !me.phase.AppendRead? then s
        else if Taken(s.table, me.phase.frameId) then
          With(s, r, me.(phase := Ready)).(appendLock := Released(s.appendLock, r))
        else With(s, r, me.(phase := AppendInserted(NextFrame(hash, me.frames, me.phase.frameId, me.phase.event))))
      case CommitFrame(_) =>
        if !me.phase.AppendInserted? then s
        else
          With(s, r, me.(phase := AppendCommitted(me.phase.frame)))
          .(table := s.table + [me.phase.frame], appendLock := Released(s.appendLock, r))
      case ExtendCache(_) =>
        if !me.phase.AppendCommitted? then s
        else With(s, r, me.(frames := me.frames + [me.phase.frame], phase := Ready))
      case LockClaim(_, n) =>
        if me.phase.Ready? && s.claimLock.None? && n != "" then
          With(s, r, me.(phase := ClaimLocked(n))).(claimLock := Some(r))
        else s
      case InsertNonce(_) =>
        if !me.phase.ClaimLocked? then s
        else if me.phase.nonce in s.consumed then
          With(s, r, me.(phase := Ready)).(claimLock := Released(s.claimLock, r))
        else With(s, r, me.(phase := ClaimInserted(me.phase.nonce)))
      case CommitNonce(_) =>
        if !me.phase.ClaimInserted? then s
        else
          With(s, r, me.(phase := ClaimCommitted(me.phase.nonce)))
          .(consumed := s.consumed + {me.phase.nonce}, claimLock := Released(s.claimLock, r))
      case RememberNonce(_) =>
        if !me.phase.ClaimCommitted? then s
        else
          With(s, r, me.(used := me.used + {me.phase.nonce}, phase := Ready))
          .(granted := s.granted + [Grant(r, me.phase.nonce)])
  }

  function Run<E>(hash: Hasher<E>, s: State<E>, steps: seq<Step<E>>): State<E>
    decreases |steps|
  {
    if steps == [] then s else Run(hash, Apply(hash, s, steps[0]), steps[1..])
  }

  // ----- what every step keeps -----

  /** What a replica in some phase may rely on. */
  ghost predicate PhaseOk<E>(hash: Hasher<E>, s: State<E>, r: nat, me: Replica<E>) {
    match me.phase
    case Connecting => true
    case Ready => true
    case AppendLocked(_, _) => s.appendLock == Some(r)
    case AppendRead(_, _) => s.appendLock == Some(r) && me.frames == s.table
    case AppendInserted(f) =>
      && s.appendLock == Some(r) && me.frames == s.table
      && f == NextFrame(hash, s.table, f.frameId, f.event) && !Taken(s.table, f.frameId)
    case AppendCommitted(f) => |me.frames| < |s.table| && s.table[|me.frames|] == f
    case ClaimLocked(_) => s.claimLock == Some(r)
    case ClaimInserted(n) => s.claimLock == Some(r) && n !in s.consumed
    case ClaimCommitted(n) => n in s.consumed && forall g | g in s.granted :: g.nonce != n
  }

  ghost predicate ReplicaOk<E>(hash: Hasher<E>, s: State<E>, r: nat, me: Replica<E>) {
    && me.frames <= s.table
    && me.used <= s.consumed
    && PhaseOk(hash, s, r, me)
  }

  ghost predicate ClaimsExclusive<E>(s: State<E>) {
    && (forall q, r | q in s.replicas && r in s.replicas && q != r
          && s.replicas[q].phase.ClaimCommitted? && s.replicas[r].phase.ClaimCommitted? ::
          s.replicas[q].phase.nonce != s.replicas[r].phase.nonce)
    && (forall g | g in s.granted :: g.nonce in s.consumed)
    && (forall i, j | 0 <= i < j < |s.granted| :: s.granted[i].nonce != s.granted[j].nonce)
  }

  ghost predicate Inv<E>(hash: Hasher<E>, s: State<E>) {
    && ChainValid(hash, s.table)
    && FrameIdsUnique(s.table)
    && (forall r | r in s.replicas :: ReplicaOk(hash, s, r, s.replicas[r]))
    && ClaimsExclusive(s)
  }

  /** Tables that only grew, with locks a bystander does not hold, leave that bystander as it was. */
  lemma BystanderKeeps<E>(hash: Hasher<E>, s: State<E>, s': State<E>, q: nat, r: nat, me: Replica<E>)
    requires q != r && ReplicaOk(hash, s, q, me)
    requires s.table <= s'.table && s.consumed <= s'.consumed
    requires s'.table != s.table ==> s.appendLock == Some(r)
    requires s'.consumed != s.consumed ==> s.claimLock == Some(r)
    requires s.appendLock == Some(q) ==> s'.appendLock == Some(q)
    requires s.claimLock == Some(q) ==> s'.claimLock == Some(q)
    requires me.phase.ClaimCommitted? ==> forall g | g in s'.granted :: g.nonce != me.phase.nonce
    ensures ReplicaOk(hash, s', q, me)
  {}

  lemma ApplyKeepsReplica<E>(hash: Hasher<E>, s: State<E>, step: Step<E>, q: nat)
    requires Inv(hash, s) && q in Apply(hash, s, step).replicas
    ensures var s' := Apply(hash, s, step); ReplicaOk(hash, s', q, s'.replicas[q])
  {
    if q == step.r {
      ActorKeeps(hash, s, step);
    } else {
      OthersUntouched(hash, s, step, q);
      assert ReplicaOk(hash, s, q, s.replicas[q]);
      TablesMove(hash, s, step, q);
      BystanderKeeps(hash, s, Apply(hash, s, step), q, step.r, s.replicas[q]);
    }
  }

  lemma OthersUntouched<E>(hash: Hasher<E>, s: State<E>, step: Step<E>, q: nat)
    requires q != step.r && q in Apply(hash, s, step).replicas
    ensures q in s.replicas && Apply(hash, s, step).replicas[q] == s.replicas[q]
  {}

  /** Only the holder of a lock changes its table, and nobody takes a lock that is held. */
  lemma TablesMove<E>(hash: Hasher<E>, s: State<E>, step: Step<E>, q: nat)
    requires Inv(hash, s) && q != step.r && q in s.replicas
    ensures var s' := Apply(hash, s, step);
      && s.table <= s'.table && s.consumed <= s'.consumed
      && (s'.table != s.table ==> s.appendLock == Some(step.r))
      && (s'.consumed != s.consumed ==> s.claimLock == Some(step.r))
      && (s.appendLock == Some(q) ==> s'.appendLock == Some(q))
      && (s.claimLock == Some(q) ==> s'.claimLock == Some(q))
      && (s.replicas[q].phase.ClaimCommitted? ==> forall g | g in s'.granted :: g.nonce != s.replicas[q].phase.nonce)
  {
    assert ReplicaOk(hash, s, q, s.replicas[q]);
    if step.r in s.replicas {
      assert ReplicaOk(hash, s, step.r, s.replicas[step.r]);
    }
  }

  lemma ApplyKeepsInv<E>(hash: Hasher<E>, s: State<E>, step: Step<E>)
    requires Inv(hash, s)
    ensures Inv(hash, Apply(hash, s, step))
  {
    var s' := Apply(hash, s, step);
    ApplyKeepsTable(hash, s, step);
    StepKeepsClaims(hash, s, step);
    forall q | q in s'.replicas ensures ReplicaOk(hash, s', q, s'.replicas[q]) {
      ApplyKeepsReplica(hash, s, step, q);
    }
  }

  lemma ApplyKeepsTable<E>(hash: Hasher<E>, s: State<E>, step: Step<E>)
    requires Inv(hash, s)
    ensures var s' := Apply(hash, s, step); ChainValid(hash, s'.table) && FrameIdsUnique(s'.table)
  {
    if step.CommitFrame? && step.r in s.replicas && s.replicas[step.r].phase.AppendInserted? {
      CommitKeepsTable(hash, s, step.r);
    } else {
      assert Apply(hash, s, step).table == s.table;
    }
  }

  /** The inserted frame continues the table as it is at commit, since only the lock holder commits. */
  lemma CommitKeepsTable<E>(hash: Hasher<E>, s: State<E>, r: nat)
    requires Inv(hash, s) && r in s.replicas && s.replicas[r].phase.AppendInserted?
    ensures var s' := Apply(hash, s, CommitFrame(r)); ChainValid(hash, s'.table) && FrameIdsUnique(s'.table)
  {
    assert ReplicaOk(hash, s, r, s.replicas[r]);
    var f := s.replicas[r].phase.frame;
    AppendKeepsChain(hash, s.table, f.frameId, f.event);
    FindFrameIsFirst(s.table, f.frameId);
  }

  lemma StepKeepsClaims<E>(hash: Hasher<E>, s: State<E>, step: Step<E>)
    requires Inv(hash, s)
    ensures ClaimsExclusive(Apply(hash, s, step))
  {
    if step.CommitNonce? && step.r in s.replicas && s.replicas[step.r].phase.ClaimInserted? {
      CommitKeepsClaims(hash, s, step.r);
    } else if step.RememberNonce? && step.r in s.replicas && s.replicas[step.r].phase.ClaimCommitted? {
      RememberKeepsClaims(hash, s, step.r);
    } else {
      NoClaimMoves(hash, s, step);
    }
  }

  lemma NoClaimMoves<E>(hash: Hasher<E>, s: State<E>, step: Step<E>)
    requires ClaimsExclusive(s)
    requires step.CommitNonce? ==> step.r !in s.replicas || !s.replicas[step.r].phase.ClaimInserted?
    requires step.RememberNonce? ==> step.r !in s.replicas || !s.replicas[step.r].phase.ClaimCommitted?
    ensures ClaimsExclusive(Apply(hash, s, step))
  {
    var s' := Apply(hash, s, step);
    assert s'.granted == s.granted && s'.consumed == s.consumed;
    forall r | r in s'.replicas && s'.replicas[r].phase.ClaimCommitted?
      ensures r in s.replicas && s.replicas[r].phase == s'.replicas[r].phase
    {}
  }

  lemma CommitKeepsClaims<E>(hash: Hasher<E>, s: State<E>, r: nat)
    requires Inv(hash, s) && r in s.replicas && s.replicas[r].phase.ClaimInserted?
    ensures ClaimsExclusive(Apply(hash, s, CommitNonce(r)))
  {
    var n := s.replicas[r].phase.nonce;
    assert ReplicaOk(hash, s, r, s.replicas[r]);
    forall q | q in s.replicas && s.replicas[q].phase.ClaimCommitted? ensures s.replicas[q].phase.nonce != n {
      assert ReplicaOk(hash, s, q, s.replicas[q]);
    }
  }

  lemma RememberKeepsClaims<E>(hash: Hasher<E>, s: State<E>, r: nat)
    requires Inv(hash, s) && r in s.replicas && s.replicas[r].phase.ClaimCommitted?
    ensures ClaimsExclusive(Apply(hash, s, RememberNonce(r)))
  {
    var n := s.replicas[r].phase.nonce;
    assert ReplicaOk(hash, s, r, s.replicas[r]);
    forall g | g in s.granted ensures g.nonce != n {}
  }

  lemma ActorKeeps<E>(hash: Hasher<E>, s: State<E>, step: Step<E>)
    requires Inv(hash, s) && step.r in Apply(hash, s, step).replicas
    ensures var s' := Apply(hash, s, step); ReplicaOk(hash, s', step.r, s'.replicas[step.r])
  {
    if step.r in s.replicas {
      assert ReplicaOk(hash, s, step.r, s.replicas[step.r]);
    }
  }

  lemma {:induction false} RunKeepsInv<E>(hash: Hasher<E>, s: State<E>, steps: seq<Step<E>>)
    requires Inv(hash, s)
    ensures Inv(hash, Run(hash, s, steps))
    decreases |steps|
  {
    if steps != [] {
      ApplyKeepsInv(hash, s, steps[0]);
      RunKeepsInv(hash, Apply(hash, s, steps[0]), steps[1..]);
    }
  }

  /**
   * Replica safety over all runs: the table is one valid chain without repeated
   * ids, every cache is a prefix of it, so every replica's `verify_chain`
   * succeeds at every moment, and every nonce is granted at most once.
   */
  lemma ReplicaSafety<E>(hash: Hasher<E>, steps: seq<Step<E>>)
    ensures var s := Run(hash, Initial<E>(), steps);
      && ChainValid(hash, s.table) && FrameIdsUnique(s.table)
      && (forall r | r in s.replicas ::
            && s.replicas[r].frames <= s.table && ChainValid(hash, s.replicas[r].frames)
            && s.replicas[r].used <= s.consumed)
      && (forall i, j | 0 <= i < j < |s.granted| :: s.granted[i].nonce != s.granted[j].nonce)
  {
    RunKeepsInv(hash, Initial<E>(), steps);
    var s := Run(hash, Initial<E>(), steps);
    forall r | r in s.replicas
      ensures s.replicas[r].frames <= s.table && ChainValid(hash, s.replicas[r].frames)
      ensures s.replicas[r].used <= s.consumed
    {
      assert ReplicaOk(hash, s, r, s.replicas[r]);
      PrefixKeepsChain(hash, s.table, |s.replicas[r].frames|);
      assert s.replicas[r].frames == s.table[..|s.replicas[r].frames|];
    }
  }

  // ----- linearisation -----

  /** How one step may change the two tables. */
  ghost predicate AtomicEffect<E(!new)>(hash: Hasher<E>, s: State<E>, s': State<E>) {
    || (s'.table == s.table && s'.consumed == s.consumed)
    || (s'.consumed == s.consumed && exists f: Frame<E> ::
          !Taken(s.table, f.frameId) && s'.table == s.table + [NextFrame(hash, s.table, f.frameId, f.event)])
    || (s'.table == s.table && exists n :: n !in s.consumed && s'.consumed == s.consumed + {n})
  }

  /**
   * The replicas refine one shared log: every step is invisible, or appends
   * the next frame of the shared table, or claims an unclaimed nonce.
   */
  lemma StepsAreAtomic<E(!new)>(hash: Hasher<E>, s: State<E>, step: Step<E>)
    requires Inv(hash, s)
    ensures AtomicEffect(hash, s, Apply(hash, s, step))
  {
    if step.r in s.replicas {
      var me := s.replicas[step.r];
      assert ReplicaOk(hash, s, step.r, me);
      if step.CommitFrame? && me.phase.AppendInserted? {
        var f := me.phase.frame;
        assert !Taken(s.table, f.frameId);
        assert Apply(hash, s, step).table == s.table + [NextFrame(hash, s.table, f.frameId, f.event)];
      }
      if step.CommitNonce? && me.phase.ClaimInserted? {
        assert me.phase.nonce !in s.consumed;
      }
    }
  }

  /** What a replica's append returns is the frame the table holds at that place, for good. */
  lemma {:induction false} TableOnlyGrows<E(!new)>(hash: Hasher<E>, s: State<E>, steps: seq<Step<E>>)
    requires Inv(hash, s)
    ensures s.table <= Run(hash, s, steps).table && s.consumed <= Run(hash, s, steps).consumed
    decreases |steps|
  {
    if steps != [] {
      var s' := Apply(hash, s, steps[0]);
      StepsAreAtomic(hash, s, steps[0]);
      ApplyKeepsInv(hash, s, steps[0]);
      TableOnlyGrows(hash, s', steps[1..]);
    }
  }

  // ----- one replica, undisturbed -----

  /** The shared tables. */
  class Database<E> {
    var table: seq<Frame<E>>
    var consumed: set<string>

    constructor ()
      ensures table == [] && consumed == {}
    {
      table, consumed := [], {};
    }
  }

  /** `PostgresReplayLog`: each method runs its transaction to the end. */
  class PostgresReplayLog<E(==,!new)> {
    const hash: Hasher<E>
    const db: Database<E>
    var frames: seq<Frame<E>>
    var usedNonces: set<string>

    ghost predicate Valid()
      reads this, db
    {
      && ChainValid(hash, db.table) && FrameIdsUnique(db.table)
      && frames <= db.table && usedNonces <= db.consumed
    }

    /** What connecting reads; `Connect` refuses a table that is no chain. */
    constructor (hash: Hasher<E>, db: Database<E>)
      ensures this.hash == hash && this.db == db && frames == db.table && usedNonces == db.consumed
    {
      this.hash, this.db, frames, usedNonces := hash, db, db.table, db.consumed;
    }

    /** The cache may be stale, but it is always a chain. */
    method VerifyChain() returns (ok: bool)
      ensures ok <==> ChainValid(hash, frames)
      ensures Valid() ==> ok
    {
      ok := VerifyFrames(hash, frames);
      if Valid() {
        PrefixKeepsChain(hash, db.table, |frames|);
        assert frames == db.table[..|frames|];
      }
    }

    method Refresh()
      modifies this`frames, this`usedNonces
      ensures frames == db.table && usedNonces == db.consumed
    {
      frames, usedNonces := db.table, db.consumed;
    }

    /** None when the unique frame id is taken: the insert fails and the transaction rolls back. */
    method Append(frameId: string, event: E) returns (r: Option<Frame<E>>)
      requires Valid()
      modifies this`frames, this`usedNonces, db`table
      ensures Valid() && frames == db.table && usedNonces == db.consumed
      ensures r.None? <==> Taken(old(db.table), frameId)
      ensures r.None? ==> db.table == old(db.table)
      ensures r.Some? ==>
        r.value == NextFrame(hash, old(db.table), frameId, event) && db.table == old(db.table) + [r.value]
    {
      Refresh();
      var frame := CreateFrame(hash, frameId, if frames != [] then frames[|frames| - 1].frameHash else "", event);
      var taken := GetFrame(db.table, frameId);
      FindFrameIsFirst(db.table, frameId);
      if taken.Some? {
        return None;
      }
      AppendKeepsChain(hash, db.table, frameId, event);
      db.table := db.table + [frame];
      frames := frames + [frame];
      return Some(frame);
    }

    method ClaimNonce(nonce: string) returns (claimed: bool)
      requires Valid()
      modifies this`usedNonces, db`consumed
      ensures Valid()
      ensures claimed <==> nonce != "" && nonce !in old(db.consumed)
      ensures db.consumed == old(db.consumed) + (if claimed then {nonce} else {})
      ensures usedNonces == old(usedNonces) + (if claimed then {nonce} else {})
    {
      if nonce == "" || nonce in db.consumed {
        return false;
      }
      db.consumed := db.consumed + {nonce};
      usedNonces := usedNonces + {nonce};
      return true;
    }

    method NonceUsed(nonce: string) returns (used: bool)
      requires Valid()
      modifies this`frames, this`usedNonces
      ensures Valid() && (used <==> nonce in db.consumed)
    {
      Refresh();
      used := nonce in usedNonces;
    }

    method Get(frameId: string) returns (r: Option<Frame<E>>)
      requires Valid()
      modifies this`frames, this`usedNonces
      ensures Valid() && r == FindFrame(db.table, frameId)
    {
      Refresh();
      r := GetFrame(frames, frameId);
    }
  }

  /** Connecting to the database: None when the stored frames are not a valid chain. */
  method Connect<E(==,!new)>(hash: Hasher<E>, db: Database<E>) returns (r: Option<PostgresReplayLog<E>>)
    ensures r.Some? <==> ChainValid(hash, db.table)
    ensures r.Some? ==>
      && fresh(r.value) && r.value.hash == hash && r.value.db == db
      && r.value.frames == db.table && r.value.usedNonces == db.consumed
      && (FrameIdsUnique(db.table) ==> r.value.Valid())
  {
    var log := new PostgresReplayLog(hash, db);
    var ok := log.VerifyChain();
    return if ok then Some(log) else None;
  }
}
