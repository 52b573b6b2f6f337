/** `WorkerRuntime`: claim a job, pass the barrier, run the sandbox, settle the job. */
module Worker {
  import opened Wrappers
  import opened Values
  import opened Artifacts
  import opened Barrier
  import opened Jobs
  import Mesh

  /** How the sandbox answers a job spec: refused before it starts, ended, or cut off. */
  datatype SandboxAnswer = SpecInvalid | Exited(code: int) | TimedOut

  datatype Counts = Counts(processed: nat, succeeded: nat, retried: nat, deadLettered: nat, denied: nat)

  function Recorded(c: Counts, status: Status, denied: bool): Counts {
    Counts(
      c.processed + 1,
      c.succeeded + (if status == Succeeded then 1 else 0),
      c.retried + (if status == Queued || status == Running then 1 else 0),
      c.deadLettered + (if status == DeadLetter then 1 else 0),
      c.denied + (if denied then 1 else 0))
  }

  ghost predicate NoncesDiffer(runs: seq<Artifact>) {
    forall i, j | 0 <= i < j < |runs| :: runs[i].payload.nonce != runs[j].payload.nonce
  }

  class WorkerRuntime {
    const boundary: ExecutionBoundary
    const store: PostgresJobStore<Option<Artifact>>
    /** the service's action, which turns an authorized request into a job spec */
    const action: Dict -> Outcome
    const isSpec: Outcome -> bool
    const sandbox: Outcome -> SandboxAnswer
    const retryDelay: int
    var counts: Counts
    /** the artifacts the sandbox was started for */
    ghost var runs: seq<Artifact>

    constructor (
      boundary: ExecutionBoundary, store: PostgresJobStore<Option<Artifact>>, action: Dict -> Outcome,
      isSpec: Outcome -> bool, sandbox: Outcome -> SandboxAnswer, retryDelay: int)
      ensures this.boundary == boundary && this.store == store && this.action == action
      ensures this.isSpec == isSpec && this.sandbox == sandbox && this.retryDelay == retryDelay
      ensures counts == Counts(0, 0, 0, 0, 0) && runs == []
    {
      this.boundary, this.store, this.action, this.isSpec := boundary, store, action, isSpec;
      this.sandbox, this.retryDelay := sandbox, retryDelay;
      counts, runs := Counts(0, 0, 0, 0, 0), [];
    }

    ghost predicate BarrierReady()
      reads boundary.log
    {
      boundary.log.Valid() && boundary.log.hash == boundary.env.hash && Mesh.Injective(boundary.env.meshDigest)
    }

    ghost predicate Valid()
      reads this, boundary.log, store
    {
      && BarrierReady()
      && IdsUnique(store.rows) && KeysUnique(store.rows)
      && NoncesDiffer(runs) && (forall a | a in runs :: a.payload.nonce in boundary.log.usedNonces)
      && counts.processed == counts.succeeded + counts.retried + counts.deadLettered
    }

    /** `_handle`: no sandbox without an execution of the artifact that the barrier let through. */
    method Handle(payload: Option<Artifact>, now: int) returns (error: Option<string>, denied: bool)
      requires Valid()
      modifies this`runs, boundary`invoked, boundary.log
      ensures Valid()
      ensures runs == old(runs) ||
        (payload.Some? && runs == old(runs) + [payload.value]
          && boundary.invoked == old(boundary.invoked) + [payload.value])
      ensures error.None? <==>
        && runs == old(runs) + (if payload.Some? then [payload.value] else [])
        && payload.Some? && sandbox(action(payload.value.payload.request)) == Exited(0)
      ensures denied ==> error.Some? && runs == old(runs)
    {
      denied := false;
      if payload.None? {
        return Some("RuntimeError"), true;
      }
      var result := boundary.Execute(now, payload.value, action);
      if result.Failure? || result.value.Failed? || !isSpec(result.value) {
        return Some("RuntimeError"), true;
      }
      var answer := sandbox(result.value);
      if answer.SpecInvalid? {
        return Some("ValueError"), false;
      }
      runs := runs + [payload.value];
      match answer
      case TimedOut => error := Some("TimeoutError");
      case Exited(code) => error := if code == 0 then None else Some("RuntimeError");
    }

    /** The run of this job's artifact that the sandbox ended with exit code 0. */
    ghost predicate CleanRun(payload: Option<Artifact>, before: seq<Artifact>, after: seq<Artifact>) {
      && payload.Some? && after == before + [payload.value]
      && sandbox(action(payload.value.payload.request)) == Exited(0)
    }

    /**
     * `process_once`: None when nothing is claimable. Otherwise the first claimable
     * row was claimed and settled, and no other touched: it has succeeded exactly when
     * its sandbox run exited with code 0, and is failed, queued again or dead, if not.
     */
    method ProcessOnce(now: int, locked: set<string>) returns (r: Option<Job<Option<Artifact>>>, ghost at: nat)
      requires Valid()
      modifies this, boundary`invoked, boundary.log, store`rows
      ensures Valid()
      ensures r.None? ==>
        && store.rows == old(store.rows) && runs == old(runs) && counts == old(counts)
        && forall k | 0 <= k < |store.rows| :: !Claimable(store.rows[k], now, locked)
      ensures r.Some? ==>
        && IsNext(old(store.rows), ClaimableAt(now, locked), at)
        && store.rows == old(store.rows)[at := r.value]
        && r.value.payload == old(store.rows)[at].payload
        && (runs == old(runs) || (r.value.payload.Some? && runs == old(runs) + [r.value.payload.value]))
        && (r.value.status == Succeeded <==> CleanRun(r.value.payload, old(runs), runs))
        && Settles(Leased(old(store.rows)[at], now), r.value, now + retryDelay)
        && counts == Recorded(old(counts), r.value.status, counts.denied > old(counts).denied)
    {
      var job;
      job, at := store.Claim(now, locked);
      if job.None? {
        return None, at;
      }
      var error, denied := Handle(job.value.payload, now);
      var settled := Settle(job.value.jobId, error, now, at);
      counts := Recorded(counts, settled.status, denied);
      r := Some(settled);
    }

    /** Complete or fail the claimed row, and read it back. */
    method Settle(jobId: string, error: Option<string>, now: int, ghost at: nat)
      returns (settled: Job<Option<Artifact>>)
      requires IdsUnique(store.rows) && KeysUnique(store.rows)
      requires at < |store.rows| && store.rows[at].jobId == jobId
      modifies store`rows
      ensures IdsUnique(store.rows) && KeysUnique(store.rows)
      ensures store.rows == old(store.rows)[at := settled]
      ensures settled ==
        if error.None? then CompletedRow(old(store.rows)[at])
        else FailedRow(old(store.rows)[at], error.value, now + retryDelay)
    {
      IndexOfUnique(store.rows, at);
      if error.Some? {
        store.Fail(jobId, error.value, now + retryDelay);
      } else {
        store.Complete(jobId);
      }
      IndexOfUnique(store.rows, at);
      var i := IndexOf(store.rows, jobId);
      settled := store.rows[i.value];
    }

    /** The row as `claim` leaves it. */
    ghost function Leased(row: Job<Option<Artifact>>, now: int): Job<Option<Artifact>> {
      ClaimedRow(row).(lease := Some(now + store.leaseSeconds))
    }

    /** The claimed row was completed, or failed with some error. */
    ghost predicate Settles(claimed: Job<Option<Artifact>>, row: Job<Option<Artifact>>, retryAt: int) {
      if row.status == Succeeded then row == CompletedRow(claimed)
      else exists error :: row == FailedRow(claimed, error, retryAt)
    }
  }
}
