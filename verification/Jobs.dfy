/**
 * Durable job rows: the SQLite store with its single worker, and the Postgres
 * store with leases. Times are whole ticks.
 */
module Jobs {
  import opened Wrappers
  import StringOrder

  datatype Status = Queued | Running | Succeeded | DeadLetter

  datatype Job<P> = Job(
    jobId: string, key: string, payload: P, status: Status,
    attempts: nat, maxAttempts: nat, availableAt: int,
    lastError: Option<string>, lease: Option<int>)

  datatype JobError = BadArguments | UnknownJob

  predicate Due<P>(row: Job<P>, now: int) {
    row.status == Queued && row.availableAt <= now
  }

  predicate LeaseExpired<P>(row: Job<P>, now: int) {
    row.status == Running && row.lease.Some? && row.lease.value <= now
  }

  /** Due or with an expired lease, and not locked by somebody claiming it. */
  predicate Claimable<P>(row: Job<P>, now: int, locked: set<string>) {
    row.jobId !in locked && (Due(row, now) || LeaseExpired(row, now))
  }

  function ClaimedRow<P>(row: Job<P>): Job<P> {
    row.(status := Running, attempts := row.attempts + 1)
  }

  /** `complete` only touches a running row, whoever runs it. */
  function CompletedRow<P>(row: Job<P>): Job<P> {
    if row.status == Running then row.(status := Succeeded, lease := None) else row
  }

  /** `fail` looks at no status at all. */
  function FailedRow<P>(row: Job<P>, error: string, availableAt: int): Job<P> {
    row.(status := if row.attempts < row.maxAttempts then Queued else DeadLetter,
         lastError := Some(if |error| <= 512 then error else error[..512]),
         availableAt := availableAt, lease := None)
  }

  ghost predicate IdsUnique<P>(rows: seq<Job<P>>) {
    forall i, j | 0 <= i < j < |rows| :: rows[i].jobId != rows[j].jobId
  }

  ghost predicate KeysUnique<P>(rows: seq<Job<P>>) {
    forall i, j | 0 <= i < j < |rows| :: rows[i].key != rows[j].key
  }

  ghost predicate QueuedHaveAttemptsLeft<P>(rows: seq<Job<P>>) {
    forall i | 0 <= i < |rows| && rows[i].status == Queued :: rows[i].attempts < rows[i].maxAttempts
  }

  ghost predicate NoneRunning<P>(rows: seq<Job<P>>) {
    forall i | 0 <= i < |rows| :: rows[i].status != Running
  }

  ghost predicate AnyQueued<P>(rows: seq<Job<P>>) {
    exists i | 0 <= i < |rows| :: rows[i].status == Queued
  }

  /** The same jobs, none of them tried beyond its maximum. */
  ghost predicate SameJobs<P>(rows: seq<Job<P>>, rows': seq<Job<P>>) {
    && |rows'| == |rows|
    && forall i | 0 <= i < |rows| ::
         && rows'[i].jobId == rows[i].jobId && rows'[i].key == rows[i].key
         && rows'[i].payload == rows[i].payload && rows'[i].maxAttempts == rows[i].maxAttempts
         && rows[i].attempts <= rows'[i].attempts
         && (rows[i].attempts <= rows[i].maxAttempts ==> rows'[i].attempts <= rows[i].maxAttempts)
  }

  lemma SameJobsTransitive<P>(a: seq<Job<P>>, b: seq<Job<P>>, c: seq<Job<P>>)
    requires SameJobs(a, b) && SameJobs(b, c)
    ensures SameJobs(a, c)
  {}

  ghost predicate RowsValid<P>(rows: seq<Job<P>>) {
    IdsUnique(rows) && KeysUnique(rows) && QueuedHaveAttemptsLeft(rows)
  }

  /** ORDER BY available_at, job_id */
  predicate Sooner<P>(a: Job<P>, b: Job<P>) {
    a.availableAt < b.availableAt || (a.availableAt == b.availableAt && StringOrder.Le(a.jobId, b.jobId))
  }

  function DueAt<P>(now: int): Job<P> -> bool {
    row => Due(row, now)
  }

  function ClaimableAt<P>(now: int, locked: set<string>): Job<P> -> bool {
    row => Claimable(row, now, locked)
  }

  ghost predicate IsNext<P>(rows: seq<Job<P>>, due: Job<P> -> bool, i: nat) {
    i < |rows| && due(rows[i]) && forall k | 0 <= k < |rows| && due(rows[k]) :: Sooner(rows[i], rows[k])
  }

  method FindNext<P>(rows: seq<Job<P>>, due: Job<P> -> bool) returns (next: Option<nat>)
    ensures next.Some? ==> IsNext(rows, due, next.value)
    ensures next.None? ==> forall k | 0 <= k < |rows| :: !due(rows[k])
  {
    next := None;
    StringOrder.IsTotalOrder();
    for k := 0 to |rows|
      invariant next.Some? ==> next.value < k && IsNext(rows[..k], due, next.value)
      invariant next.None? ==> forall i | 0 <= i < k :: !due(rows[i])
    {
      var was := next;
      if due(rows[k]) && (next.None? || !Sooner(rows[next.value], rows[k])) {
        next := Some(k);
      }
      if was.Some? {
        assert IsNext(rows[..k], due, was.value);
      }
      assert rows[..k + 1] == rows[..k] + [rows[k]];
    }
    assert rows[..|rows|] == rows;
  }

  function IndexOf<P>(rows: seq<Job<P>>, jobId: string): (r: Option<nat>)
    ensures r.Some? ==> r.value < |rows| && rows[r.value].jobId == jobId
    ensures r.None? ==> forall i | 0 <= i < |rows| :: rows[i].jobId != jobId
  {
    if rows == [] then None
    else if rows[|rows| - 1].jobId == jobId then Some(|rows| - 1)
    else IndexOf(rows[..|rows| - 1], jobId)
  }

  lemma IndexOfUnique<P>(rows: seq<Job<P>>, i: nat)
    requires IdsUnique(rows) && i < |rows|
    ensures IndexOf(rows, rows[i].jobId) == Some(i)
  {}

  function IndexOfKey<P>(rows: seq<Job<P>>, key: string): (r: Option<nat>)
    ensures r.Some? ==> r.value < |rows| && rows[r.value].key == key
    ensures r.None? ==> forall i | 0 <= i < |rows| :: rows[i].key != key
  {
    if rows == [] then None
    else if rows[|rows| - 1].key == key then Some(|rows| - 1)
    else IndexOfKey(rows[..|rows| - 1], key)
  }

  // ----- attempts left -----

  function AttemptsLeft<P>(row: Job<P>): int {
    if row.status == Queued then row.maxAttempts - row.attempts else 0
  }

  /** The handler calls the queue can still cause. */
  function Remaining<P>(rows: seq<Job<P>>): int {
    if rows == [] then 0 else Remaining(rows[..|rows| - 1]) + AttemptsLeft(rows[|rows| - 1])
  }

  lemma {:induction false} RemainingNotNegative<P>(rows: seq<Job<P>>)
    requires QueuedHaveAttemptsLeft(rows)
    ensures Remaining(rows) >= 0
  {
    if rows != [] {
      RemainingNotNegative(rows[..|rows| - 1]);
    }
  }

  lemma {:induction false} RemainingUpdate<P>(rows: seq<Job<P>>, i: nat, row: Job<P>)
    requires i < |rows|
    ensures Remaining(rows[i := row]) == Remaining(rows) - AttemptsLeft(rows[i]) + AttemptsLeft(row)
  {
    var n := |rows| - 1;
    if i < n {
      RemainingUpdate(rows[..n], i, row);
      assert rows[i := row][..n] == rows[..n][i := row];
    } else {
      assert rows[i := row][..n] == rows[..n];
    }
  }

  /** The latest time any row becomes available. */
  function Horizon<P>(rows: seq<Job<P>>): (h: int)
    ensures forall i | 0 <= i < |rows| :: rows[i].availableAt <= h
  {
    if rows == [] then 0
    else
      var last, h := rows[|rows| - 1].availableAt, Horizon(rows[..|rows| - 1]);
      if last > h then last else h
  }

  /**
   * The clock by polls made and idle polls among them: an idle poll is followed
   * by a sleep, so time has moved on; nothing is said about busy ones.
   */
  ghost predicate SleepsWhenIdle(clock: (nat, nat) -> int) {
    forall polls: nat, idle: nat :: clock(polls, idle) < clock(polls + 1, idle + 1)
  }

  class SQLiteJobStore<P(==)> {
    var rows: seq<Job<P>>
    /** how often a handler was called */
    ghost var calls: nat

    constructor ()
      ensures rows == [] && calls == 0
    {
      rows, calls := [], 0;
    }

    method Enqueue(payload: P, key: string, maxAttempts: int, delay: int, now: int, newId: string)
      returns (r: Result<Job<P>, JobError>)
      requires RowsValid(rows) && forall i | 0 <= i < |rows| :: rows[i].jobId != newId
      modifies this`rows
      ensures RowsValid(rows)
      ensures r.Failure? <==> key == "" || maxAttempts <= 0
      ensures r.Success? ==> r.value in rows && r.value.key == key
      ensures r.Success? && IndexOfKey(old(rows), key).None? ==>
        && r.value == Job(newId, key, payload, Queued, 0, maxAttempts, now + delay, None, None)
        && rows == old(rows) + [r.value]
      ensures r.Failure? || IndexOfKey(old(rows), key).Some? ==> rows == old(rows)
    {
      if key == "" || maxAttempts <= 0 {
        return Failure(BadArguments);
      }
      var existing := IndexOfKey(rows, key);
      if existing.Some? {
        return Success(rows[existing.value]);
      }
      var job := Job(newId, key, payload, Queued, 0, maxAttempts, now + delay, None, None);
      rows := rows + [job];
      return Success(job);
    }

    method Get(jobId: string) returns (r: Option<Job<P>>)
      ensures r.Some? ==> r.value in rows && r.value.jobId == jobId
      ensures r.None? ==> forall row | row in rows :: row.jobId != jobId
      ensures IndexOf(rows, jobId).Some? ==> r == Some(rows[IndexOf(rows, jobId).value])
    {
      var i := IndexOf(rows, jobId);
      return if i.Some? then Some(rows[i.value]) else None;
    }

    /** The earliest due job becomes running. */
    method Claim(now: int) returns (r: Option<Job<P>>, ghost at: nat)
      requires RowsValid(rows)
      modifies this`rows
      ensures RowsValid(rows)
      ensures r.None? ==> rows == old(rows) && forall k | 0 <= k < |rows| :: !Due(rows[k], now)
      ensures r.Some? ==>
        && IsNext(old(rows), DueAt(now), at)
        && r.value == ClaimedRow(old(rows)[at]) && rows == old(rows)[at := r.value]
    {
      var next := FindNext(rows, DueAt(now));
      at := 0;
      if next.None? {
        return None, at;
      }
      at := next.value;
      var job := ClaimedRow(rows[next.value]);
      rows := rows[next.value := job];
      return Some(job), at;
    }

    method Complete(jobId: string)
      requires RowsValid(rows)
      modifies this`rows
      ensures RowsValid(rows)
      ensures var i := IndexOf(old(rows), jobId);
        rows == if i.Some? then old(rows)[i.value := CompletedRow(old(rows)[i.value])] else old(rows)
    {
      var i := IndexOf(rows, jobId);
      if i.Some? {
        rows := rows[i.value := CompletedRow(rows[i.value])];
      }
    }

    method Fail(jobId: string, error: string, availableAt: int) returns (known: bool)
      requires RowsValid(rows)
      modifies this`rows
      ensures RowsValid(rows)
      ensures known <==> IndexOf(old(rows), jobId).Some?
      ensures var i := IndexOf(old(rows), jobId);
        rows == if i.Some? then old(rows)[i.value := FailedRow(old(rows)[i.value], error, availableAt)] else old(rows)
    {
      var i := IndexOf(rows, jobId);
      if i.None? {
        return false;
      }
      rows := rows[i.value := FailedRow(rows[i.value], error, availableAt)];
      return true;
    }

    /** Claim, handle and settle, saying which row it was. */
    method TryJob(now: int, retryDelay: int, answer: P -> Option<string>)
      returns (r: Option<Job<P>>, compensated: bool, ghost at: nat)
      requires RowsValid(rows)
      modifies this
      ensures RowsValid(rows)
      ensures r.None? ==>
        rows == old(rows) && calls == old(calls) && !compensated && forall k | 0 <= k < |rows| :: !Due(rows[k], now)
      ensures r.Some? ==>
        && calls == old(calls) + 1
        && SettlesJob(old(rows), rows, at, now, now + retryDelay, answer) && r.value == rows[at]
        && (compensated <==> r.value.status == DeadLetter)
    {
      var job;
      job, at := Claim(now);
      if job.None? {
        return None, false, at;
      }
      var jobId := job.value.jobId;
      IndexOfUnique(rows, at);
      calls := calls + 1;
      var error := answer(job.value.payload);
      if error.Some? {
        var _ := Fail(jobId, error.value, now + retryDelay);
      } else {
        Complete(jobId);
      }
      assert rows == old(rows)[at := rows[at]];
      IndexOfUnique(rows, at);
      r := Get(jobId);
      compensated := r.value.status == DeadLetter;
    }

    /**
     * `run_once`: claim, call the handler, settle the row. `answer` is the
     * handler's: None when it returns, the exception's name when it raises.
     * `compensated` says that the compensation hook was called.
     */
    method RunOnce(now: int, retryDelay: int, answer: P -> Option<string>)
      returns (r: Option<Job<P>>, compensated: bool)
      requires RowsValid(rows)
      modifies this
      ensures RowsValid(rows)
      ensures r.None? ==>
        rows == old(rows) && calls == old(calls) && !compensated && forall k | 0 <= k < |rows| :: !Due(rows[k], now)
      ensures r.Some? ==>
        && calls == old(calls) + 1
        && exists at: nat :: SettlesJob(old(rows), rows, at, now, now + retryDelay, answer) && r.value == rows[at]
      ensures compensated <==> r.Some? && r.value.status == DeadLetter
      ensures r.Some? ==> 0 <= Remaining(rows) < Remaining(old(rows))
      ensures NoneRunning(old(rows)) ==> NoneRunning(rows)
      ensures SameJobs(old(rows), rows)
    {
      ghost var before := rows;
      ghost var at: nat;
      r, compensated, at := TryJob(now, retryDelay, answer);
      if r.Some? {
        SettlingProgresses(before, rows, at, now, now + retryDelay, answer);
      }
    }

    /**
     * `serve` stopped once no job is queued: it ends, whatever the handler
     * answers, after at most one handler call per remaining attempt, and leaves
     * every job succeeded or dead.
     */
    method Drain(clock: (nat, nat) -> int, retryDelay: int, answers: nat -> P -> Option<string>)
      returns (processed: nat)
      requires RowsValid(rows) && NoneRunning(rows) && SleepsWhenIdle(clock)
      modifies this
      ensures RowsValid(rows)
      ensures processed == calls - old(calls) <= Remaining(old(rows))
      ensures SameJobs(old(rows), rows)
      ensures forall i | 0 <= i < |rows| :: rows[i].status == Succeeded || rows[i].status == DeadLetter
    {
      processed := 0;
      var tick, idle := 0, 0;
      var queued := HasQueued();
      RemainingNotNegative(rows);
      ghost var start := rows;
      while queued
        invariant RowsValid(rows) && NoneRunning(rows)
        invariant queued == AnyQueued(rows)
        invariant SameJobs(start, rows)
        invariant processed == calls - old(calls)
        invariant 0 <= Remaining(rows) <= Remaining(old(rows)) - processed
        decreases Remaining(rows), Horizon(rows) - clock(tick, idle)
      {
        ghost var before := rows;
        var job, compensated := RunOnce(clock(tick, idle), retryDelay, answers(tick));
        SameJobsTransitive(start, before, rows);
        if job.Some? {
          processed := processed + 1;
        } else {
          assert clock(tick, idle) < clock(tick + 1, idle + 1);
          idle := idle + 1;
        }
        tick := tick + 1;
        queued := HasQueued();
      }
    }

    method HasQueued() returns (queued: bool)
      ensures queued == AnyQueued(rows)
    {
      for i := 0 to |rows|
        invariant forall k | 0 <= k < i :: rows[k].status != Queued
      {
        if rows[i].status == Queued {
          return true;
        }
      }
      return false;
    }
  }

  /** Settling a job uses up attempts and leaves nothing running. */
  lemma SettlingProgresses<P>(
    rows: seq<Job<P>>, rows': seq<Job<P>>, at: nat, now: int, retryAt: int, answer: P -> Option<string>)
    requires SettlesJob(rows, rows', at, now, retryAt, answer)
    requires QueuedHaveAttemptsLeft(rows) && QueuedHaveAttemptsLeft(rows')
    ensures 0 <= Remaining(rows') < Remaining(rows)
    ensures NoneRunning(rows) ==> NoneRunning(rows')
    ensures SameJobs(rows, rows')
  {
    RemainingUpdate(rows, at, rows'[at]);
    RemainingNotNegative(rows');
  }

  /** One due job was tried: it succeeded, or went back with one attempt fewer, or died with none left. */
  ghost predicate SettlesJob<P>(
    rows: seq<Job<P>>, rows': seq<Job<P>>, at: nat, now: int, retryAt: int, answer: P -> Option<string>)
  {
    && IsNext(rows, DueAt(now), at)
    && var error := answer(rows[at].payload);
    && var claimed := ClaimedRow(rows[at]);
    && rows' == rows[at := if error.None? then CompletedRow(claimed) else FailedRow(claimed, error.value, retryAt)]
  }

  /** The Postgres store: a claim carries a lease, and an expired lease makes a running job claimable again. */
  class PostgresJobStore<P(==)> {
    const leaseSeconds: nat
    var rows: seq<Job<P>>

    constructor (leaseSeconds: nat)
      requires leaseSeconds > 0
      ensures this.leaseSeconds == leaseSeconds && rows == []
    {
      this.leaseSeconds, rows := leaseSeconds, [];
    }

    method Enqueue(payload: P, key: string, maxAttempts: int, delay: int, now: int, newId: string)
      returns (r: Result<Job<P>, JobError>)
      requires IdsUnique(rows) && KeysUnique(rows) && forall i | 0 <= i < |rows| :: rows[i].jobId != newId
      modifies this`rows
      ensures IdsUnique(rows) && KeysUnique(rows)
      ensures r.Failure? <==> key == "" || maxAttempts <= 0
      ensures r.Success? ==> r.value in rows && r.value.key == key
      ensures r.Success? && IndexOfKey(old(rows), key).None? ==>
        && r.value == Job(newId, key, payload, Queued, 0, maxAttempts, now + delay, None, None)
        && rows == old(rows) + [r.value]
      ensures r.Failure? || IndexOfKey(old(rows), key).Some? ==> rows == old(rows)
    {
      if key == "" || maxAttempts <= 0 {
        return Failure(BadArguments);
      }
      if IndexOfKey(rows, key).None? {
        var job := Job(newId, key, payload, Queued, 0, maxAttempts, now + delay, None, None);
        rows := rows + [job];
        assert rows[|rows| - 1] == job;
      }
      return Success(rows[IndexOfKey(rows, key).value]);
    }

    /** Rows a concurrent claim holds locked are passed over. */
    method Claim(now: int, locked: set<string>) returns (r: Option<Job<P>>, ghost at: nat)
      requires IdsUnique(rows) && KeysUnique(rows)
      modifies this`rows
      ensures IdsUnique(rows) && KeysUnique(rows)
      ensures r.None? ==> rows == old(rows) && forall k | 0 <= k < |rows| :: !Claimable(rows[k], now, locked)
      ensures r.Some? ==>
        && IsNext(old(rows), ClaimableAt(now, locked), at)
        && r.value == ClaimedRow(old(rows)[at]).(lease := Some(now + leaseSeconds))
        && rows == old(rows)[at := r.value]
    {
      var next := FindNext(rows, ClaimableAt(now, locked));
      at := 0;
      if next.None? {
        return None, at;
      }
      at := next.value;
      var job := ClaimedRow(rows[next.value]).(lease := Some(now + leaseSeconds));
      rows := rows[next.value := job];
      return Some(job), at;
    }

    method Complete(jobId: string)
      requires IdsUnique(rows) && KeysUnique(rows)
      modifies this`rows
      ensures IdsUnique(rows) && KeysUnique(rows)
      ensures var i := IndexOf(old(rows), jobId);
        rows == if i.Some? then old(rows)[i.value := CompletedRow(old(rows)[i.value])] else old(rows)
    {
      var i := IndexOf(rows, jobId);
      if i.Some? {
        rows := rows[i.value := CompletedRow(rows[i.value])];
      }
    }

    method Fail(jobId: string, error: string, availableAt: int)
      requires IdsUnique(rows) && KeysUnique(rows)
      modifies this`rows
      ensures IdsUnique(rows) && KeysUnique(rows)
      ensures var i := IndexOf(old(rows), jobId);
        rows == if i.Some? then old(rows)[i.value := FailedRow(old(rows)[i.value], error, availableAt)] else old(rows)
    {
      var i := IndexOf(rows, jobId);
      if i.Some? {
        rows := rows[i.value := FailedRow(rows[i.value], error, availableAt)];
      }
    }
  }
}
