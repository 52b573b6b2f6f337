/** `reconstruct_decisions`: the authorization state of every nonce, read back from the log. */
module DecisionRecords {
  import opened Wrappers
  import opened ReplayChain
  import opened Artifacts
  import opened BarrierRuns

  datatype NonceRecord = NonceRecord(authorization: Option<Event>, execution: Option<Event>)

  function LastAuthorization(log: Log, nonce: string): Option<Event> {
    if log == [] then None
    else
      var e := log[|log| - 1].event;
      if e.Authorization? && e.nonce == nonce then Some(e) else LastAuthorization(log[..|log| - 1], nonce)
  }

  function LastExecution(log: Log, nonce: string): Option<Event> {
    if log == [] then None
    else
      var e := log[|log| - 1].event;
      if e.Execution? && e.nonce == nonce then Some(e) else LastExecution(log[..|log| - 1], nonce)
  }

  function RecordOf(log: Log, nonce: string): NonceRecord {
    NonceRecord(LastAuthorization(log, nonce), LastExecution(log, nonce))
  }

  /** One record for every non-empty nonce the log mentions, later frames replacing earlier ones. */
  ghost predicate Reconstructs(log: Log, records: map<string, NonceRecord>) {
    && (forall n :: n in records <==> n != "" && RecordOf(log, n) != NonceRecord(None, None))
    && (forall n | n in records :: records[n] == RecordOf(log, n))
  }

  method ReconstructDecisions(log: Log) returns (records: map<string, NonceRecord>)
    ensures Reconstructs(log, records)
  {
    records := map[];
    var i := 0;
    while i < |log|
      invariant 0 <= i <= |log|
      invariant Reconstructs(log[..i], records)
    {
      var e := log[i].event;
      assert log[..i + 1][..i] == log[..i];
      if (e.Authorization? || e.Execution?) && e.nonce != "" {
        var record := if e.nonce in records then records[e.nonce] else NonceRecord(None, None);
        record := if e.Authorization? then record.(authorization := Some(e)) else record.(execution := Some(e));
        records := records[e.nonce := record];
      }
      i := i + 1;
    }
    assert log[..|log|] == log;
  }

  lemma {:induction false} OnlyAuthorization(log: Log, i: nat)
    requires AuthorizationsOnce(log) && i < |log| && log[i].event.Authorization?
    ensures LastAuthorization(log, log[i].event.nonce) == Some(log[i].event)
  {
    var n := |log| - 1;
    if i < n {
      OnlyAuthorization(log[..n], i);
    }
  }

  lemma {:induction false} OnlyExecution(log: Log, i: nat)
    requires ExecutionsOnce(log) && i < |log| && log[i].event.Execution?
    ensures LastExecution(log, log[i].event.nonce) == Some(log[i].event)
  {
    var n := |log| - 1;
    if i < n {
      OnlyExecution(log[..n], i);
    }
  }

  /**
   * In every run the records lose nothing: the record of a nonce holds its one
   * authorization and its one execution, and no execution stands without an
   * issued authorization.
   */
  lemma RecordsAreFaithful(env: Env, steps: seq<Step>, i: nat)
    requires i < |Run(env, INITIAL, steps).log|
    ensures var log := Run(env, INITIAL, steps).log;
            var e := log[i].event;
            && (e.Authorization? ==> LastAuthorization(log, e.nonce) == Some(e))
            && (e.Execution? ==>
                  && LastExecution(log, e.nonce) == Some(e)
                  && var cause := LastAuthorization(log, e.nonce);
                  && cause.Some? && cause.value.Authorization? && cause.value.issued)
  {
    RunKeepsSafe(env, INITIAL, steps);
    var s := Run(env, INITIAL, steps);
    var log := s.log;
    if log[i].event.Authorization? {
      OnlyAuthorization(log, i);
    }
    if log[i].event.Execution? {
      OnlyExecution(log, i);
      ExecutionHasCause(s, i);
    }
  }

  lemma ExecutionHasCause(s: State, i: nat)
    requires AuthorizationsOnce(s.log) && ExecutionsBacked(s) && i < |s.log| && s.log[i].event.Execution?
    ensures var cause := LastAuthorization(s.log, s.log[i].event.nonce);
            cause.Some? && cause.value.Authorization? && cause.value.issued
  {
    var t :| WrittenBy(s, i, t);
    var a := ReturnOf(s.calls[t]).value.a;
    var k :| 0 <= k < i && IssuedFor(s.log[k].event, a);
    OnlyAuthorization(s.log, k);
  }
}
