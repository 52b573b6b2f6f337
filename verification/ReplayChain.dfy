/**
 * Hash-chained replay frames: the in-memory log with its JSONL file, the three
 * integrity checkers and the audit anchors signed over them.
 *
 * SHA-256 over canonical JSON is a parameter `hash`. Nothing is assumed of it
 * except where a lemma asks for `CollisionFree`.
 */
module ReplayChain {
  import opened Wrappers
  import Sorting
  import StringOrder

  /** frame id, previous hash and event to the frame's hash */
  type Hasher<!E> = (string, string, E) -> string

  ghost predicate CollisionFree<E(!new)>(hash: Hasher<E>) {
    && (forall id, prev, e :: hash(id, prev, e) != "")
    && (forall id, prev, e, id', prev', e' ::
          hash(id, prev, e) == hash(id', prev', e') ==> id == id' && prev == prev' && e == e')
  }

  datatype Frame<E> = Frame(frameId: string, previousHash: string, event: E, frameHash: string)

  function CreateFrame<E>(hash: Hasher<E>, frameId: string, previousHash: string, event: E): Frame<E> {
    Frame(frameId, previousHash, event, hash(frameId, previousHash, event))
  }

  function Head<E>(frames: seq<Frame<E>>): string {
    if frames == [] then "" else frames[|frames| - 1].frameHash
  }

  /** The frame the log would append next. */
  function NextFrame<E>(hash: Hasher<E>, frames: seq<Frame<E>>, frameId: string, event: E): Frame<E> {
    CreateFrame(hash, frameId, Head(frames), event)
  }

  /** Frame i continues the chain that ends at frame i-1. */
  predicate Linked<E(==)>(hash: Hasher<E>, frames: seq<Frame<E>>, i: nat)
    requires i < |frames|
  {
    var previous := if i == 0 then "" else frames[i - 1].frameHash;
    && frames[i].previousHash == previous
    && frames[i].frameHash == hash(frames[i].frameId, previous, frames[i].event)
  }

  predicate ChainValid<E(==)>(hash: Hasher<E>, frames: seq<Frame<E>>) {
    forall i | 0 <= i < |frames| :: Linked(hash, frames, i)
  }

  lemma AppendKeepsChain<E>(hash: Hasher<E>, frames: seq<Frame<E>>, frameId: string, event: E)
    requires ChainValid(hash, frames)
    ensures ChainValid(hash, frames + [NextFrame(hash, frames, frameId, event)])
  {
    var longer := frames + [NextFrame(hash, frames, frameId, event)];
    forall i | 0 <= i < |longer| ensures Linked(hash, longer, i) {
      if i < |frames| {
        assert Linked(hash, frames, i);
      }
    }
  }

  lemma PrefixKeepsChain<E>(hash: Hasher<E>, frames: seq<Frame<E>>, n: nat)
    requires ChainValid(hash, frames) && n <= |frames|
    ensures ChainValid(hash, frames[..n])
  {
    forall i | 0 <= i < n ensures Linked(hash, frames[..n], i) {
      assert Linked(hash, frames, i);
    }
  }

  /** A head hash binds the whole history behind it. */
  lemma {:induction false} HeadBindsHistory<E(!new)>(hash: Hasher<E>, a: seq<Frame<E>>, b: seq<Frame<E>>)
    requires CollisionFree(hash)
    requires ChainValid(hash, a) && ChainValid(hash, b)
    ensures Head(a) == Head(b) <==> a == b
  {
    if a == [] || b == [] {
      assert a != [] ==> Linked(hash, a, |a| - 1);
      assert b != [] ==> Linked(hash, b, |b| - 1);
    } else if Head(a) == Head(b) {
      var n, m := |a| - 1, |b| - 1;
      assert Linked(hash, a, n) && Linked(hash, b, m);
      PrefixKeepsChain(hash, a, n);
      PrefixKeepsChain(hash, b, m);
      HeadBindsHistory(hash, a[..n], b[..m]);
      assert a == a[..n] + [a[n]] && b == b[..m] + [b[m]];
    }
  }

  // ----- look-up -----

  /** The first frame carrying the id. */
  function FindFrame<E>(frames: seq<Frame<E>>, frameId: string): Option<Frame<E>> {
    if frames == [] then None
    else if frames[0].frameId == frameId then Some(frames[0])
    else FindFrame(frames[1..], frameId)
  }

  lemma {:induction false} FindFrameIsFirst<E>(frames: seq<Frame<E>>, frameId: string)
    ensures FindFrame(frames, frameId).None? <==> forall i | 0 <= i < |frames| :: frames[i].frameId != frameId
    ensures FindFrame(frames, frameId).Some? ==>
      exists i | 0 <= i < |frames| ::
        && frames[i] == FindFrame(frames, frameId).value && frames[i].frameId == frameId
        && forall j | 0 <= j < i :: frames[j].frameId != frameId
  {
    if frames != [] && frames[0].frameId != frameId {
      FindFrameIsFirst(frames[1..], frameId);
      if FindFrame(frames[1..], frameId).Some? {
        var i :| 0 <= i < |frames[1..]| && frames[1..][i] == FindFrame(frames, frameId).value
                 && frames[1..][i].frameId == frameId
                 && forall j | 0 <= j < i :: frames[1..][j].frameId != frameId;
        assert frames[i + 1] == FindFrame(frames, frameId).value;
        forall j | 0 <= j < i + 1 ensures frames[j].frameId != frameId {
          assert j > 0 ==> frames[j] == frames[1..][j - 1];
        }
      } else {
        forall i | 0 <= i < |frames| ensures frames[i].frameId != frameId {
          assert i > 0 ==> frames[i] == frames[1..][i - 1];
        }
      }
    }
  }

  /** Appending never changes what a look-up that already succeeded returns. */
  lemma {:induction false} FindFrameStable<E>(frames: seq<Frame<E>>, more: seq<Frame<E>>, frameId: string)
    ensures FindFrame(frames, frameId).Some? ==> FindFrame(frames + more, frameId) == FindFrame(frames, frameId)
    ensures FindFrame(frames, frameId).None? ==> FindFrame(frames + more, frameId) == FindFrame(more, frameId)
  {
    if frames == [] {
      assert frames + more == more;
    } else {
      FindFrameStable(frames[1..], more, frameId);
      assert (frames + more)[1..] == frames[1..] + more;
    }
  }

  // ----- integrity report -----

  datatype Defect = PreviousHashMismatch | FrameHashMismatch

  datatype FirstError = FirstError(index: nat, frameId: string, reason: Defect)

  datatype IntegrityReport = IntegrityReport(
    ok: bool,
    frameCount: nat,
    headHash: string,
    replayDigest: string,
    duplicateFrameIds: seq<string>,
    firstError: Option<FirstError>)

  predicate FrameIdsUnique<E>(frames: seq<Frame<E>>) {
    forall i, j | 0 <= i < j < |frames| :: frames[i].frameId != frames[j].frameId
  }

  function FrameIds<E>(frames: seq<Frame<E>>): set<string> {
    set i | 0 <= i < |frames| :: frames[i].frameId
  }

  /** Two of the first n frames carry the id. */
  ghost predicate Repeated<E>(frames: seq<Frame<E>>, n: nat, id: string)
    requires n <= |frames|
  {
    exists i, j | 0 <= i < j < n :: frames[i].frameId == frames[j].frameId == id
  }

  /** The report names the least frame that does not continue the chain, and says how it fails. */
  ghost predicate NamesFirstDefect<E>(hash: Hasher<E>, frames: seq<Frame<E>>, error: Option<FirstError>) {
    match error
    case None => ChainValid(hash, frames)
    case Some(e) =>
      && e.index < |frames|
      && e.frameId == frames[e.index].frameId
      && !Linked(hash, frames, e.index)
      && (forall i | 0 <= i < e.index :: Linked(hash, frames, i))
      && (e.reason.PreviousHashMismatch? <==>
          frames[e.index].previousHash != Head(frames[..e.index]))
  }

  ghost predicate IsReportOf<E>(
    hash: Hasher<E>, digest: seq<Frame<E>> -> string, frames: seq<Frame<E>>, report: IntegrityReport)
  {
    && report.frameCount == |frames|
    && report.headHash == Head(frames)
    && report.replayDigest == digest(frames)
    && NamesFirstDefect(hash, frames, report.firstError)
    && |report.duplicateFrameIds| + |FrameIds(frames)| == |frames|
    && (forall id :: id in report.duplicateFrameIds <==> Repeated(frames, |frames|, id))
    && Sorting.SortedBy(StringOrder.Le, report.duplicateFrameIds)
    && report.ok == (report.firstError.None? && report.duplicateFrameIds == [])
  }

  /** What is wrong with one frame, the hash of its predecessor being known. */
  function DefectOf<E>(hash: Hasher<E>, frame: Frame<E>, index: nat, previousHash: string): Option<FirstError> {
    var expected := CreateFrame(hash, frame.frameId, previousHash, frame.event);
    if frame.previousHash != previousHash then Some(FirstError(index, frame.frameId, PreviousHashMismatch))
    else if frame.frameHash != expected.frameHash then Some(FirstError(index, frame.frameId, FrameHashMismatch))
    else None
  }

  lemma ReportOkMeaning<E>(
    hash: Hasher<E>, digest: seq<Frame<E>> -> string, frames: seq<Frame<E>>, report: IntegrityReport)
    requires IsReportOf(hash, digest, frames, report)
    ensures report.ok <==> ChainValid(hash, frames) && FrameIdsUnique(frames)
  {
    if !FrameIdsUnique(frames) {
      var i, j :| 0 <= i < j < |frames| && frames[i].frameId == frames[j].frameId;
      assert Repeated(frames, |frames|, frames[i].frameId);
      assert frames[i].frameId in report.duplicateFrameIds;
    }
    assert report.duplicateFrameIds != [] ==> report.duplicateFrameIds[0] in report.duplicateFrameIds;
    if report.firstError.Some? {
      assert !Linked(hash, frames, report.firstError.value.index);
    }
  }

  // ----- audit anchors -----

  datatype AnchorPayload = AnchorPayload(replayDigest: string, headHash: string, frameCount: nat, signerKeyId: string)

  datatype AuditAnchor = AuditAnchor(payload: AnchorPayload, signature: string)

  /** An anchor can only be made from a report that is ok. */
  function SignAnchor(report: IntegrityReport, keyId: string, sign: AnchorPayload -> string): Option<AuditAnchor> {
    if !report.ok then None
    else
      var payload := AnchorPayload(report.replayDigest, report.headHash, report.frameCount, keyId);
      Some(AuditAnchor(payload, sign(payload)))
  }

  predicate Certified(report: IntegrityReport, anchor: AuditAnchor, verify: (AnchorPayload, string) -> bool) {
    && report.ok
    && verify(anchor.payload, anchor.signature)
    && anchor.payload.replayDigest == report.replayDigest
    && anchor.payload.headHash == report.headHash
    && anchor.payload.frameCount == report.frameCount
  }

  /**
   * An anchor made from one log state certifies a log exactly when that log is
   * the anchored one. Only the frame hash has to be collision free: the replay
   * digest may be any function at all.
   */
  lemma AnchorCertifiesOnlyItsLog<E(!new)>(
    hash: Hasher<E>, digest: seq<Frame<E>> -> string,
    anchored: seq<Frame<E>>, anchoredReport: IntegrityReport,
    later: seq<Frame<E>>, laterReport: IntegrityReport,
    keyId: string, sign: AnchorPayload -> string, verify: (AnchorPayload, string) -> bool)
    requires CollisionFree(hash)
    requires forall p :: verify(p, sign(p))
    requires IsReportOf(hash, digest, anchored, anchoredReport) && IsReportOf(hash, digest, later, laterReport)
    ensures SignAnchor(anchoredReport, keyId, sign).Some? <==> ChainValid(hash, anchored) && FrameIdsUnique(anchored)
    ensures SignAnchor(anchoredReport, keyId, sign).Some? ==>
      (Certified(laterReport, SignAnchor(anchoredReport, keyId, sign).value, verify) <==> later == anchored)
  {
    ReportOkMeaning(hash, digest, anchored, anchoredReport);
    ReportOkMeaning(hash, digest, later, laterReport);
    if anchoredReport.ok && laterReport.ok {
      HeadBindsHistory(hash, anchored, later);
    }
  }

  // ----- recovery from the file -----

  datatype LoadError = MalformedLine(line: nat) | BadFrameHash(line: nat) | BrokenChain(line: nat)

  /** Nonces of the execution frames: what a reload can know to be used. */
  function ExecutedNonces<E>(executionNonce: E -> Option<string>, frames: seq<Frame<E>>): set<string> {
    set i | 0 <= i < |frames| && executionNonce(frames[i].event).Some? :: executionNonce(frames[i].event).value
  }

  lemma ExecutedNoncesOfAppend<E>(executionNonce: E -> Option<string>, frames: seq<Frame<E>>, f: Frame<E>)
    ensures ExecutedNonces(executionNonce, frames + [f]) ==
            ExecutedNonces(executionNonce, frames)
            + (if executionNonce(f.event).Some? then {executionNonce(f.event).value} else {})
  {
    var longer := frames + [f];
    forall n | n in ExecutedNonces(executionNonce, frames) ensures n in ExecutedNonces(executionNonce, longer) {
      var i :| 0 <= i < |frames| && executionNonce(frames[i].event) == Some(n);
      assert longer[i] == frames[i];
    }
    if executionNonce(f.event).Some? {
      assert longer[|frames|] == f;
    }
  }

  function SortIds(ids: seq<string>): (sorted: seq<string>)
    ensures Sorting.SortedBy(StringOrder.Le, sorted)
    ensures |sorted| == |ids|
    ensures forall id :: id in sorted <==> id in ids
  {
    StringOrder.IsTotalOrder();
    Sorting.SortPermutes(StringOrder.Le, ids);
    Sorting.SortSorts(StringOrder.Le, ids);
    Sorting.Sort(StringOrder.Le, ids)
  }

  method GetFrame<E>(frames: seq<Frame<E>>, frameId: string) returns (r: Option<Frame<E>>)
    ensures r == FindFrame(frames, frameId)
  {
    var i := 0;
    while i < |frames|
      invariant 0 <= i <= |frames|
      invariant FindFrame(frames, frameId) == FindFrame(frames[i..], frameId)
    {
      if frames[i].frameId == frameId {
        return Some(frames[i]);
      }
      assert frames[i..][1..] == frames[i + 1..];
      i := i + 1;
    }
    return None;
  }

  method VerifyFrames<E(==)>(hash: Hasher<E>, frames: seq<Frame<E>>) returns (ok: bool)
    ensures ok <==> ChainValid(hash, frames)
  {
    var previousHash := "";
    var i := 0;
    while i < |frames|
      invariant 0 <= i <= |frames|
      invariant previousHash == Head(frames[..i])
      invariant forall k | 0 <= k < i :: Linked(hash, frames, k)
    {
      var frame := frames[i];
      var expected := CreateFrame(hash, frame.frameId, previousHash, frame.event);
      if frame.previousHash != previousHash || frame.frameHash != expected.frameHash {
        assert !Linked(hash, frames, i);
        return false;
      }
      previousHash := frame.frameHash;
      i := i + 1;
    }
    return true;
  }

  class ReplayLog<E(==,!new)> {
    const hash: Hasher<E>
    const digest: seq<Frame<E>> -> string
    const executionNonce: E -> Option<string>
    var frames: seq<Frame<E>>
    var usedNonces: set<string>
    /** the lines of the JSONL file */
    var file: seq<Frame<E>>

    ghost predicate Valid()
      reads this
    {
      ChainValid(hash, frames) && file == frames
    }

    constructor (hash: Hasher<E>, digest: seq<Frame<E>> -> string, executionNonce: E -> Option<string>)
      ensures Valid() && frames == [] && usedNonces == {}
      ensures this.hash == hash && this.digest == digest && this.executionNonce == executionNonce
    {
      this.hash, this.digest, this.executionNonce := hash, digest, executionNonce;
      frames, usedNonces, file := [], {}, [];
    }

    method Append(frameId: string, event: E) returns (frame: Frame<E>)
      requires Valid()
      modifies this
      ensures Valid() && usedNonces == old(usedNonces)
      ensures frame == NextFrame(hash, old(frames), frameId, event)
      ensures frames == old(frames) + [frame]
    {
      var previousHash := if frames != [] then frames[|frames| - 1].frameHash else "";
      frame := CreateFrame(hash, frameId, previousHash, event);
      AppendKeepsChain(hash, frames, frameId, event);
      frames := frames + [frame];
      file := file + [frame];
    }

    /** The atomic gate: a nonce is claimed by the first caller and refused to all others. */
    method ClaimNonce(nonce: string) returns (claimed: bool)
      modifies this`usedNonces
      ensures claimed <==> nonce !in old(usedNonces)
      ensures usedNonces == old(usedNonces) + {nonce}
    {
      if nonce in usedNonces {
        return false;
      }
      usedNonces := usedNonces + {nonce};
      return true;
    }

    method Get(frameId: string) returns (r: Option<Frame<E>>)
      ensures r == FindFrame(frames, frameId)
    {
      r := GetFrame(frames, frameId);
    }

    method VerifyChain() returns (ok: bool)
      ensures ok <==> ChainValid(hash, frames)
    {
      ok := VerifyFrames(hash, frames);
    }

    method VerifyIntegrity() returns (report: IntegrityReport)
      ensures IsReportOf(hash, digest, frames, report)
    {
      var previousHash := "";
      var seen: set<string> := {};
      var duplicates: seq<string> := [];
      var firstError: Option<FirstError> := None;
      var i := 0;
      while i < |frames|
        invariant 0 <= i <= |frames|
        invariant previousHash == Head(frames[..i])
        invariant Scanned(hash, frames, i, seen, duplicates, firstError)
      {
        ScanStep(hash, frames, i, seen, duplicates, firstError);
        var frame := frames[i];
        if frame.frameId in seen {
          duplicates := duplicates + [frame.frameId];
        }
        seen := seen + {frame.frameId};
        if firstError == None {
          firstError := DefectOf(hash, frame, i, previousHash);
        }
        previousHash := frame.frameHash;
        i := i + 1;
      }
      assert frames[..|frames|] == frames;
      var sorted := SortIds(duplicates);
      ReportFits(hash, digest, frames, seen, duplicates, firstError);
      report := IntegrityReport(
        firstError == None && duplicates == [], |frames|, previousHash, digest(frames), sorted, firstError);
    }

    method CertifyAnchor(anchor: AuditAnchor, verify: (AnchorPayload, string) -> bool)
      returns (certified: bool, report: IntegrityReport)
      ensures IsReportOf(hash, digest, frames, report)
      ensures certified <==> Certified(report, anchor, verify)
    {
      report := VerifyIntegrity();
      certified := report.ok && verify(anchor.payload, anchor.signature)
        && anchor.payload.replayDigest == report.replayDigest
        && anchor.payload.headHash == report.headHash
        && anchor.payload.frameCount == report.frameCount;
    }
  }

  ghost predicate DuplicatesSoFar<E>(frames: seq<Frame<E>>, n: nat, seen: set<string>, duplicates: seq<string>)
    requires n <= |frames|
  {
    && seen == FrameIds(frames[..n])
    && |duplicates| + |seen| == n
    && forall id :: id in duplicates <==> Repeated(frames, n, id)
  }

  ghost predicate ErrorSoFar<E>(hash: Hasher<E>, frames: seq<Frame<E>>, n: nat, error: Option<FirstError>)
    requires n <= |frames|
  {
    && (error.None? ==> forall k | 0 <= k < n :: Linked(hash, frames, k))
    && (error.Some? ==> error.value.index < n && NamesFirstDefect(hash, frames, error))
  }

  lemma ErrorStep<E>(hash: Hasher<E>, frames: seq<Frame<E>>, n: nat, error: Option<FirstError>)
    requires n < |frames| && ErrorSoFar(hash, frames, n, error)
    ensures error.Some? ==> ErrorSoFar(hash, frames, n + 1, error)
    ensures var f, previous := frames[n], Head(frames[..n]);
            error.None? ==> ErrorSoFar(hash, frames, n + 1, DefectOf(hash, f, n, previous))
  {
    assert Head(frames[..n]) == if n == 0 then "" else frames[n - 1].frameHash;
  }

  lemma ReportFits<E>(
    hash: Hasher<E>, digest: seq<Frame<E>> -> string, frames: seq<Frame<E>>,
    seen: set<string>, duplicates: seq<string>, error: Option<FirstError>)
    requires Scanned(hash, frames, |frames|, seen, duplicates, error)
    ensures IsReportOf(hash, digest, frames, IntegrityReport(
              error.None? && duplicates == [], |frames|, Head(frames), digest(frames), SortIds(duplicates), error))
  {
    assert frames[..|frames|] == frames;
    assert |SortIds(duplicates)| == |duplicates|;
  }

  ghost predicate Scanned<E>(
    hash: Hasher<E>, frames: seq<Frame<E>>, n: nat,
    seen: set<string>, duplicates: seq<string>, error: Option<FirstError>)
    requires n <= |frames|
  {
    DuplicatesSoFar(frames, n, seen, duplicates) && ErrorSoFar(hash, frames, n, error)
  }

  lemma ScanStep<E>(
    hash: Hasher<E>, frames: seq<Frame<E>>, n: nat,
    seen: set<string>, duplicates: seq<string>, error: Option<FirstError>)
    requires n < |frames| && Scanned(hash, frames, n, seen, duplicates, error)
    ensures Head(frames[..n + 1]) == frames[n].frameHash
    ensures var f := frames[n];
            Scanned(hash, frames, n + 1, seen + {f.frameId},
                    if f.frameId in seen then duplicates + [f.frameId] else duplicates,
                    if error == None then DefectOf(hash, f, n, Head(frames[..n])) else error)
  {
    DuplicatesStep(frames, n, seen, duplicates);
    ErrorStep(hash, frames, n, error);
  }

  lemma DuplicatesStep<E>(frames: seq<Frame<E>>, n: nat, seen: set<string>, duplicates: seq<string>)
    requires n < |frames| && DuplicatesSoFar(frames, n, seen, duplicates)
    ensures var id := frames[n].frameId;
            DuplicatesSoFar(frames, n + 1, seen + {id}, if id in seen then duplicates + [id] else duplicates)
  {
    SeenGrows(frames, n);
    if frames[n].frameId in seen {
      assert seen + {frames[n].frameId} == seen;
    }
  }

  lemma RepeatedGrows<E>(frames: seq<Frame<E>>, n: nat, id: string)
    requires n < |frames|
    ensures Repeated(frames, n + 1, id) <==>
            Repeated(frames, n, id) || (id == frames[n].frameId && id in FrameIds(frames[..n]))
  {
    if Repeated(frames, n + 1, id) && !Repeated(frames, n, id) {
      var i, j :| 0 <= i < j < n + 1 && frames[i].frameId == frames[j].frameId == id;
      assert j == n && frames[..n][i].frameId == id;
    }
    if id == frames[n].frameId && id in FrameIds(frames[..n]) {
      var i :| 0 <= i < n && frames[..n][i].frameId == id;
      assert frames[i].frameId == frames[n].frameId == id;
    }
  }

  lemma SeenGrows<E>(frames: seq<Frame<E>>, i: nat)
    requires i < |frames|
    ensures FrameIds(frames[..i + 1]) == FrameIds(frames[..i]) + {frames[i].frameId}
    ensures forall id :: Repeated(frames, i + 1, id) <==>
              Repeated(frames, i, id) || (id == frames[i].frameId && id in FrameIds(frames[..i]))
  {
    forall id ensures Repeated(frames, i + 1, id) <==>
      Repeated(frames, i, id) || (id == frames[i].frameId && id in FrameIds(frames[..i]))
    {
      RepeatedGrows(frames, i, id);
    }
    var shorter, longer := frames[..i], frames[..i + 1];
    forall id | id in FrameIds(shorter) ensures id in FrameIds(longer) {
      var k :| 0 <= k < i && shorter[k].frameId == id;
      assert longer[k].frameId == id;
    }
    assert longer[i] == frames[i];
    forall id | id in FrameIds(longer) ensures id in FrameIds(shorter) + {frames[i].frameId} {
      var k :| 0 <= k < i + 1 && longer[k].frameId == id;
      assert k < i ==> shorter[k].frameId == id;
    }
  }

  /** What `load_jsonl` accepts: every line parses, and the frames form a valid chain. */
  ghost predicate Loadable<E>(hash: Hasher<E>, lines: seq<Option<Frame<E>>>) {
    (forall i | 0 <= i < |lines| :: lines[i].Some?) && ChainValid(hash, Frames(lines))
  }

  /**
   * `load_jsonl`: rebuild the log from its file. A line is `None` when it does
   * not parse as a frame record.
   */
  method LoadJsonl<E(==,!new)>(
    hash: Hasher<E>, executionNonce: E -> Option<string>, lines: seq<Option<Frame<E>>>)
    returns (r: Result<(seq<Frame<E>>, set<string>), LoadError>)
    ensures r.Success? <==> Loadable(hash, lines)
    ensures r.Success? ==> r.value == (Frames(lines), ExecutedNonces(executionNonce, Frames(lines)))
    ensures r.Failure? ==> NamesFirstBadLine(hash, lines, r.error)
  {
    var frames: seq<Frame<E>> := [];
    var used: set<string> := {};
    var i := 0;
    while i < |lines|
      invariant 0 <= i <= |lines|
      invariant forall k | 0 <= k < i :: lines[k].Some?
      invariant frames == Frames(lines[..i]) && |frames| == i
      invariant ChainValid(hash, frames)
      invariant used == ExecutedNonces(executionNonce, frames)
    {
      FramesAppend(lines, i);
      if lines[i].None? {
        return Failure(MalformedLine(i + 1));
      }
      var frame := lines[i].value;
      var expected := CreateFrame(hash, frame.frameId, frame.previousHash, frame.event);
      assert lines[..i + 1][..i] == lines[..i];
      var longer := frames + [frame];
      assert longer == Frames(lines[..i + 1]);
      if frame.frameHash != expected.frameHash {
        BadLineBreaksChain(hash, lines, i);
        return Failure(BadFrameHash(i + 1));
      }
      if frame.previousHash != (if frames != [] then frames[|frames| - 1].frameHash else "") {
        BadLineBreaksChain(hash, lines, i);
        return Failure(BrokenChain(i + 1));
      }
      AppendKeepsChain(hash, frames, frame.frameId, frame.event);
      ExecutedNoncesOfAppend(executionNonce, frames, frame);
      frames := longer;
      if executionNonce(frame.event).Some? {
        used := used + {executionNonce(frame.event).value};
      }
      i := i + 1;
    }
    assert lines[..|lines|] == lines;
    return Success((frames, used));
  }

  /** The parsed frames up to the first line that does not parse. */
  function Frames<E>(lines: seq<Option<Frame<E>>>): seq<Frame<E>> {
    if lines == [] || lines[0].None? then [] else [lines[0].value] + Frames(lines[1..])
  }

  lemma {:induction false} FramesAt<E>(lines: seq<Option<Frame<E>>>)
    requires forall k | 0 <= k < |lines| :: lines[k].Some?
    ensures |Frames(lines)| == |lines|
    ensures forall k | 0 <= k < |lines| :: Frames(lines)[k] == lines[k].value
  {
    if lines != [] {
      FramesAt(lines[1..]);
      forall k | 0 <= k < |lines| ensures Frames(lines)[k] == lines[k].value {
        if k > 0 {
          assert lines[k] == lines[1..][k - 1];
        }
      }
    }
  }

  lemma FramesAppend<E>(lines: seq<Option<Frame<E>>>, i: nat)
    requires i < |lines| && forall k | 0 <= k < i :: lines[k].Some?
    ensures lines[i].Some? ==> Frames(lines[..i + 1]) == Frames(lines[..i]) + [lines[i].value]
  {
    FramesAt(lines[..i]);
    if lines[i].Some? {
      FramesAt(lines[..i + 1]);
    }
  }

  /** A chain of the parsed frames is a chain of every prefix. */
  lemma FramesPrefix<E(!new)>(lines: seq<Option<Frame<E>>>, n: nat)
    requires n <= |lines| && forall k | 0 <= k < n :: lines[k].Some?
    ensures |Frames(lines)| >= n && Frames(lines)[..n] == Frames(lines[..n])
    decreases n
  {
    FramesAt(lines[..n]);
    if n > 0 {
      assert lines[1..][..n - 1] == lines[..n][1..];
      forall k | 0 <= k < n - 1 ensures lines[1..][k].Some? {}
      FramesPrefix(lines[1..], n - 1);
    }
  }

  lemma BadLineBreaksChain<E(!new)>(hash: Hasher<E>, lines: seq<Option<Frame<E>>>, i: nat)
    requires i < |lines| && forall k | 0 <= k < i + 1 :: lines[k].Some?
    requires |Frames(lines[..i + 1])| == i + 1 && !Linked(hash, Frames(lines[..i + 1]), i)
    ensures !ChainValid(hash, Frames(lines[..i + 1])) && !ChainValid(hash, Frames(lines))
  {
    FramesPrefix(lines, i + 1);
    if ChainValid(hash, Frames(lines)) {
      PrefixKeepsChain(hash, Frames(lines), i + 1);
    }
  }

  /** A chain breaks first where a valid prefix stops being extendable. */
  lemma FirstBreak<E>(hash: Hasher<E>, frames: seq<Frame<E>>, bad: nat, n: nat)
    requires bad < |frames| && n < |frames|
    requires !Linked(hash, frames, bad) && forall i | 0 <= i < bad :: Linked(hash, frames, i)
    requires ChainValid(hash, frames[..n]) && !ChainValid(hash, frames[..n + 1])
    ensures n == bad
  {
    PrefixChainMeaning(hash, frames, n);
    PrefixChainMeaning(hash, frames, n + 1);
  }

  lemma PrefixChainMeaning<E>(hash: Hasher<E>, frames: seq<Frame<E>>, n: nat)
    requires n <= |frames|
    ensures ChainValid(hash, frames[..n]) <==> forall i | 0 <= i < n :: Linked(hash, frames, i)
  {
    forall i | 0 <= i < n ensures Linked(hash, frames[..n], i) == Linked(hash, frames, i) {}
    if forall i | 0 <= i < n :: Linked(hash, frames, i) {
      forall i | 0 <= i < |frames[..n]| ensures Linked(hash, frames[..n], i) {
        assert Linked(hash, frames, i);
      }
    }
  }

  ghost predicate NamesFirstBadLine<E>(hash: Hasher<E>, lines: seq<Option<Frame<E>>>, error: LoadError) {
    && 1 <= error.line <= |lines|
    && (forall k | 0 <= k < error.line - 1 :: lines[k].Some?)
    && ChainValid(hash, Frames(lines[..error.line - 1]))
    && (error.MalformedLine? <==> lines[error.line - 1].None?)
    && (!error.MalformedLine? ==> !ChainValid(hash, Frames(lines[..error.line])))
  }

  /**
   * The three checkers agree: on parsed frames `load_jsonl` accepts exactly the
   * sequences `verify_chain` accepts, `verify_integrity` has no first error
   * exactly then, and both failures point at the same frame.
   */
  lemma CheckersAgree<E(!new)>(
    hash: Hasher<E>, digest: seq<Frame<E>> -> string, frames: seq<Frame<E>>,
    report: IntegrityReport, error: LoadError)
    requires IsReportOf(hash, digest, frames, report)
    ensures report.firstError.None? <==> ChainValid(hash, frames)
    ensures Loadable(hash, Lines(frames)) <==> ChainValid(hash, frames)
    ensures (NamesFirstBadLine(hash, Lines(frames), error) && report.firstError.Some?) ==>
            error.line == report.firstError.value.index + 1
  {
    LinesLoad(hash, frames);
    if report.firstError.Some? && NamesFirstBadLine(hash, Lines(frames), error) {
      SameFailure(hash, frames, report.firstError.value.index, error);
    }
  }

  lemma LinesLoad<E(!new)>(hash: Hasher<E>, frames: seq<Frame<E>>)
    ensures Frames(Lines(frames)) == frames
    ensures Loadable(hash, Lines(frames)) <==> ChainValid(hash, frames)
  {
    FramesAt(Lines(frames));
    assert Frames(Lines(frames)) == frames;
  }

  lemma SameFailure<E(!new)>(hash: Hasher<E>, frames: seq<Frame<E>>, bad: nat, error: LoadError)
    requires bad < |frames| && !Linked(hash, frames, bad) && forall i | 0 <= i < bad :: Linked(hash, frames, i)
    requires NamesFirstBadLine(hash, Lines(frames), error)
    ensures error.line == bad + 1
  {
    LinesLoad(hash, frames);
    FramesPrefix(Lines(frames), error.line);
    FramesPrefix(Lines(frames), error.line - 1);
    FirstBreak(hash, frames, bad, error.line - 1);
  }

  function Lines<E>(frames: seq<Frame<E>>): seq<Option<Frame<E>>> {
    seq(|frames|, i requires 0 <= i < |frames| => Some(frames[i]))
  }

  /**
   * Reloading the file a valid log wrote gives its frames back, and gives its
   * used nonces back exactly when every used nonce has its execution frame:
   * a claim whose frame was never written is forgotten.
   */
  lemma ReloadRestores<E(!new)>(hash: Hasher<E>, executionNonce: E -> Option<string>, file: seq<Frame<E>>, used: set<string>)
    requires ChainValid(hash, file)
    requires ExecutedNonces(executionNonce, file) <= used
    ensures Frames(Lines(file)) == file
    ensures ExecutedNonces(executionNonce, Frames(Lines(file))) == used <==>
      (forall n | n in used :: exists i | 0 <= i < |file| :: executionNonce(file[i].event) == Some(n))
  {
    FramesAt(Lines(file));
    assert Frames(Lines(file)) == file;
    if forall n | n in used :: exists i | 0 <= i < |file| :: executionNonce(file[i].event) == Some(n) {
      forall n | n in used ensures n in ExecutedNonces(executionNonce, file) {
        var i :| 0 <= i < |file| && executionNonce(file[i].event) == Some(n);
      }
    }
  }
}
