/**
 * Governance-mesh preflight. The procedure groups inputs by decision digest and
 * ranks the groups by priority, weight and digest; `Reference` is the far
 * simpler rule it turns out to compute, in which neither the weights nor the
 * order of the inputs appear.
 */
module Mesh {
  import opened Wrappers
  import opened Values
  import Sorting
  import StringOrder

  datatype MeshDecision = MeshDecision(allow: bool, reasons: seq<string>, rest: Dict)

  datatype Input = Input(
    sourceId: string,
    decision: MeshDecision,
    weight: int,
    priority: int,
    metadata: Option<Dict>,
    signature: Option<string>)

  /** What the constructor of an input insists on. */
  predicate WellFormed(item: Input) {
    item.sourceId != "" && item.weight > 0 && item.priority >= 0 && item.signature != Some("")
  }

  type DecisionDigest = MeshDecision -> string

  ghost predicate Injective(digest: DecisionDigest) {
    forall a, b :: digest(a) == digest(b) ==> a == b
  }

  datatype Status = Allow | Deny | Conflicted

  datatype Conflict = Conflict(
    left: string, right: string,
    leftDigest: string, rightDigest: string,
    leftAllow: bool, rightAllow: bool,
    priority: int)

  datatype Unsigned = Unsigned(
    requestDigest: string,
    allow: bool,
    status: Status,
    selectedDigest: Option<string>,
    selectedSourceIds: seq<string>,
    inputDigests: map<string, string>,
    conflicts: seq<Conflict>,
    reasons: seq<string>,
    replayFrameRef: Option<string>)

  datatype PreflightDecision = PreflightDecision(body: Unsigned, digest: string)

  datatype MeshError = EmptyRequestDigest | NoInputs | BadAttestation | DuplicateSources

  const CONFLICT_REASON := "highest-priority governance sources provide conflicting decisions"

  // ----- the simple rule -----

  /** All that the verdict can depend on. */
  datatype View = View(sourceId: string, decision: MeshDecision, priority: int)

  function ViewOf(item: Input): View {
    View(item.sourceId, item.decision, item.priority)
  }

  function Views(inputs: seq<Input>): seq<View> {
    seq(|inputs|, i requires 0 <= i < |inputs| => ViewOf(inputs[i]))
  }

  predicate BySource(a: View, b: View) {
    StringOrder.Le(a.sourceId, b.sourceId)
  }

  ghost predicate UniqueSources(vs: seq<View>) {
    forall i, j | 0 <= i < j < |vs| :: vs[i].sourceId != vs[j].sourceId
  }

  function Filter<T(!new)>(keep: T -> bool, s: seq<T>): (r: seq<T>)
    ensures forall x :: x in r <==> x in s && keep(x)
  {
    if s == [] then []
    else if keep(s[0]) then [s[0]] + Filter(keep, s[1..])
    else Filter(keep, s[1..])
  }

  function MaxPriority(vs: seq<View>): (p: int)
    requires vs != []
    ensures forall v | v in vs :: v.priority <= p
    ensures exists v | v in vs :: v.priority == p
  {
    if |vs| == 1 then
      assert vs[0] in vs;
      vs[0].priority
    else
      var rest := MaxPriority(vs[1..]);
      assert vs[0] in vs;
      if vs[0].priority >= rest then vs[0].priority else rest
  }

  function TopViews(vs: seq<View>): seq<View>
    requires vs != []
  {
    var top := MaxPriority(vs);
    Sorting.Sort(BySource, Filter((v: View) => v.priority == top, vs))
  }

  ghost predicate Agree(digest: DecisionDigest, tops: seq<View>) {
    forall v, w | v in tops && w in tops :: digest(v.decision) == digest(w.decision)
  }

  function ConflictOf(digest: DecisionDigest, v: View, w: View): Conflict {
    Conflict(v.sourceId, w.sourceId, digest(v.decision), digest(w.decision),
             v.decision.allow, w.decision.allow, v.priority)
  }

  function ConflictsWith(digest: DecisionDigest, v: View, others: seq<View>): seq<Conflict> {
    if others == [] then []
    else
      var w := others[|others| - 1];
      ConflictsWith(digest, v, others[..|others| - 1])
      + (if StringOrder.Lt(v.sourceId, w.sourceId) && digest(v.decision) != digest(w.decision)
         then [ConflictOf(digest, v, w)] else [])
  }

  function Conflicts(digest: DecisionDigest, sources: seq<View>, others: seq<View>): seq<Conflict> {
    if sources == [] then []
    else
      Conflicts(digest, sources[..|sources| - 1], others)
      + ConflictsWith(digest, sources[|sources| - 1], others)
  }

  ghost function InputDigests(digest: DecisionDigest, vs: seq<View>): map<string, string>
    requires UniqueSources(vs)
  {
    map v | v in vs :: v.sourceId := digest(v.decision)
  }

  /** The sources whose decision has the digest, in order. */
  function SourcesOf(digest: DecisionDigest, vs: seq<View>, d: string): seq<string> {
    var group := Sorting.Sort(BySource, Filter((v: View) => digest(v.decision) == d, vs));
    seq(|group|, i requires 0 <= i < |group| => group[i].sourceId)
  }

  /** The highest-priority inputs decide if they agree. */
  ghost function Verdict(
    digest: DecisionDigest, tops: seq<View>, sources: seq<string>, digests: map<string, string>,
    requestDigest: string, frameRef: Option<string>): Unsigned
    requires tops != []
  {
    var conflicts, decision := Conflicts(digest, tops, tops), tops[0].decision;
    if Agree(digest, tops) then
      Unsigned(
        requestDigest, decision.allow, if decision.allow then Allow else Deny, Some(digest(decision)), sources,
        digests, conflicts, decision.reasons, frameRef)
    else Unsigned(requestDigest, false, Conflicted, None, [], digests, conflicts, [CONFLICT_REASON], frameRef)
  }

  ghost function Reference(
    digest: DecisionDigest, seal: Unsigned -> string,
    vs: seq<View>, requestDigest: string, frameRef: Option<string>): PreflightDecision
    requires vs != [] && UniqueSources(vs)
  {
    var tops := TopViews(vs);
    TopViewsExist(vs);
    var sources := SourcesOf(digest, vs, digest(tops[0].decision));
    var body := Verdict(digest, tops, sources, InputDigests(digest, vs), requestDigest, frameRef);
    PreflightDecision(body, seal(body))
  }

  ghost predicate Attested(attested: Input -> bool, inputs: seq<Input>) {
    forall item | item in inputs :: attested(item)
  }

  ghost function PreflightSpec(
    digest: DecisionDigest, seal: Unsigned -> string, attested: Input -> bool,
    inputs: seq<Input>, requestDigest: string, frameRef: Option<string>): Result<PreflightDecision, MeshError>
  {
    if requestDigest == "" then Failure(EmptyRequestDigest)
    else if inputs == [] then Failure(NoInputs)
    else if !Attested(attested, inputs) then Failure(BadAttestation)
    else if !UniqueSources(Views(inputs)) then Failure(DuplicateSources)
    else Success(Reference(digest, seal, Views(inputs), requestDigest, frameRef))
  }

  // ----- facts about the rule -----

  lemma TopViewsExist(vs: seq<View>)
    requires vs != []
    ensures TopViews(vs) != []
    ensures forall v :: v in TopViews(vs) <==> v in vs && v.priority == MaxPriority(vs)
  {
    var top := MaxPriority(vs);
    var kept := Filter((v: View) => v.priority == top, vs);
    Sorting.SortPermutes(BySource, kept);
    var v :| v in vs && v.priority == top;
    assert v in kept;
  }

  lemma BySourceIsOrder()
    ensures Sorting.TotalPreorder(BySource)
  {
    StringOrder.IsTotalOrder();
  }

  lemma UniqueMeansSame(vs: seq<View>, v: View, w: View)
    requires UniqueSources(vs) && v in vs && w in vs && v.sourceId == w.sourceId
    ensures v == w
  {}

  lemma {:induction false} ConflictsWithMember(digest: DecisionDigest, v: View, others: seq<View>, c: Conflict)
    ensures c in ConflictsWith(digest, v, others) <==>
      exists w | w in others ::
        StringOrder.Lt(v.sourceId, w.sourceId) && digest(v.decision) != digest(w.decision) && c == ConflictOf(digest, v, w)
  {
    if others != [] {
      var n := |others| - 1;
      assert others == others[..n] + [others[n]];
      ConflictsWithMember(digest, v, others[..n], c);
    }
  }

  /** A conflict is reported for exactly the ordered pairs of sources that disagree. */
  lemma {:induction false} ConflictsMember(digest: DecisionDigest, sources: seq<View>, others: seq<View>, c: Conflict)
    ensures c in Conflicts(digest, sources, others) <==>
      exists v, w | v in sources && w in others ::
        StringOrder.Lt(v.sourceId, w.sourceId) && digest(v.decision) != digest(w.decision) && c == ConflictOf(digest, v, w)
  {
    if sources != [] {
      var n := |sources| - 1;
      assert sources == sources[..n] + [sources[n]];
      ConflictsMember(digest, sources[..n], others, c);
      ConflictsWithMember(digest, sources[n], others, c);
    }
  }

  lemma ConflictsMeanDisagreement(digest: DecisionDigest, tops: seq<View>)
    requires forall v, w | v in tops && w in tops && v.sourceId == w.sourceId :: v == w
    ensures Conflicts(digest, tops, tops) != [] <==> !Agree(digest, tops)
  {
    if Agree(digest, tops) {
      if Conflicts(digest, tops, tops) != [] {
        var c := Conflicts(digest, tops, tops)[0];
        ConflictsMember(digest, tops, tops, c);
      }
    } else {
      var v, w :| v in tops && w in tops && digest(v.decision) != digest(w.decision);
      StringOrder.Total(v.sourceId, w.sourceId);
      var c := if StringOrder.Lt(v.sourceId, w.sourceId) then ConflictOf(digest, v, w) else ConflictOf(digest, w, v);
      ConflictsMember(digest, tops, tops, c);
    }
  }

  /** Conflicts are reported exactly when the status is `conflict`. */
  lemma ConflictsMatchStatus(
    digest: DecisionDigest, seal: Unsigned -> string, vs: seq<View>, requestDigest: string, frameRef: Option<string>)
    requires vs != [] && UniqueSources(vs)
    ensures var body := Reference(digest, seal, vs, requestDigest, frameRef).body;
            body.conflicts != [] <==> body.status == Conflicted
  {
    TopViewsExist(vs);
    ConflictsMeanDisagreement(digest, TopViews(vs));
  }

  /** The preflight allows exactly when the highest-priority inputs share one decision, and it allows. */
  lemma AllowMeaning(
    digest: DecisionDigest, seal: Unsigned -> string, vs: seq<View>, requestDigest: string, frameRef: Option<string>)
    requires Injective(digest) && vs != [] && UniqueSources(vs)
    ensures Reference(digest, seal, vs, requestDigest, frameRef).body.allow <==>
      exists d: MeshDecision ::
        d.allow && forall v | v in vs && v.priority == MaxPriority(vs) :: v.decision == d
  {
    var tops := TopViews(vs);
    TopViewsExist(vs);
    assert tops[0] in tops;
    if Agree(digest, tops) && tops[0].decision.allow {
      var d := tops[0].decision;
      assert forall v | v in vs && v.priority == MaxPriority(vs) :: v.decision == d;
    }
  }

  /** Every highest-priority source of a settled preflight is among the selected ones. */
  lemma SelectedIncludesTop(
    digest: DecisionDigest, seal: Unsigned -> string, vs: seq<View>, requestDigest: string, frameRef: Option<string>)
    requires vs != [] && UniqueSources(vs)
    ensures var body := Reference(digest, seal, vs, requestDigest, frameRef).body;
            body.status != Conflicted ==>
              forall v | v in vs && v.priority == MaxPriority(vs) :: v.sourceId in body.selectedSourceIds
  {
    var tops := TopViews(vs);
    TopViewsExist(vs);
    if Agree(digest, tops) {
      assert tops[0] in tops;
      forall v | v in vs && v.priority == MaxPriority(vs)
        ensures v.sourceId in SourcesOf(digest, vs, digest(tops[0].decision))
      {
        assert v in tops;
        GroupListed(digest, vs, digest(tops[0].decision), v);
      }
    }
  }

  lemma GroupListed(digest: DecisionDigest, vs: seq<View>, d: string, v: View)
    requires v in vs && digest(v.decision) == d
    ensures v.sourceId in SourcesOf(digest, vs, d)
  {
    var kept := Filter((w: View) => digest(w.decision) == d, vs);
    Sorting.SortPermutes(BySource, kept);
    var group := Sorting.Sort(BySource, kept);
    var i :| 0 <= i < |group| && group[i] == v;
    assert SourcesOf(digest, vs, d)[i] == v.sourceId;
  }

  // ----- order and weights do not matter -----

  lemma {:induction false} FilterMultiset<T(!new)>(keep: T -> bool, s: seq<T>, x: T)
    ensures multiset(Filter(keep, s))[x] == if keep(x) then multiset(s)[x] else 0
  {
    if s != [] {
      FilterMultiset(keep, s[1..], x);
      assert s == [s[0]] + s[1..];
    }
  }

  lemma FilterForgetsOrder<T(!new)>(keep: T -> bool, s: seq<T>, t: seq<T>)
    requires multiset(s) == multiset(t)
    ensures multiset(Filter(keep, s)) == multiset(Filter(keep, t))
  {
    forall x: T ensures multiset(Filter(keep, s))[x] == multiset(Filter(keep, t))[x] {
      FilterMultiset(keep, s, x);
      FilterMultiset(keep, t, x);
    }
  }

  lemma SortedFilterForgetsOrder(keep: View -> bool, vs: seq<View>, ws: seq<View>)
    requires multiset(vs) == multiset(ws) && UniqueSources(vs)
    ensures Sorting.Sort(BySource, Filter(keep, vs)) == Sorting.Sort(BySource, Filter(keep, ws))
  {
    FilterForgetsOrder(keep, vs, ws);
    BySourceIsOrder();
    var s := Filter(keep, vs);
    forall x, y | x in s && y in s && BySource(x, y) && BySource(y, x) ensures x == y {
      StringOrder.Antisymmetric(x.sourceId, y.sourceId);
      UniqueMeansSame(vs, x, y);
    }
    Sorting.SortForgetsOrder(BySource, s, Filter(keep, ws));
  }

  lemma SameMembers<T>(s: seq<T>, t: seq<T>)
    requires multiset(s) == multiset(t)
    ensures forall x :: x in s <==> x in t
    ensures |s| == |t|
  {
    forall x ensures x in s <==> x in t {
      assert x in s <==> x in multiset(s);
      assert x in t <==> x in multiset(t);
    }
    assert |multiset(s)| == |s| && |multiset(t)| == |t|;
  }

  lemma TopViewsForgetOrder(vs: seq<View>, ws: seq<View>)
    requires vs != [] && ws != [] && UniqueSources(vs) && multiset(vs) == multiset(ws)
    ensures TopViews(vs) == TopViews(ws)
  {
    SameMembers(vs, ws);
    var top := MaxPriority(vs);
    assert top == MaxPriority(ws);
    SortedFilterForgetsOrder((v: View) => v.priority == top, vs, ws);
  }

  lemma InputDigestsForgetOrder(digest: DecisionDigest, vs: seq<View>, ws: seq<View>)
    requires UniqueSources(vs) && UniqueSources(ws) && multiset(vs) == multiset(ws)
    ensures InputDigests(digest, vs) == InputDigests(digest, ws)
  {
    SameMembers(vs, ws);
  }

  /** The whole decision, its digest included, is the same for every order of the inputs. */
  lemma OrderIrrelevant(
    digest: DecisionDigest, seal: Unsigned -> string,
    vs: seq<View>, ws: seq<View>, requestDigest: string, frameRef: Option<string>)
    requires vs != [] && ws != [] && UniqueSources(vs) && UniqueSources(ws) && multiset(vs) == multiset(ws)
    ensures Reference(digest, seal, vs, requestDigest, frameRef) == Reference(digest, seal, ws, requestDigest, frameRef)
  {
    TopViewsForgetOrder(vs, ws);
    TopViewsExist(vs);
    SourcesForgetOrder(digest, vs, ws, digest(TopViews(vs)[0].decision));
    InputDigestsForgetOrder(digest, vs, ws);
  }

  lemma SourcesForgetOrder(digest: DecisionDigest, vs: seq<View>, ws: seq<View>, d: string)
    requires UniqueSources(vs) && multiset(vs) == multiset(ws)
    ensures SourcesOf(digest, vs, d) == SourcesOf(digest, ws, d)
  {
    SortedFilterForgetsOrder((v: View) => digest(v.decision) == d, vs, ws);
  }

  function Without<T>(s: seq<T>, k: nat): seq<T>
    requires k < |s|
  {
    s[..k] + s[k + 1..]
  }

  lemma WithoutMultiset<T>(s: seq<T>, k: nat)
    requires k < |s|
    ensures multiset(s) == multiset(Without(s, k)) + multiset{s[k]}
  {
    assert s == s[..k] + [s[k]] + s[k + 1..];
  }

  /** Taking the same element out of both leaves the same elements, and putting it back too. */
  lemma SameWithout<T>(s: seq<T>, i: nat, t: seq<T>, j: nat)
    requires i < |s| && j < |t| && s[i] == t[j]
    ensures multiset(s) == multiset(t) <==> multiset(Without(s, i)) == multiset(Without(t, j))
  {
    WithoutMultiset(s, i);
    WithoutMultiset(t, j);
    var a, b, x := multiset(Without(s, i)), multiset(Without(t, j)), multiset{s[i]};
    assert a == (a + x) - x && b == (b + x) - x;
  }

  lemma ViewsWithout(s: seq<Input>, k: nat)
    requires k < |s|
    ensures Views(Without(s, k)) == Without(Views(s), k) && Views(s)[k] == ViewOf(s[k])
  {}

  lemma {:induction false} ViewsForgetOrder(inputs: seq<Input>, others: seq<Input>)
    requires multiset(inputs) == multiset(others)
    ensures multiset(Views(inputs)) == multiset(Views(others))
    decreases |inputs|
  {
    SameMembers(inputs, others);
    if inputs != [] {
      assert inputs[0] in others;
      var k :| 0 <= k < |others| && others[k] == inputs[0];
      SameWithout(inputs, 0, others, k);
      ViewsForgetOrder(Without(inputs, 0), Without(others, k));
      ViewsWithout(inputs, 0);
      ViewsWithout(others, k);
      SameWithout(Views(inputs), 0, Views(others), k);
    }
  }

  lemma UniqueForgetsOrder(vs: seq<View>, ws: seq<View>)
    requires multiset(vs) == multiset(ws) && UniqueSources(vs)
    ensures UniqueSources(ws)
  {
    forall i, j | 0 <= i < j < |ws| ensures ws[i].sourceId != ws[j].sourceId {
      Sorting.TwoPlaces(ws, vs, i, j);
      var p, q :| 0 <= p < |vs| && 0 <= q < |vs| && p != q && vs[p] == ws[i] && vs[q] == ws[j];
      assert p < q ==> vs[p].sourceId != vs[q].sourceId;
      assert q < p ==> vs[q].sourceId != vs[p].sourceId;
    }
  }

  /** Every permutation of the inputs gets the same answer, refusals included. */
  lemma PreflightForgetsOrder(
    digest: DecisionDigest, seal: Unsigned -> string, attested: Input -> bool,
    inputs: seq<Input>, others: seq<Input>, requestDigest: string, frameRef: Option<string>)
    requires multiset(inputs) == multiset(others)
    ensures PreflightSpec(digest, seal, attested, inputs, requestDigest, frameRef)
            == PreflightSpec(digest, seal, attested, others, requestDigest, frameRef)
  {
    RefusalsForgetOrder(attested, inputs, others);
    ViewsForgetOrder(inputs, others);
    if inputs != [] && UniqueSources(Views(inputs)) {
      OrderIrrelevant(digest, seal, Views(inputs), Views(others), requestDigest, frameRef);
    }
  }

  lemma RefusalsForgetOrder(attested: Input -> bool, inputs: seq<Input>, others: seq<Input>)
    requires multiset(inputs) == multiset(others)
    ensures inputs == [] <==> others == []
    ensures Attested(attested, inputs) == Attested(attested, others)
    ensures UniqueSources(Views(inputs)) == UniqueSources(Views(others))
  {
    SameMembers(inputs, others);
    ViewsForgetOrder(inputs, others);
    if UniqueSources(Views(others)) {
      UniqueForgetsOrder(Views(others), Views(inputs));
    }
    if UniqueSources(Views(inputs)) {
      UniqueForgetsOrder(Views(inputs), Views(others));
    }
  }

  /** Neither weights nor metadata nor signatures can change the decision in any way. */
  lemma WeightsIrrelevant(
    digest: DecisionDigest, seal: Unsigned -> string, attested: Input -> bool,
    inputs: seq<Input>, others: seq<Input>, requestDigest: string, frameRef: Option<string>)
    requires |inputs| == |others|
    requires forall i | 0 <= i < |inputs| ::
      others[i] == inputs[i].(weight := others[i].weight, metadata := others[i].metadata, signature := others[i].signature)
    requires (forall item | item in inputs :: attested(item)) && (forall item | item in others :: attested(item))
    ensures PreflightSpec(digest, seal, attested, inputs, requestDigest, frameRef)
            == PreflightSpec(digest, seal, attested, others, requestDigest, frameRef)
  {
    assert Views(inputs) == Views(others);
  }

  /** No source registry configured: every input passes the attestation step. */
  predicate NoAttestation(item: Input) { true }

  /** Inputs that look the same are decided the same, whoever checked their attestations. */
  lemma SameViewsSameDecision(
    digest: DecisionDigest, seal: Unsigned -> string, attested: Input -> bool,
    inputs: seq<Input>, others: seq<Input>, requestDigest: string, frameRef: Option<string>)
    requires Views(inputs) == Views(others)
    requires PreflightSpec(digest, seal, attested, inputs, requestDigest, frameRef).Success?
    ensures PreflightSpec(digest, seal, NoAttestation, others, requestDigest, frameRef)
            == PreflightSpec(digest, seal, attested, inputs, requestDigest, frameRef)
  {
    assert |Views(inputs)| == |inputs| && |Views(others)| == |others|;
  }

  /**
   * The class documentation says the heaviest group wins. It does not: here one
   * source of weight 1 and priority 1 overrules one of any weight and priority 0.
   * `DocumentedWinnerSelected` says exactly when it does.
   */
  lemma HeavierGroupLoses(digest: DecisionDigest, seal: Unsigned -> string, weight: int, requestDigest: string)
    requires weight > 1 && requestDigest != ""
    ensures var deny := Input("a", MeshDecision(false, [], map[]), 1, 1, None, None);
            var allow := Input("b", MeshDecision(true, [], map[]), weight, 0, None, None);
            var r := PreflightSpec(digest, seal, _ => true, [deny, allow], requestDigest, None);
            WellFormed(deny) && WellFormed(allow) && r.Success? && r.value.body.status == Deny
  {
    var deny := Input("a", MeshDecision(false, [], map[]), 1, 1, None, None);
    var allow := Input("b", MeshDecision(true, [], map[]), weight, 0, None, None);
    var vs := Views([deny, allow]);
    assert vs == [ViewOf(deny), ViewOf(allow)];
    TopViewsExist(vs);
    assert ViewOf(deny) in vs;
    assert MaxPriority(vs) == 1;
    assert forall v | v in TopViews(vs) :: v == ViewOf(deny);
    assert TopViews(vs)[0] in TopViews(vs);
  }

  // ----- evidence records -----

  datatype InputRecord = InputRecord(
    sourceId: string, decision: MeshDecision, weight: int, priority: int, metadata: Dict,
    decisionDigest: string, signature: Option<string>)

  /** `to_dict` */
  function ToRecord(digest: DecisionDigest, item: Input): InputRecord {
    InputRecord(
      item.sourceId, item.decision, item.weight, item.priority,
      if item.metadata.Some? then item.metadata.value else map[],
      digest(item.decision), item.signature)
  }

  /** `from_dict`: a well-formed input whose digest matches, or nothing. */
  function FromRecord(digest: DecisionDigest, r: InputRecord): Option<Input> {
    var item := Input(r.sourceId, r.decision, r.weight, r.priority, Some(r.metadata), r.signature);
    if !WellFormed(item) || r.decisionDigest != digest(item.decision) then None else Some(item)
  }

  function FromRecords(digest: DecisionDigest, records: seq<InputRecord>): Option<seq<Input>> {
    if records == [] then Some([])
    else
      var first, rest := FromRecord(digest, records[0]), FromRecords(digest, records[1..]);
      if first.None? || rest.None? then None else Some([first.value] + rest.value)
  }

  function ToRecords(digest: DecisionDigest, inputs: seq<Input>): seq<InputRecord> {
    seq(|inputs|, i requires 0 <= i < |inputs| => ToRecord(digest, inputs[i]))
  }

  /** Logged evidence reads back as inputs with the same views, so it re-derives the same decision. */
  lemma {:induction false} EvidenceRoundTrip(digest: DecisionDigest, inputs: seq<Input>)
    requires forall item | item in inputs :: WellFormed(item)
    ensures FromRecords(digest, ToRecords(digest, inputs)).Some?
    ensures Views(FromRecords(digest, ToRecords(digest, inputs)).value) == Views(inputs)
  {
    if inputs != [] {
      assert inputs[0] in inputs;
      assert ToRecords(digest, inputs)[1..] == ToRecords(digest, inputs[1..]);
      EvidenceRoundTrip(digest, inputs[1..]);
      var back := FromRecords(digest, ToRecords(digest, inputs)).value;
      assert back[1..] == FromRecords(digest, ToRecords(digest, inputs[1..])).value;
      forall i | 0 <= i < |inputs| ensures i < |back| && ViewOf(back[i]) == ViewOf(inputs[i]) {
        assert |Views(back[1..])| == |Views(inputs[1..])|;
        if i > 0 {
          assert Views(back[1..])[i - 1] == Views(inputs[1..])[i - 1];
        }
      }
    }
  }

  // ----- the procedure -----

  predicate ByInputSource(a: Input, b: Input) {
    StringOrder.Le(a.sourceId, b.sourceId)
  }

  lemma {:induction false} InsertViews(x: Input, items: seq<Input>)
    ensures Views(Sorting.Insert(ByInputSource, x, items)) == Sorting.Insert(BySource, ViewOf(x), Views(items))
  {
    if items != [] {
      assert Views(items)[1..] == Views(items[1..]);
      if !ByInputSource(x, items[0]) {
        InsertViews(x, items[1..]);
      }
    }
  }

  /** Sorting inputs by source and then viewing them is sorting the views. */
  lemma {:induction false} SortViews(items: seq<Input>)
    ensures Views(Sorting.Sort(ByInputSource, items)) == Sorting.Sort(BySource, Views(items))
  {
    if items != [] {
      assert Views(items)[1..] == Views(items[1..]);
      SortViews(items[1..]);
      InsertViews(items[0], Sorting.Sort(ByInputSource, items[1..]));
    }
  }

  lemma ViewsOfCons(x: Input, rest: seq<Input>)
    ensures Views([x] + rest) == [ViewOf(x)] + Views(rest)
  {}

  lemma FilterOfCons<T(!new)>(keep: T -> bool, x: T, rest: seq<T>)
    ensures Filter(keep, [x] + rest) == (if keep(x) then [x] else []) + Filter(keep, rest)
  {
    assert ([x] + rest)[0] == x && ([x] + rest)[1..] == rest;
  }

  lemma {:induction false} FilterViews(keepInput: Input -> bool, keep: View -> bool, items: seq<Input>)
    requires forall item :: keepInput(item) == keep(ViewOf(item))
    ensures Views(Filter(keepInput, items)) == Filter(keep, Views(items))
  {
    if items != [] {
      var x, rest := items[0], items[1..];
      FilterViews(keepInput, keep, rest);
      assert items == [x] + rest;
      ViewsOfCons(x, rest);
      FilterOfCons(keepInput, x, rest);
      FilterOfCons(keep, ViewOf(x), Views(rest));
      ViewsOfCons(x, Filter(keepInput, rest));
    }
  }

  function GroupOf(digest: DecisionDigest, inputs: seq<Input>, d: string): seq<Input> {
    Filter((item: Input) => digest(item.decision) == d, inputs)
  }

  lemma {:induction false} FilterAppend<T(!new)>(keep: T -> bool, s: seq<T>, x: T)
    ensures Filter(keep, s + [x]) == Filter(keep, s) + (if keep(x) then [x] else [])
  {
    if s == [] {
      assert s + [x] == [x];
    } else {
      assert (s + [x])[0] == s[0] && (s + [x])[1..] == s[1..] + [x];
      FilterAppend(keep, s[1..], x);
    }
  }

  function GroupPriority(group: seq<Input>): int
    requires group != []
  {
    MaxPriority(Views(group))
  }

  function GroupWeight(group: seq<Input>): int {
    if group == [] then 0 else group[0].weight + GroupWeight(group[1..])
  }

  /** The sort key of the ranking: priority, then weight, then digest. */
  predicate RanksBefore(d: string, a: seq<Input>, e: string, b: seq<Input>)
    requires a != [] && b != []
  {
    || GroupPriority(a) > GroupPriority(b)
    || (GroupPriority(a) == GroupPriority(b)
        && (GroupWeight(a) > GroupWeight(b) || (GroupWeight(a) == GroupWeight(b) && StringOrder.Lt(d, e))))
  }

  lemma ConflictsWithStep(digest: DecisionDigest, v: View, others: seq<View>, j: nat)
    requires j < |others|
    ensures ConflictsWith(digest, v, others[..j + 1]) ==
      ConflictsWith(digest, v, others[..j])
      + (if StringOrder.Lt(v.sourceId, others[j].sourceId) && digest(v.decision) != digest(others[j].decision)
         then [ConflictOf(digest, v, others[j])] else [])
  {
    assert others[..j + 1][..j] == others[..j];
  }

  lemma ConflictsStep(digest: DecisionDigest, sources: seq<View>, others: seq<View>, i: nat)
    requires i < |sources|
    ensures Conflicts(digest, sources[..i + 1], others) ==
            Conflicts(digest, sources[..i], others) + ConflictsWith(digest, sources[i], others)
  {
    assert sources[..i + 1][..i] == sources[..i];
  }

  method CollectConflicts(digest: DecisionDigest, tops: seq<Input>, topPriority: int) returns (conflicts: seq<Conflict>)
    requires forall item | item in tops :: item.priority == topPriority
    ensures conflicts == Conflicts(digest, Views(tops), Views(tops))
  {
    ghost var vs := Views(tops);
    conflicts := [];
    for i := 0 to |tops|
      invariant conflicts == Conflicts(digest, vs[..i], vs)
    {
      var found: seq<Conflict> := [];
      assert tops[i] in tops;
      for j := 0 to |tops|
        invariant found == ConflictsWith(digest, vs[i], vs[..j])
      {
        ConflictsWithStep(digest, vs[i], vs, j);
        var left, right := digest(tops[i].decision), digest(tops[j].decision);
        if StringOrder.Lt(tops[i].sourceId, tops[j].sourceId) && left != right {
          found := found + [Conflict(
            tops[i].sourceId, tops[j].sourceId, left, right,
            tops[i].decision.allow, tops[j].decision.allow, topPriority)];
        }
      }
      assert vs[..|tops|] == vs;
      ConflictsStep(digest, vs, vs, i);
      conflicts := conflicts + found;
    }
    assert vs[..|tops|] == vs;
  }

  ghost predicate Grouped(digest: DecisionDigest, inputs: seq<Input>, groups: map<string, seq<Input>>) {
    && (forall item | item in inputs :: digest(item.decision) in groups)
    && (forall d | d in groups :: groups[d] != [] && groups[d] == GroupOf(digest, inputs, d))
  }

  method GroupInputs(digest: DecisionDigest, inputs: seq<Input>) returns (groups: map<string, seq<Input>>)
    ensures Grouped(digest, inputs, groups)
  {
    groups := map[];
    for i := 0 to |inputs|
      invariant Grouped(digest, inputs[..i], groups)
    {
      var d := digest(inputs[i].decision);
      GroupStep(digest, inputs, i, groups);
      groups := groups[d := (if d in groups then groups[d] else []) + [inputs[i]]];
    }
    assert inputs[..|inputs|] == inputs;
  }

  lemma GroupStep(digest: DecisionDigest, inputs: seq<Input>, i: nat, groups: map<string, seq<Input>>)
    requires i < |inputs| && Grouped(digest, inputs[..i], groups)
    ensures var d := digest(inputs[i].decision);
            Grouped(digest, inputs[..i + 1], groups[d := (if d in groups then groups[d] else []) + [inputs[i]]])
  {
    var d := digest(inputs[i].decision);
    var longer := groups[d := (if d in groups then groups[d] else []) + [inputs[i]]];
    assert inputs[..i + 1] == inputs[..i] + [inputs[i]];
    forall e | e in longer ensures longer[e] == GroupOf(digest, inputs[..i + 1], e) {
      FilterAppend((item: Input) => digest(item.decision) == e, inputs[..i], inputs[i]);
      var before := GroupOf(digest, inputs[..i], e);
      if before != [] {
        assert before[0] in before && digest(before[0].decision) in groups;
      }
    }
  }

  /** What ranks before the best so far is better than all the best was better than. */
  lemma BetterRanks(groups: map<string, seq<Input>>, seen: set<string>, best: string, d: string)
    requires forall e | e in groups :: groups[e] != []
    requires best in groups && d in groups && seen <= groups.Keys
    requires RanksBefore(d, groups[d], best, groups[best])
    requires forall e | e in seen - {d} :: !RanksBefore(e, groups[e], best, groups[best])
    ensures forall e | e in seen :: !RanksBefore(e, groups[e], d, groups[d])
  {
    forall e | e in seen ensures !RanksBefore(e, groups[e], d, groups[d]) {
      RankTransitive(e, groups[e], d, groups[d], best, groups[best]);
    }
  }

  lemma RankTransitive(e: string, a: seq<Input>, d: string, b: seq<Input>, best: string, c: seq<Input>)
    requires a != [] && b != [] && c != []
    requires RanksBefore(d, b, best, c) && (e == d ==> a == b)
    requires e != d ==> !RanksBefore(e, a, best, c)
    ensures !RanksBefore(e, a, d, b)
  {
    StringOrder.IsTotalOrder();
  }

  /** The head of `sorted(groups.items(), key=...)`. */
  method FirstRanked(groups: map<string, seq<Input>>) returns (winner: string)
    requires groups != map[] && forall d | d in groups :: groups[d] != []
    ensures winner in groups
    ensures forall d | d in groups :: !RanksBefore(d, groups[d], winner, groups[winner])
  {
    winner :| winner in groups;
    var left := groups.Keys - {winner};
    while left != {}
      invariant left <= groups.Keys && winner in groups
      invariant forall d | d in groups.Keys - left :: !RanksBefore(d, groups[d], winner, groups[winner])
      decreases left
    {
      var d :| d in left;
      left := left - {d};
      if RanksBefore(d, groups[d], winner, groups[winner]) {
        BetterRanks(groups, groups.Keys - left, winner, d);
        winner := d;
      }
    }
  }

  /** Whatever the weights, the first group in the ranking holds a highest-priority input. */
  lemma WinnerHoldsTop(
    digest: DecisionDigest, inputs: seq<Input>, groups: map<string, seq<Input>>, winner: string)
    requires inputs != [] && Grouped(digest, inputs, groups) && winner in groups
    requires forall d | d in groups :: !RanksBefore(d, groups[d], winner, groups[winner])
    ensures exists item | item in groups[winner] :: item in inputs && item.priority == MaxPriority(Views(inputs))
  {
    PriorityReached(inputs);
    var top :| top in inputs && top.priority == MaxPriority(Views(inputs));
    var d := digest(top.decision);
    assert top in groups[d];
    PriorityReached(groups[d]);
    PriorityReached(groups[winner]);
    var item :| item in groups[winner] && item.priority == GroupPriority(groups[winner]);
    assert item in inputs;
  }

  lemma PriorityReached(inputs: seq<Input>)
    requires inputs != []
    ensures exists item | item in inputs :: item.priority == MaxPriority(Views(inputs))
    ensures forall item | item in inputs :: item.priority <= MaxPriority(Views(inputs))
  {
    var vs := Views(inputs);
    var top := MaxPriority(vs);
    var v :| v in vs && v.priority == top;
    var k :| 0 <= k < |vs| && vs[k] == v;
    assert inputs[k] in inputs;
    forall item | item in inputs ensures item.priority <= MaxPriority(vs) {
      var j :| 0 <= j < |inputs| && inputs[j] == item;
      assert vs[j] in vs;
    }
  }

  method MaxInputPriority(inputs: seq<Input>) returns (top: int)
    requires inputs != []
    ensures top == MaxPriority(Views(inputs))
  {
    top := inputs[0].priority;
    var vs := Views(inputs);
    assert vs[0].priority == top;
    for i := 1 to |inputs|
      invariant forall k | 0 <= k < i :: vs[k].priority <= top
      invariant exists k | 0 <= k < i :: vs[k].priority == top
    {
      assert vs[i].priority == inputs[i].priority;
      if inputs[i].priority > top {
        top := inputs[i].priority;
      }
    }
    var k :| 0 <= k < |inputs| && vs[k].priority == top;
    assert vs[k] in vs;
  }

  function SourceIds(inputs: seq<Input>): set<string> {
    set i | 0 <= i < |inputs| :: inputs[i].sourceId
  }

  lemma SourceIdsStep(inputs: seq<Input>, item: Input)
    ensures SourceIds(inputs + [item]) == SourceIds(inputs) + {item.sourceId}
  {
    var longer := inputs + [item];
    forall id | id in SourceIds(inputs) ensures id in SourceIds(longer) {
      var k :| 0 <= k < |inputs| && inputs[k].sourceId == id;
      assert longer[k].sourceId == id;
    }
    assert longer[|inputs|] == item;
  }

  /** Adding an input keeps the sources unique exactly when its source is new. */
  lemma UniqueStep(inputs: seq<Input>, item: Input)
    ensures UniqueSources(Views(inputs + [item])) <==>
            UniqueSources(Views(inputs)) && item.sourceId !in SourceIds(inputs)
  {
    var longer := inputs + [item];
    assert Views(longer) == Views(inputs) + [ViewOf(item)];
    if item.sourceId in SourceIds(inputs) {
      var k :| 0 <= k < |inputs| && inputs[k].sourceId == item.sourceId;
      assert Views(longer)[k].sourceId == Views(longer)[|inputs|].sourceId;
    }
    if !UniqueSources(Views(inputs)) {
      var i, j :| 0 <= i < j < |inputs| && Views(inputs)[i].sourceId == Views(inputs)[j].sourceId;
      assert Views(longer)[i].sourceId == Views(longer)[j].sourceId;
    }
    if UniqueSources(Views(inputs)) && item.sourceId !in SourceIds(inputs) {
      forall i, j | 0 <= i < j < |longer| ensures Views(longer)[i].sourceId != Views(longer)[j].sourceId {
        assert i < |inputs| && inputs[i].sourceId in SourceIds(inputs);
        assert j < |inputs| ==> Views(inputs)[i].sourceId != Views(inputs)[j].sourceId;
      }
    }
  }

  /** As many different sources as inputs: nobody spoke twice. */
  lemma {:induction false} DistinctCount(inputs: seq<Input>)
    ensures |SourceIds(inputs)| <= |inputs|
    ensures |SourceIds(inputs)| == |inputs| <==> UniqueSources(Views(inputs))
  {
    if inputs == [] {
      assert SourceIds(inputs) == {};
    } else {
      var init, last := inputs[..|inputs| - 1], inputs[|inputs| - 1];
      assert inputs == init + [last];
      DistinctCount(init);
      SourceIdsStep(init, last);
      UniqueStep(init, last);
      assert last.sourceId in SourceIds(init) ==> SourceIds(init) + {last.sourceId} == SourceIds(init);
    }
  }

  method SourcesUnique(inputs: seq<Input>) returns (unique: bool)
    ensures unique <==> UniqueSources(Views(inputs))
  {
    var ids: set<string> := {};
    for i := 0 to |inputs|
      invariant ids == SourceIds(inputs[..i])
    {
      SourceIdsStep(inputs[..i], inputs[i]);
      assert inputs[..i + 1] == inputs[..i] + [inputs[i]];
      ids := ids + {inputs[i].sourceId};
    }
    assert inputs[..|inputs|] == inputs;
    DistinctCount(inputs);
    unique := |ids| == |inputs|;
  }

  method AllAttested(attested: Input -> bool, inputs: seq<Input>) returns (ok: bool)
    ensures ok == Attested(attested, inputs)
  {
    for i := 0 to |inputs|
      invariant forall k | 0 <= k < i :: attested(inputs[k])
    {
      if !attested(inputs[i]) {
        return false;
      }
    }
    return true;
  }

  /** No group of the inputs ranks before this one. */
  ghost predicate FirstInRanking(digest: DecisionDigest, inputs: seq<Input>, winner: string, group: seq<Input>)
    requires group != []
  {
    forall item | item in inputs ::
      var d := digest(item.decision);
      GroupOf(digest, inputs, d) != [] && !RanksBefore(d, GroupOf(digest, inputs, d), winner, group)
  }

  method RankWinner(digest: DecisionDigest, inputs: seq<Input>) returns (winner: string, group: seq<Input>)
    requires inputs != []
    ensures group == GroupOf(digest, inputs, winner) && group != []
    ensures exists item | item in group :: item in inputs && item.priority == MaxPriority(Views(inputs))
    ensures FirstInRanking(digest, inputs, winner, group)
  {
    var groups := GroupInputs(digest, inputs);
    assert inputs[0] in inputs;
    winner := FirstRanked(groups);
    WinnerHoldsTop(digest, inputs, groups, winner);
    group := groups[winner];
    forall item | item in inputs
      ensures var d := digest(item.decision);
              GroupOf(digest, inputs, d) != [] && !RanksBefore(d, GroupOf(digest, inputs, d), winner, group)
    {
      assert groups[digest(item.decision)] == GroupOf(digest, inputs, digest(item.decision));
    }
  }

  // ----- who is selected -----

  /** Every highest-priority input is of this decision. */
  predicate HoldsTop(digest: DecisionDigest, inputs: seq<Input>, g: string)
    requires inputs != []
  {
    forall item | item in inputs && item.priority == MaxPriority(Views(inputs)) :: digest(item.decision) == g
  }

  lemma TopInputs(digest: DecisionDigest, inputs: seq<Input>, g: string)
    requires inputs != []
    ensures HoldsTop(digest, inputs, g) <==> forall v | v in TopViews(Views(inputs)) :: digest(v.decision) == g
  {
    var vs := Views(inputs);
    TopViewsExist(vs);
    if HoldsTop(digest, inputs, g) {
      forall v | v in TopViews(vs) ensures digest(v.decision) == g {
        var k :| 0 <= k < |vs| && vs[k] == v;
        assert inputs[k] in inputs;
      }
    } else {
      var item :| item in inputs && item.priority == MaxPriority(vs) && digest(item.decision) != g;
      var k :| 0 <= k < |inputs| && inputs[k] == item;
      assert vs[k] in TopViews(vs);
    }
  }

  /** A decision is selected exactly when all the highest-priority inputs are of it. */
  lemma SelectedExactly(
    digest: DecisionDigest, seal: Unsigned -> string, attested: Input -> bool,
    inputs: seq<Input>, requestDigest: string, frameRef: Option<string>, g: string)
    requires PreflightSpec(digest, seal, attested, inputs, requestDigest, frameRef).Success?
    ensures PreflightSpec(digest, seal, attested, inputs, requestDigest, frameRef).value.body.selectedDigest == Some(g)
            <==> HoldsTop(digest, inputs, g)
  {
    var vs := Views(inputs);
    ReferenceCases(digest, seal, vs, requestDigest, frameRef);
    TopInputs(digest, inputs, g);
    assert TopViews(vs)[0] in TopViews(vs);
  }

  /** Two highest-priority inputs have different decisions. */
  ghost predicate TopsDiffer(inputs: seq<Input>)
    requires inputs != []
  {
    exists a, b :: a in inputs && b in inputs && a.priority == b.priority == MaxPriority(Views(inputs))
                   && a.decision != b.decision
  }

  lemma AgreeingHoldTop(digest: DecisionDigest, inputs: seq<Input>, g: string)
    requires Injective(digest) && inputs != [] && HoldsTop(digest, inputs, g)
    ensures !TopsDiffer(inputs)
  {
    forall a, b | a in inputs && b in inputs && a.priority == b.priority == MaxPriority(Views(inputs))
      ensures a.decision == b.decision
    {
      assert digest(a.decision) == g && digest(b.decision) == g;
    }
  }

  lemma DifferingTops(digest: DecisionDigest, inputs: seq<Input>, g: string)
    requires inputs != [] && !HoldsTop(digest, inputs, g)
    requires exists item | item in inputs && item.priority == MaxPriority(Views(inputs)) :: digest(item.decision) == g
    ensures TopsDiffer(inputs)
  {
    var a :| a in inputs && a.priority == MaxPriority(Views(inputs)) && digest(a.decision) == g;
    var b :| b in inputs && b.priority == MaxPriority(Views(inputs)) && digest(b.decision) != g;
    assert a.decision != b.decision;
  }

  /**
   * A conflict is any difference between highest-priority decisions, so a
   * difference over allow is one, but two that both allow may conflict as well.
   */
  lemma ConflictExactly(
    digest: DecisionDigest, seal: Unsigned -> string, attested: Input -> bool,
    inputs: seq<Input>, requestDigest: string, frameRef: Option<string>)
    requires Injective(digest)
    requires PreflightSpec(digest, seal, attested, inputs, requestDigest, frameRef).Success?
    ensures PreflightSpec(digest, seal, attested, inputs, requestDigest, frameRef).value.body.status == Conflicted
            <==> TopsDiffer(inputs)
  {
    PriorityReached(inputs);
    var top :| top in inputs && top.priority == MaxPriority(Views(inputs));
    var g := digest(top.decision);
    ConflictedIsUnselected(digest, seal, attested, inputs, requestDigest, frameRef, g);
    if HoldsTop(digest, inputs, g) {
      AgreeingHoldTop(digest, inputs, g);
    } else {
      DifferingTops(digest, inputs, g);
    }
  }

  lemma ConflictedIsUnselected(
    digest: DecisionDigest, seal: Unsigned -> string, attested: Input -> bool,
    inputs: seq<Input>, requestDigest: string, frameRef: Option<string>, g: string)
    requires PreflightSpec(digest, seal, attested, inputs, requestDigest, frameRef).Success?
    requires exists item | item in inputs && item.priority == MaxPriority(Views(inputs)) :: digest(item.decision) == g
    ensures PreflightSpec(digest, seal, attested, inputs, requestDigest, frameRef).value.body.status == Conflicted
            <==> !HoldsTop(digest, inputs, g)
  {
    var vs := Views(inputs);
    ReferenceCases(digest, seal, vs, requestDigest, frameRef);
    SelectedExactly(digest, seal, attested, inputs, requestDigest, frameRef, g);
    var first := TopViews(vs)[0];
    assert first in TopViews(vs);
    if Agree(digest, TopViews(vs)) {
      TopInputs(digest, inputs, digest(first.decision));
    }
  }

  /** The ranking the class documentation describes: weight first, then priority. */
  predicate DocumentedBefore(a: seq<Input>, b: seq<Input>)
    requires a != [] && b != []
  {
    GroupWeight(a) > GroupWeight(b) || (GroupWeight(a) == GroupWeight(b) && GroupPriority(a) > GroupPriority(b))
  }

  /** The documentation would have this decision win: it has a group and no group comes before it. */
  ghost predicate DocumentedWinner(digest: DecisionDigest, inputs: seq<Input>, g: string) {
    && GroupOf(digest, inputs, g) != []
    && forall item | item in inputs ::
         var rival := GroupOf(digest, inputs, digest(item.decision));
         rival != [] && !DocumentedBefore(rival, GroupOf(digest, inputs, g))
  }

  /**
   * Exactly when the documentation is right about a preflight: one of its
   * winners is selected if and only if some winner of its holds every
   * highest-priority input. Then it is the only one.
   */
  lemma DocumentedWinnerSelected(
    digest: DecisionDigest, seal: Unsigned -> string, attested: Input -> bool,
    inputs: seq<Input>, requestDigest: string, frameRef: Option<string>, g: string)
    requires PreflightSpec(digest, seal, attested, inputs, requestDigest, frameRef).Success?
    requires DocumentedWinner(digest, inputs, g)
    ensures var selected := PreflightSpec(digest, seal, attested, inputs, requestDigest, frameRef).value.body.selectedDigest;
            && (selected == Some(g) <==> HoldsTop(digest, inputs, g))
            && (HoldsTop(digest, inputs, g) ==> forall h | DocumentedWinner(digest, inputs, h) :: h == g)
  {
    SelectedExactly(digest, seal, attested, inputs, requestDigest, frameRef, g);
    if HoldsTop(digest, inputs, g) {
      forall h | DocumentedWinner(digest, inputs, h) ensures h == g {
        OneDocumentedWinner(digest, inputs, g, h);
      }
    }
  }

  /** Groups as heavy as the one that holds every highest-priority input come after it. */
  lemma OneDocumentedWinner(digest: DecisionDigest, inputs: seq<Input>, g: string, h: string)
    requires inputs != [] && HoldsTop(digest, inputs, g)
    requires DocumentedWinner(digest, inputs, g) && DocumentedWinner(digest, inputs, h)
    ensures h == g
  {
    var a, b := GroupOf(digest, inputs, g), GroupOf(digest, inputs, h);
    assert a[0] in a && b[0] in b;
    assert a[0] in inputs && b[0] in inputs;
    assert !DocumentedBefore(a, b) && !DocumentedBefore(b, a);
    assert GroupPriority(a) == GroupPriority(b);
    PriorityReached(inputs);
    var top :| top in inputs && top.priority == MaxPriority(Views(inputs));
    assert top in a;
    PriorityReached(a);
    PriorityReached(b);
    var item :| item in b && item.priority == GroupPriority(b);
    assert item in inputs && item.priority >= top.priority;
  }

  /** The aggregation proper, once the inputs are known to be attested and from different sources. */
  method Aggregate(
    digest: DecisionDigest, seal: Unsigned -> string,
    inputs: seq<Input>, requestDigest: string, frameRef: Option<string>)
    returns (r: Result<PreflightDecision, MeshError>)
    requires Injective(digest) && inputs != [] && UniqueSources(Views(inputs))
    ensures r == Success(Reference(digest, seal, Views(inputs), requestDigest, frameRef))
  {
    var topPriority := MaxInputPriority(inputs);
    var tops := Sorting.Sort(ByInputSource, Filter((item: Input) => item.priority == topPriority, inputs));
    TopsViewed(inputs, topPriority);
    var conflicts := CollectConflicts(digest, tops, topPriority);
    var winner, group := RankWinner(digest, inputs);
    var inputDigests := DigestMap(digest, inputs);
    var unresolved := exists item | item in tops :: digest(item.decision) != digest(tops[0].decision);
    Unresolved(digest, tops);
    var body: Unsigned;
    if unresolved {
      ReferenceConflicted(digest, seal, Views(inputs), requestDigest, frameRef);
      body := Unsigned(
        requestDigest, false, Conflicted, None, [], inputDigests, conflicts, [CONFLICT_REASON], frameRef);
    } else {
      WinnerIsAgreed(digest, inputs, group, winner, tops);
      assert Views(tops)[0].decision == tops[0].decision;
      ReferenceSettled(digest, seal, Views(inputs), requestDigest, frameRef);
      var first := group[0];
      var selected := SortedSources(digest, inputs, group, winner);
      body := Unsigned(
        requestDigest, first.decision.allow, if first.decision.allow then Allow else Deny,
        Some(winner), selected, inputDigests, conflicts, first.decision.reasons, frameRef);
    }
    return Success(PreflightDecision(body, seal(body)));
  }

  lemma ReferenceCases(
    digest: DecisionDigest, seal: Unsigned -> string,
    vs: seq<View>, requestDigest: string, frameRef: Option<string>)
    requires vs != [] && UniqueSources(vs)
    ensures TopViews(vs) != []
    ensures var tops := TopViews(vs);
            var d := tops[0].decision;
            var conflicts := Conflicts(digest, tops, tops);
            var body :=
              if Agree(digest, tops) then
                Unsigned(requestDigest, d.allow, if d.allow then Allow else Deny, Some(digest(d)),
                         SourcesOf(digest, vs, digest(d)), InputDigests(digest, vs), conflicts, d.reasons, frameRef)
              else
                Unsigned(requestDigest, false, Conflicted, None, [],
                         InputDigests(digest, vs), conflicts, [CONFLICT_REASON], frameRef);
            Reference(digest, seal, vs, requestDigest, frameRef) == PreflightDecision(body, seal(body))
  {
    TopViewsExist(vs);
  }

  lemma ReferenceSettled(
    digest: DecisionDigest, seal: Unsigned -> string,
    vs: seq<View>, requestDigest: string, frameRef: Option<string>)
    requires vs != [] && UniqueSources(vs) && Agree(digest, TopViews(vs))
    ensures TopViews(vs) != []
    ensures var d := TopViews(vs)[0].decision;
            var body := Unsigned(
              requestDigest, d.allow, if d.allow then Allow else Deny, Some(digest(d)),
              SourcesOf(digest, vs, digest(d)), InputDigests(digest, vs),
              Conflicts(digest, TopViews(vs), TopViews(vs)), d.reasons, frameRef);
            Reference(digest, seal, vs, requestDigest, frameRef) == PreflightDecision(body, seal(body))
  {
    ReferenceCases(digest, seal, vs, requestDigest, frameRef);
  }

  lemma ReferenceConflicted(
    digest: DecisionDigest, seal: Unsigned -> string,
    vs: seq<View>, requestDigest: string, frameRef: Option<string>)
    requires vs != [] && UniqueSources(vs) && !Agree(digest, TopViews(vs))
    ensures var body := Unsigned(
              requestDigest, false, Conflicted, None, [], InputDigests(digest, vs),
              Conflicts(digest, TopViews(vs), TopViews(vs)), [CONFLICT_REASON], frameRef);
            Reference(digest, seal, vs, requestDigest, frameRef) == PreflightDecision(body, seal(body))
  {
    ReferenceCases(digest, seal, vs, requestDigest, frameRef);
  }

  /** `GovernanceMesh.preflight`: conflicts, grouping and ranking, which refine the simple rule. */
  method Preflight(
    digest: DecisionDigest, seal: Unsigned -> string, attested: Input -> bool,
    inputs: seq<Input>, requestDigest: string, frameRef: Option<string>)
    returns (r: Result<PreflightDecision, MeshError>)
    requires Injective(digest)
    ensures r == PreflightSpec(digest, seal, attested, inputs, requestDigest, frameRef)
  {
    if requestDigest == "" {
      return Failure(EmptyRequestDigest);
    }
    if inputs == [] {
      return Failure(NoInputs);
    }
    var ok := AllAttested(attested, inputs);
    if !ok {
      return Failure(BadAttestation);
    }
    var unique := SourcesUnique(inputs);
    if !unique {
      return Failure(DuplicateSources);
    }
    r := Aggregate(digest, seal, inputs, requestDigest, frameRef);
  }

  lemma TopsViewed(inputs: seq<Input>, top: int)
    requires inputs != [] && top == MaxPriority(Views(inputs))
    ensures var tops := Sorting.Sort(ByInputSource, Filter((item: Input) => item.priority == top, inputs));
            && Views(tops) == TopViews(Views(inputs)) && tops != []
            && forall item :: item in tops <==> item in inputs && item.priority == top
  {
    var keepInput := (item: Input) => item.priority == top;
    var kept := Filter(keepInput, inputs);
    FilterViews(keepInput, (v: View) => v.priority == top, inputs);
    SortViews(kept);
    Sorting.SortPermutes(ByInputSource, kept);
    TopViewsExist(Views(inputs));
  }

  lemma Unresolved(digest: DecisionDigest, tops: seq<Input>)
    requires tops != []
    ensures (exists item | item in tops :: digest(item.decision) != digest(tops[0].decision))
            <==> !Agree(digest, Views(tops))
  {
    var vs := Views(tops);
    assert forall i | 0 <= i < |tops| :: vs[i] in vs && vs[i].decision == tops[i].decision;
    if !Agree(digest, vs) {
      var v, w :| v in vs && w in vs && digest(v.decision) != digest(w.decision);
      var i :| 0 <= i < |vs| && vs[i] == v;
      var j :| 0 <= j < |vs| && vs[j] == w;
      assert tops[i] in tops && tops[j] in tops;
    }
  }

  lemma WinnerIsAgreed(
    digest: DecisionDigest, inputs: seq<Input>, group: seq<Input>, winner: string, tops: seq<Input>)
    requires Injective(digest) && tops != [] && inputs != []
    requires group == GroupOf(digest, inputs, winner) && group != []
    requires forall item :: item in tops <==> item in inputs && item.priority == MaxPriority(Views(inputs))
    requires forall item | item in tops :: digest(item.decision) == digest(tops[0].decision)
    requires exists item | item in group :: item in inputs && item.priority == MaxPriority(Views(inputs))
    ensures winner == digest(tops[0].decision)
    ensures group[0].decision == tops[0].decision
  {
    var item :| item in group && item in inputs && item.priority == MaxPriority(Views(inputs));
    assert item in tops;
    assert group[0] in group;
  }

  function SourceList(items: seq<Input>): seq<string> {
    seq(|items|, k requires 0 <= k < |items| => items[k].sourceId)
  }

  lemma SortedGroupSources(digest: DecisionDigest, inputs: seq<Input>, d: string)
    ensures SourceList(Sorting.Sort(ByInputSource, GroupOf(digest, inputs, d))) == SourcesOf(digest, Views(inputs), d)
  {
    var sorted := Sorting.Sort(ByInputSource, GroupOf(digest, inputs, d));
    SortViews(GroupOf(digest, inputs, d));
    FilterViews((item: Input) => digest(item.decision) == d, (v: View) => digest(v.decision) == d, inputs);
    assert forall k | 0 <= k < |sorted| :: Views(sorted)[k].sourceId == sorted[k].sourceId;
  }

  method SortedSources(digest: DecisionDigest, inputs: seq<Input>, group: seq<Input>, d: string)
    returns (ids: seq<string>)
    requires group == GroupOf(digest, inputs, d)
    ensures ids == SourcesOf(digest, Views(inputs), d)
  {
    var sorted := Sorting.Sort(ByInputSource, group);
    ids := ListSources(sorted);
    SortedGroupSources(digest, inputs, d);
  }

  method ListSources(items: seq<Input>) returns (ids: seq<string>)
    ensures ids == SourceList(items)
  {
    ids := [];
    for i := 0 to |items|
      invariant |ids| == i && forall k | 0 <= k < i :: ids[k] == items[k].sourceId
    {
      ids := ids + [items[i].sourceId];
    }
  }

  method DigestMap(digest: DecisionDigest, inputs: seq<Input>) returns (digests: map<string, string>)
    requires UniqueSources(Views(inputs))
    ensures digests == InputDigests(digest, Views(inputs))
  {
    digests := map[];
    var vs := Views(inputs);
    for i := 0 to |inputs|
      invariant forall k | 0 <= k < i :: vs[k].sourceId in digests && digests[vs[k].sourceId] == digest(vs[k].decision)
      invariant forall id | id in digests :: exists k | 0 <= k < i :: vs[k].sourceId == id
    {
      assert vs[i] == ViewOf(inputs[i]);
      digests := digests[inputs[i].sourceId := digest(inputs[i].decision)];
    }
  }
}
