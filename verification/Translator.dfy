/** Compiling a list of structured governance rules into one policy. */
module Translator {
  import opened Wrappers
  import opened Values
  import opened Arbitration
  import Sorting
  import StringOrder

  datatype Rule = Rule(
    action: string,
    requiredFields: seq<string>,
    exactFields: Dict,
    requiredContext: seq<string>,
    exactContext: Dict,
    requiredApprovals: nat)

  datatype TranslateError = NoRules | InvalidPolicy

  const MAX_REQUEST_BYTES := 64 * 1024
  const MAX_TTL_SECONDS := 300

  /** `dict.fromkeys`: first occurrences, in order. */
  function Dedup(names: seq<string>): (r: seq<string>)
    ensures forall n :: n in r <==> n in names
    ensures forall i, j | 0 <= i < j < |r| :: r[i] != r[j]
  {
    if names == [] then []
    else
      var init, last := names[..|names| - 1], names[|names| - 1];
      assert names == init + [last];
      var rest := Dedup(init);
      if last in rest then rest else rest + [last]
  }

  function SortNames(names: seq<string>): (r: seq<string>)
    ensures forall n :: n in r <==> n in names
    ensures Sorting.SortedBy(StringOrder.Le, r)
    ensures |r| == |names|
  {
    StringOrder.IsTotalOrder();
    Sorting.SortPermutes(StringOrder.Le, names);
    Sorting.SortSorts(StringOrder.Le, names);
    Sorting.Sort(StringOrder.Le, names)
  }

  function Merge(current: Rule, rule: Rule): Rule {
    Rule(
      rule.action,
      Dedup(current.requiredFields + rule.requiredFields),
      current.exactFields + rule.exactFields,
      SortNames(Dedup(current.requiredContext + rule.requiredContext)),
      current.exactContext + rule.exactContext,
      if current.requiredApprovals >= rule.requiredApprovals
      then current.requiredApprovals else rule.requiredApprovals)
  }

  function Add(normalized: map<string, Rule>, rule: Rule): map<string, Rule> {
    normalized[rule.action := if rule.action in normalized then Merge(normalized[rule.action], rule) else rule]
  }

  /** One merged rule per action. */
  function Normalize(rules: seq<Rule>): map<string, Rule> {
    if rules == [] then map[] else Add(Normalize(rules[..|rules| - 1]), rules[|rules| - 1])
  }

  function ActionNames(rules: seq<Rule>): seq<string> {
    seq(|rules|, i requires 0 <= i < |rules| => rules[i].action)
  }

  /** Later actions overwrite the context values of earlier ones. */
  function MergedContext(normalized: map<string, Rule>, actions: seq<string>): Dict
    requires forall a | a in actions :: a in normalized
  {
    if actions == [] then map[]
    else
      MergedContext(normalized, actions[..|actions| - 1]) + normalized[actions[|actions| - 1]].exactContext
  }

  function ContextNames(normalized: map<string, Rule>, actions: seq<string>): seq<string>
    requires forall a | a in actions :: a in normalized
  {
    if actions == [] then []
    else
      ContextNames(normalized, actions[..|actions| - 1]) + normalized[actions[|actions| - 1]].requiredContext
  }

  function Build(policyId: string, normalized: map<string, Rule>, actions: seq<string>): Policy
    requires forall a :: a in actions <==> a in normalized
  {
    Policy(
      policyId,
      actions,
      map a | a in normalized :: normalized[a].requiredFields,
      map a | a in normalized :: normalized[a].exactFields,
      SortNames(Dedup(ContextNames(normalized, actions))),
      MergedContext(normalized, actions),
      MAX_REQUEST_BYTES,
      MAX_TTL_SECONDS,
      map a | a in normalized && normalized[a].requiredApprovals > 0 :: normalized[a].requiredApprovals as int,
      map[], map[], map[], [], [])
  }

  /** What the policy's own constructor insists on, for the fields a translation fills. */
  predicate PolicyAccepted(p: Policy) {
    && p.policyId != ""
    && "" !in p.allowedActions
    && "" !in p.requiredContext
    && forall a | a in p.requiredFields :: a != "" && "" !in p.requiredFields[a]
  }

  ghost function Translation(policyId: string, rules: seq<Rule>): Result<Policy, TranslateError> {
    NormalizeKeys(rules);
    if rules == [] then Failure(NoRules)
    else
      var policy := Build(policyId, Normalize(rules), SortNames(Dedup(ActionNames(rules))));
      if PolicyAccepted(policy) then Success(policy) else Failure(InvalidPolicy)
  }

  // ----- what merging keeps -----

  ghost predicate Names(rules: seq<Rule>, action: string) {
    exists i | 0 <= i < |rules| :: rules[i].action == action
  }

  lemma {:induction false} NormalizeKeys(rules: seq<Rule>)
    ensures forall a :: a in Normalize(rules) <==> a in ActionNames(rules)
    ensures forall a :: a in Normalize(rules) <==> Names(rules, a)
  {
    if rules != [] {
      var init, last := rules[..|rules| - 1], rules[|rules| - 1];
      NormalizeKeys(init);
      assert rules == init + [last];
      assert ActionNames(rules) == ActionNames(init) + [last.action];
    }
    forall a ensures a in ActionNames(rules) <==> Names(rules, a) {
      if Names(rules, a) {
        var i :| 0 <= i < |rules| && rules[i].action == a;
        assert ActionNames(rules)[i] == a;
      }
      if a in ActionNames(rules) {
        var i :| 0 <= i < |rules| && ActionNames(rules)[i] == a;
        assert rules[i].action == a;
      }
    }
  }

  /** The merged rule of an action requires exactly what some rule for the action requires. */
  ghost predicate MergedFrom(merged: Rule, rules: seq<Rule>, action: string) {
    && (forall f | f in merged.requiredFields :: exists i | 0 <= i < |rules| ::
          rules[i].action == action && f in rules[i].requiredFields)
    && (forall c | c in merged.requiredContext :: exists i | 0 <= i < |rules| ::
          rules[i].action == action && c in rules[i].requiredContext)
    && (forall k | k in merged.exactFields :: exists i | 0 <= i < |rules| ::
          rules[i].action == action && k in rules[i].exactFields && rules[i].exactFields[k] == merged.exactFields[k])
    && (forall k | k in merged.exactContext :: exists i | 0 <= i < |rules| ::
          rules[i].action == action && k in rules[i].exactContext && rules[i].exactContext[k] == merged.exactContext[k])
    && (exists i | 0 <= i < |rules| ::
          rules[i].action == action && rules[i].requiredApprovals == merged.requiredApprovals)
  }

  ghost predicate Covers(merged: Rule, rule: Rule) {
    && (forall f | f in rule.requiredFields :: f in merged.requiredFields)
    && (forall c | c in rule.requiredContext :: c in merged.requiredContext)
    && rule.exactFields.Keys <= merged.exactFields.Keys
    && rule.exactContext.Keys <= merged.exactContext.Keys
    && rule.requiredApprovals <= merged.requiredApprovals
  }

  lemma MergeCovers(current: Rule, rule: Rule)
    ensures Covers(Merge(current, rule), current) && Covers(Merge(current, rule), rule)
  {}

  lemma {:induction false} NormalizeCovers(rules: seq<Rule>, i: nat)
    requires i < |rules|
    ensures rules[i].action in Normalize(rules) && Covers(Normalize(rules)[rules[i].action], rules[i])
  {
    var n := |rules| - 1;
    var init, last := rules[..n], rules[n];
    NormalizeKeys(init);
    if rules[i].action == last.action && last.action in Normalize(init) {
      MergeCovers(Normalize(init)[last.action], last);
    }
    if i < n {
      assert init[i] == rules[i];
      NormalizeCovers(init, i);
    }
  }

  lemma MergedFromMore(merged: Rule, rules: seq<Rule>, rule: Rule, action: string)
    requires MergedFrom(merged, rules, action)
    ensures MergedFrom(merged, rules + [rule], action)
  {
    var longer := rules + [rule];
    assert forall i | 0 <= i < |rules| :: longer[i] == rules[i];
  }

  lemma MergedFromOne(rules: seq<Rule>, rule: Rule)
    ensures MergedFrom(rule, rules + [rule], rule.action)
  {
    assert (rules + [rule])[|rules|] == rule;
  }

  lemma MergedFromBoth(current: Rule, rule: Rule, rules: seq<Rule>)
    requires MergedFrom(current, rules, rule.action) && MergedFrom(rule, rules, rule.action)
    ensures MergedFrom(Merge(current, rule), rules, rule.action)
  {}

  lemma {:induction false} NormalizeMerges(rules: seq<Rule>, action: string)
    requires action in Normalize(rules)
    ensures MergedFrom(Normalize(rules)[action], rules, action)
  {
    var n := |rules| - 1;
    var init, last := rules[..n], rules[n];
    assert rules == init + [last];
    if action in Normalize(init) {
      NormalizeMerges(init, action);
      MergedFromMore(Normalize(init)[action], init, last, action);
    }
    if action == last.action {
      MergedFromOne(init, last);
      if action in Normalize(init) {
        MergedFromBoth(Normalize(init)[action], last, rules);
      }
    }
  }

  ghost predicate SomeRuleSets(rules: seq<Rule>, k: string, v: Value) {
    exists i | 0 <= i < |rules| :: k in rules[i].exactContext && rules[i].exactContext[k] == v
  }

  ghost predicate SomeRuleNeeds(rules: seq<Rule>, c: string) {
    exists i | 0 <= i < |rules| :: c in rules[i].requiredContext
  }

  ghost predicate ContextTraced(rules: seq<Rule>, context: Dict) {
    forall k | k in context :: SomeRuleSets(rules, k, context[k])
  }

  lemma UpdateTraced(rules: seq<Rule>, a: Dict, b: Dict)
    requires ContextTraced(rules, a) && ContextTraced(rules, b)
    ensures ContextTraced(rules, a + b)
  {
    forall k | k in a + b ensures SomeRuleSets(rules, k, (a + b)[k]) {
      assert k in b || (k in a && (a + b)[k] == a[k]);
    }
  }

  lemma MergedContextTraces(rules: seq<Rule>, action: string)
    requires action in Normalize(rules)
    ensures var merged := Normalize(rules)[action];
            && ContextTraced(rules, merged.exactContext)
            && (forall c | c in merged.requiredContext :: SomeRuleNeeds(rules, c))
  {
    NormalizeMerges(rules, action);
  }

  /** Context constraints of all actions together, each traceable to one rule. */
  lemma {:induction false} ContextTraces(rules: seq<Rule>, actions: seq<string>)
    requires forall a | a in actions :: a in Normalize(rules)
    ensures ContextTraced(rules, MergedContext(Normalize(rules), actions))
    ensures forall c | c in ContextNames(Normalize(rules), actions) :: SomeRuleNeeds(rules, c)
  {
    if actions != [] {
      var init, last := actions[..|actions| - 1], actions[|actions| - 1];
      ContextTraces(rules, init);
      MergedContextTraces(rules, last);
      UpdateTraced(rules, MergedContext(Normalize(rules), init), Normalize(rules)[last].exactContext);
    }
  }

  lemma {:induction false} ContextCovers(normalized: map<string, Rule>, actions: seq<string>, a: string)
    requires (forall b | b in actions :: b in normalized) && a in actions
    ensures normalized[a].exactContext.Keys <= MergedContext(normalized, actions).Keys
    ensures forall c | c in normalized[a].requiredContext :: c in ContextNames(normalized, actions)
  {
    var n := |actions| - 1;
    assert actions == actions[..n] + [actions[n]];
    if a != actions[n] {
      ContextCovers(normalized, actions[..n], a);
    }
  }

  // ----- the meaning of a rule list -----

  ghost predicate FieldsMet(rule: Rule, request: Dict) {
    && (forall f | f in rule.requiredFields :: f in request)
    && (forall k | k in rule.exactFields :: PyEq(Lookup(request, k), rule.exactFields[k]))
  }

  ghost predicate ContextMet(rule: Rule, context: Dict) {
    && (forall c | c in rule.requiredContext :: c in context)
    && (forall k | k in rule.exactContext :: PyEq(Lookup(context, k), rule.exactContext[k]))
  }

  ghost predicate ApprovalsMet(
    prims: Primitives, keys: map<string, PublicKey>, rule: Rule, request: Dict)
  {
    rule.requiredApprovals > 0 ==>
      ApprovalCount(prims, keys, request, ContextFields(request)) >= rule.requiredApprovals
  }

  /** The rules read as a conjunction: the intent a translation has to preserve. */
  ghost predicate RulesAllow(prims: Primitives, keys: map<string, PublicKey>, rules: seq<Rule>, request: Dict) {
    var action := Lookup(request, "action");
    && prims.requestSize(request) <= MAX_REQUEST_BYTES
    && ContextOf(request).Object?
    && action.Text? && Names(rules, action.s)
    && (forall i | 0 <= i < |rules| && rules[i].action == action.s ::
          FieldsMet(rules[i], request) && ApprovalsMet(prims, keys, rules[i], request))
    && (forall i | 0 <= i < |rules| :: ContextMet(rules[i], ContextFields(request)))
  }

  /** No two rules ask different values of one field of the action, or of one context entry. */
  ghost predicate NoClash(rules: seq<Rule>, action: string) {
    && (forall i, j, k | 0 <= i < j < |rules| && rules[i].action == rules[j].action == action
          && k in rules[i].exactFields && k in rules[j].exactFields ::
          PyEq(rules[i].exactFields[k], rules[j].exactFields[k]))
    && (forall i, j, k | 0 <= i < j < |rules| && k in rules[i].exactContext && k in rules[j].exactContext ::
          PyEq(rules[i].exactContext[k], rules[j].exactContext[k]))
  }

  /** The policy's own checks, read back without reasons. */
  ghost predicate PolicyMet(
    prims: Primitives, keys: map<string, PublicKey>, normalized: map<string, Rule>, policy: Policy, request: Dict)
  {
    var action := Lookup(request, "action");
    && prims.requestSize(request) <= MAX_REQUEST_BYTES
    && ContextOf(request).Object?
    && action.Text? && action.s in normalized
    && FieldsMet(normalized[action.s], request)
    && ApprovalsMet(prims, keys, normalized[action.s], request)
    && (forall c | c in policy.requiredContext :: c in ContextFields(request))
    && (forall k | k in policy.exactContext :: PyEq(Lookup(ContextFields(request), k), policy.exactContext[k]))
  }

  lemma AllowsMeaning(
    prims: Primitives, keys: map<string, PublicKey>, normalized: map<string, Rule>, actions: seq<string>,
    policyId: string, request: Dict)
    requires forall a :: a in actions <==> a in normalized
    ensures var policy := Build(policyId, normalized, actions);
            Allows(prims, keys, request, policy) <==> PolicyMet(prims, keys, normalized, policy, request)
  {
    var policy := Build(policyId, normalized, actions);
    var action := Lookup(request, "action");
    AllowedMeaning(prims, keys, request, policy);
    if action.Text? && action.s in normalized {
      BuiltFields(request, policy, normalized[action.s], action.s);
      QuorumMeaning(prims, keys, normalized[action.s], policy, request);
    }
  }

  lemma BuiltFields(request: Dict, policy: Policy, rule: Rule, action: string)
    requires Lookup(request, "action") == Text(action)
    requires action in policy.requiredFields && policy.requiredFields[action] == rule.requiredFields
    requires action in policy.exactFields && policy.exactFields[action] == rule.exactFields
    requires policy.maxNumericFields == map[]
    ensures FieldsSatisfied(request, policy) <==> FieldsMet(rule, request)
  {}

  lemma QuorumMeaning(
    prims: Primitives, keys: map<string, PublicKey>, rule: Rule, policy: Policy, request: Dict)
    requires Lookup(request, "action").Text?
    requires Quorum(request, policy) == (if rule.requiredApprovals > 0 then rule.requiredApprovals as int else 0)
    ensures QuorumMet(prims, keys, request, policy) <==> ApprovalsMet(prims, keys, rule, request)
  {}

  // ----- the theorem -----

  lemma ConjunctionMeetsPolicy(
    prims: Primitives, keys: map<string, PublicKey>, rules: seq<Rule>, policyId: string, request: Dict)
    requires RulesAllow(prims, keys, rules, request)
    ensures Translation(policyId, rules).Success? ==>
              Allows(prims, keys, request, Translation(policyId, rules).value)
    ensures NoClash(rules, Lookup(request, "action").s)
  {
    var normalized, actions := Normalize(rules), SortNames(Dedup(ActionNames(rules)));
    NormalizeKeys(rules);
    ConjunctionMeetsMerged(prims, keys, rules, request);
    ConjunctionMeetsContext(prims, keys, rules, actions, request);
    AllowsMeaning(prims, keys, normalized, actions, policyId, request);
    ConjunctionMeansNoClash(prims, keys, rules, request);
  }

  lemma ConjunctionMeetsMerged(prims: Primitives, keys: map<string, PublicKey>, rules: seq<Rule>, request: Dict)
    requires RulesAllow(prims, keys, rules, request)
    ensures var action := Lookup(request, "action").s;
            && action in Normalize(rules)
            && FieldsMet(Normalize(rules)[action], request)
            && ApprovalsMet(prims, keys, Normalize(rules)[action], request)
  {
    var action := Lookup(request, "action").s;
    NormalizeKeys(rules);
    NormalizeMerges(rules, action);
  }

  lemma ConjunctionMeetsContext(
    prims: Primitives, keys: map<string, PublicKey>, rules: seq<Rule>, actions: seq<string>, request: Dict)
    requires RulesAllow(prims, keys, rules, request)
    requires forall a | a in actions :: a in Normalize(rules)
    ensures forall c | c in ContextNames(Normalize(rules), actions) :: c in ContextFields(request)
    ensures forall k | k in MergedContext(Normalize(rules), actions) ::
              PyEq(Lookup(ContextFields(request), k), MergedContext(Normalize(rules), actions)[k])
  {
    ContextTraces(rules, actions);
    var merged := MergedContext(Normalize(rules), actions);
    forall k | k in merged ensures PyEq(Lookup(ContextFields(request), k), merged[k]) {
      assert SomeRuleSets(rules, k, merged[k]);
    }
    forall c | c in ContextNames(Normalize(rules), actions) ensures c in ContextFields(request) {
      assert SomeRuleNeeds(rules, c);
    }
  }

  lemma ConjunctionMeansNoClash(prims: Primitives, keys: map<string, PublicKey>, rules: seq<Rule>, request: Dict)
    requires RulesAllow(prims, keys, rules, request)
    ensures NoClash(rules, Lookup(request, "action").s)
  {
    var action := Lookup(request, "action").s;
    forall i, j, k | 0 <= i < j < |rules| && rules[i].action == rules[j].action == action
      && k in rules[i].exactFields && k in rules[j].exactFields
      ensures PyEq(rules[i].exactFields[k], rules[j].exactFields[k])
    {
      assert FieldsMet(rules[i], request) && FieldsMet(rules[j], request);
      PyEqSymmetric(Lookup(request, k), rules[i].exactFields[k]);
      PyEqTransitive(rules[i].exactFields[k], Lookup(request, k), rules[j].exactFields[k]);
    }
    var context := ContextFields(request);
    forall i, j, k | 0 <= i < j < |rules| && k in rules[i].exactContext && k in rules[j].exactContext
      ensures PyEq(rules[i].exactContext[k], rules[j].exactContext[k])
    {
      assert ContextMet(rules[i], context) && ContextMet(rules[j], context);
      PyEqSymmetric(Lookup(context, k), rules[i].exactContext[k]);
      PyEqTransitive(rules[i].exactContext[k], Lookup(context, k), rules[j].exactContext[k]);
    }
  }

  /** A value that meets one of two agreeing constraints meets the other. */
  lemma AgreeingValues(v: Value, a: Value, b: Value)
    requires PyEq(v, a) && (a == b || PyEq(a, b) || PyEq(b, a))
    ensures PyEq(v, b)
  {
    if PyEq(b, a) {
      PyEqSymmetric(b, a);
    }
    if PyEq(a, b) {
      PyEqTransitive(v, a, b);
    }
  }

  lemma PolicyMeetsFields(rules: seq<Rule>, request: Dict, action: string, i: nat)
    requires i < |rules| && rules[i].action == action && NoClash(rules, action)
    requires action in Normalize(rules) && FieldsMet(Normalize(rules)[action], request)
    ensures FieldsMet(rules[i], request)
  {
    var merged := Normalize(rules)[action];
    NormalizeCovers(rules, i);
    NormalizeMerges(rules, action);
    forall k | k in rules[i].exactFields ensures PyEq(Lookup(request, k), rules[i].exactFields[k]) {
      var j :| 0 <= j < |rules| && rules[j].action == action && k in rules[j].exactFields
               && rules[j].exactFields[k] == merged.exactFields[k];
      AgreeingValues(Lookup(request, k), merged.exactFields[k], rules[i].exactFields[k]);
    }
  }

  lemma PolicyMeetsContext(rules: seq<Rule>, actions: seq<string>, context: Dict, action: string, i: nat)
    requires i < |rules| && NoClash(rules, action)
    requires forall a :: a in actions <==> a in Normalize(rules)
    requires forall c | c in ContextNames(Normalize(rules), actions) :: c in context
    requires forall k | k in MergedContext(Normalize(rules), actions) ::
               PyEq(Lookup(context, k), MergedContext(Normalize(rules), actions)[k])
    ensures ContextMet(rules[i], context)
  {
    var merged := MergedContext(Normalize(rules), actions);
    NormalizeCovers(rules, i);
    ContextCovers(Normalize(rules), actions, rules[i].action);
    ContextTraces(rules, actions);
    forall k | k in rules[i].exactContext ensures PyEq(Lookup(context, k), rules[i].exactContext[k]) {
      assert SomeRuleSets(rules, k, merged[k]);
      var j :| 0 <= j < |rules| && k in rules[j].exactContext && rules[j].exactContext[k] == merged[k];
      AgreeingValues(Lookup(context, k), merged[k], rules[i].exactContext[k]);
    }
  }

  lemma PolicyMeetsConjunction(
    prims: Primitives, keys: map<string, PublicKey>, rules: seq<Rule>, policyId: string, request: Dict)
    requires Translation(policyId, rules).Success?
    requires Allows(prims, keys, request, Translation(policyId, rules).value)
    requires Lookup(request, "action").Text? ==> NoClash(rules, Lookup(request, "action").s)
    ensures RulesAllow(prims, keys, rules, request)
  {
    var normalized, actions := Normalize(rules), SortNames(Dedup(ActionNames(rules)));
    NormalizeKeys(rules);
    AllowsMeaning(prims, keys, normalized, actions, policyId, request);
    PolicyMeetsRules(prims, keys, rules, actions, policyId, request);
  }

  lemma PolicyMeetsRules(
    prims: Primitives, keys: map<string, PublicKey>, rules: seq<Rule>, actions: seq<string>, policyId: string,
    request: Dict)
    requires forall a :: a in actions <==> a in Normalize(rules)
    requires PolicyMet(prims, keys, Normalize(rules), Build(policyId, Normalize(rules), actions), request)
    requires NoClash(rules, Lookup(request, "action").s)
    ensures RulesAllow(prims, keys, rules, request)
  {
    NormalizeKeys(rules);
    var action := Lookup(request, "action").s;
    forall i | 0 <= i < |rules| && rules[i].action == action
      ensures FieldsMet(rules[i], request) && ApprovalsMet(prims, keys, rules[i], request)
    {
      NormalizeCovers(rules, i);
      PolicyMeetsFields(rules, request, action, i);
    }
    forall i | 0 <= i < |rules| ensures ContextMet(rules[i], ContextFields(request)) {
      PolicyMeetsContext(rules, actions, ContextFields(request), action, i);
    }
  }

  /**
   * Translation preserves meaning, exactly: a request meets every rule just when
   * the translated policy allows it and the rules do not clash over its action.
   */
  lemma TranslationMeaning(
    prims: Primitives, keys: map<string, PublicKey>, rules: seq<Rule>, policyId: string, request: Dict)
    requires Translation(policyId, rules).Success?
    ensures RulesAllow(prims, keys, rules, request) <==>
            && Allows(prims, keys, request, Translation(policyId, rules).value)
            && (Lookup(request, "action").Text? ==> NoClash(rules, Lookup(request, "action").s))
  {
    if RulesAllow(prims, keys, rules, request) {
      ConjunctionMeetsPolicy(prims, keys, rules, policyId, request);
    } else if Allows(prims, keys, request, Translation(policyId, rules).value)
      && (Lookup(request, "action").Text? ==> NoClash(rules, Lookup(request, "action").s))
    {
      PolicyMeetsConjunction(prims, keys, rules, policyId, request);
    }
  }

  lemma MeaningForgetsOrder(
    prims: Primitives, keys: map<string, PublicKey>, rules: seq<Rule>, other: seq<Rule>, request: Dict)
    requires multiset(rules) == multiset(other)
    requires RulesAllow(prims, keys, rules, request)
    ensures RulesAllow(prims, keys, other, request)
  {
    var action := Lookup(request, "action").s;
    var n :| 0 <= n < |rules| && rules[n].action == action;
    assert rules[n] in multiset(other);
    var m :| 0 <= m < |other| && other[m] == rules[n];
    forall i | 0 <= i < |other| ensures exists k :: 0 <= k < |rules| && rules[k] == other[i] {
      assert other[i] in multiset(rules);
    }
    forall i | 0 <= i < |other| && other[i].action == action
      ensures FieldsMet(other[i], request) && ApprovalsMet(prims, keys, other[i], request)
    {
      var k :| 0 <= k < |rules| && rules[k] == other[i];
    }
    forall i | 0 <= i < |other| ensures ContextMet(other[i], ContextFields(request)) {
      var k :| 0 <= k < |rules| && rules[k] == other[i];
    }
  }

  lemma ClashForgetsOrder(rules: seq<Rule>, other: seq<Rule>, action: string)
    requires multiset(rules) == multiset(other) && NoClash(rules, action)
    ensures NoClash(other, action)
  {
    forall i, j | 0 <= i < j < |other|
      ensures exists p, q :: 0 <= p < |rules| && 0 <= q < |rules| && p != q
                && rules[p] == other[i] && rules[q] == other[j]
    {
      Sorting.TwoPlaces(other, rules, i, j);
    }
    forall i, j, k | 0 <= i < j < |other| && other[i].action == other[j].action == action
      && k in other[i].exactFields && k in other[j].exactFields
      ensures PyEq(other[i].exactFields[k], other[j].exactFields[k])
    {
      var p, q :| 0 <= p < |rules| && 0 <= q < |rules| && p != q && rules[p] == other[i] && rules[q] == other[j];
      if q < p {
        PyEqSymmetric(rules[q].exactFields[k], rules[p].exactFields[k]);
      }
    }
    forall i, j, k | 0 <= i < j < |other| && k in other[i].exactContext && k in other[j].exactContext
      ensures PyEq(other[i].exactContext[k], other[j].exactContext[k])
    {
      var p, q :| 0 <= p < |rules| && 0 <= q < |rules| && p != q && rules[p] == other[i] && rules[q] == other[j];
      if q < p {
        PyEqSymmetric(rules[q].exactContext[k], rules[p].exactContext[k]);
      }
    }
  }

  lemma SuccessForgetsOrder(rules: seq<Rule>, other: seq<Rule>, policyId: string)
    requires multiset(rules) == multiset(other) && Translation(policyId, rules).Success?
    ensures Translation(policyId, other).Success?
  {
    TranslationSucceeds(policyId, rules);
    TranslationSucceeds(policyId, other);
    forall i | 0 <= i < |other| ensures RuleNamed(other[i]) {
      assert other[i] in multiset(rules);
    }
    assert |multiset(rules)| == |rules| && |multiset(other)| == |other|;
  }

  /** Without clashes the order the rules are listed in does not change what is allowed. */
  lemma OrderIrrelevant(
    prims: Primitives, keys: map<string, PublicKey>, rules: seq<Rule>, other: seq<Rule>, policyId: string, request: Dict)
    requires multiset(rules) == multiset(other)
    requires Translation(policyId, rules).Success?
    requires Lookup(request, "action").Text? ==> NoClash(rules, Lookup(request, "action").s)
    ensures Translation(policyId, other).Success?
    ensures Allows(prims, keys, request, Translation(policyId, rules).value)
            == Allows(prims, keys, request, Translation(policyId, other).value)
  {
    SuccessForgetsOrder(rules, other, policyId);
    TranslationMeaning(prims, keys, rules, policyId, request);
    TranslationMeaning(prims, keys, other, policyId, request);
    if Lookup(request, "action").Text? {
      ClashForgetsOrder(rules, other, Lookup(request, "action").s);
    }
    if RulesAllow(prims, keys, rules, request) {
      MeaningForgetsOrder(prims, keys, rules, other, request);
    }
    if RulesAllow(prims, keys, other, request) {
      MeaningForgetsOrder(prims, keys, other, rules, request);
    }
  }

  lemma NormalizePair(first: Rule, second: Rule)
    requires first.action == second.action
    ensures Normalize([first, second]) == map[first.action := Merge(first, second)]
  {
    assert [first, second][..1] == [first] && [first][..0] == [];
    assert Normalize([first]) == Add(Normalize([]), first);
    assert Normalize([first, second]) == Add(Normalize([first]), second);
  }

  lemma OneAction(rules: seq<Rule>, action: string)
    requires rules != [] && forall r | r in rules :: r.action == action
    ensures SortNames(Dedup(ActionNames(rules))) == [action]
  {
    var names := ActionNames(rules);
    assert names[0] == action && forall n | n in names :: n == action;
    var d := Dedup(names);
    assert action in d;
    forall i | 0 <= i < |d| ensures d[i] == action {
      assert d[i] in d;
      assert d[i] in names;
    }
    var second := if |d| > 1 then d[1] else action;
    assert d[0] == second;
    assert |d| == 1;
    assert SortNames(d)[0] in SortNames(d);
  }

  /** Two rules that disagree on a field: the later wins, and a request breaking the first is allowed. */
  lemma ClashIsOverwritten(
    prims: Primitives, keys: map<string, PublicKey>, first: Rule, second: Rule, request: Dict,
    action: string, field: string, v: Value, w: Value)
    requires action != "" && field != "action" && field != "context"
    requires !PyEq(w, v) && PyEq(w, w)
    requires first == Rule(action, [], map[field := v], [], map[], 0)
    requires second == Rule(action, [], map[field := w], [], map[], 0)
    requires request == map["action" := Text(action), field := w]
    requires prims.requestSize(request) <= MAX_REQUEST_BYTES
    ensures Translation("p", [first, second]).Success?
    ensures Allows(prims, keys, request, Translation("p", [first, second]).value)
    ensures !RulesAllow(prims, keys, [first, second], request)
  {
    var rules := [first, second];
    PairBuilds(first, second, action);
    PairAllows(prims, keys, first, second, request, action, field, v, w);
    FirstRuleBroken(prims, keys, rules, request, field);
  }

  lemma PairBuilds(first: Rule, second: Rule, action: string)
    requires action != "" && first.action == action && second.action == action
    requires first.requiredFields == [] && second.requiredFields == []
    requires first.requiredContext == [] && second.requiredContext == []
    ensures Translation("p", [first, second]) == Success(Build("p", map[action := Merge(first, second)], [action]))
  {
    var rules := [first, second];
    assert forall r | r in rules :: r == first || r == second;
    NormalizePair(first, second);
    OneAction(rules, action);
    PairTranslates(rules, action);
  }

  lemma PairTranslates(rules: seq<Rule>, action: string)
    requires rules != [] && action != ""
    requires forall r | r in rules :: r.action == action && r.requiredFields == [] && r.requiredContext == []
    requires Normalize(rules).Keys == {action} && SortNames(Dedup(ActionNames(rules))) == [action]
    ensures Translation("p", rules) == Success(Build("p", Normalize(rules), [action]))
  {
    TranslationSucceeds("p", rules);
  }

  lemma FirstRuleBroken(
    prims: Primitives, keys: map<string, PublicKey>, rules: seq<Rule>, request: Dict, field: string)
    requires rules != [] && Lookup(request, "action") == Text(rules[0].action)
    requires field in rules[0].exactFields && !PyEq(Lookup(request, field), rules[0].exactFields[field])
    ensures !RulesAllow(prims, keys, rules, request)
  {
    assert !FieldsMet(rules[0], request);
  }

  lemma PairMet(
    prims: Primitives, keys: map<string, PublicKey>, first: Rule, second: Rule, request: Dict,
    action: string, field: string, v: Value, w: Value)
    requires field != "action" && field != "context" && PyEq(w, w)
    requires first == Rule(action, [], map[field := v], [], map[], 0)
    requires second == Rule(action, [], map[field := w], [], map[], 0)
    requires request == map["action" := Text(action), field := w]
    requires prims.requestSize(request) <= MAX_REQUEST_BYTES
    ensures var normalized := map[action := Merge(first, second)];
            PolicyMet(prims, keys, normalized, Build("p", normalized, [action]), request)
  {
    var merged := Merge(first, second);
    assert merged.exactFields == map[field := w] && merged.exactContext == map[] && merged.requiredContext == [];
    var normalized := map[action := merged];
    assert [action][..0] == [];
    assert MergedContext(normalized, [action]) == map[];
    assert ContextNames(normalized, [action]) == [];
  }

  /** The rule's own names are all non-empty. */
  predicate RuleNamed(rule: Rule) {
    rule.action != "" && "" !in rule.requiredFields && "" !in rule.requiredContext
  }

  lemma BuiltAccepted(policyId: string, normalized: map<string, Rule>, actions: seq<string>)
    requires forall a :: a in actions <==> a in normalized
    ensures PolicyAccepted(Build(policyId, normalized, actions)) <==>
            && policyId != "" && "" !in actions && "" !in ContextNames(normalized, actions)
            && forall a | a in normalized :: "" !in normalized[a].requiredFields
  {
    var policy := Build(policyId, normalized, actions);
    assert "" in policy.requiredContext <==> "" in ContextNames(normalized, actions);
    assert policy.requiredFields.Keys == normalized.Keys;
    assert forall a | a in normalized :: policy.requiredFields[a] == normalized[a].requiredFields;
  }

  /** An empty name in a rule shows up in what the rules merge to. */
  lemma UnnamedShows(rules: seq<Rule>, actions: seq<string>, i: nat)
    requires i < |rules| && !RuleNamed(rules[i])
    requires forall a :: a in actions <==> a in Normalize(rules)
    ensures
      || "" in actions || "" in ContextNames(Normalize(rules), actions)
      || exists a | a in Normalize(rules) :: "" in Normalize(rules)[a].requiredFields
  {
    NormalizeKeys(rules);
    NormalizeCovers(rules, i);
    ContextCovers(Normalize(rules), actions, rules[i].action);
  }

  /** With every name set, nothing empty is merged. */
  lemma NamedStaysNamed(rules: seq<Rule>, actions: seq<string>)
    requires forall i | 0 <= i < |rules| :: RuleNamed(rules[i])
    requires forall a :: a in actions <==> a in Normalize(rules)
    ensures "" !in actions && "" !in ContextNames(Normalize(rules), actions)
    ensures forall a | a in Normalize(rules) :: "" !in Normalize(rules)[a].requiredFields
  {
    NormalizeKeys(rules);
    ContextTraces(rules, actions);
    forall a | a in Normalize(rules) ensures "" !in Normalize(rules)[a].requiredFields {
      NormalizeMerges(rules, a);
    }
  }

  lemma PairAllows(
    prims: Primitives, keys: map<string, PublicKey>, first: Rule, second: Rule, request: Dict,
    action: string, field: string, v: Value, w: Value)
    requires field != "action" && field != "context" && PyEq(w, w)
    requires first == Rule(action, [], map[field := v], [], map[], 0)
    requires second == Rule(action, [], map[field := w], [], map[], 0)
    requires request == map["action" := Text(action), field := w]
    requires prims.requestSize(request) <= MAX_REQUEST_BYTES
    ensures Allows(prims, keys, request, Build("p", map[action := Merge(first, second)], [action]))
  {
    PairMet(prims, keys, first, second, request, action, field, v, w);
    AllowsMeaning(prims, keys, map[action := Merge(first, second)], [action], "p", request);
  }

  /** Exactly which rule lists are refused. */
  lemma TranslationSucceeds(policyId: string, rules: seq<Rule>)
    ensures Translation(policyId, rules).Success? <==>
            rules != [] && policyId != "" && forall i | 0 <= i < |rules| :: RuleNamed(rules[i])
    ensures Translation(policyId, rules) == Failure(NoRules) <==> rules == []
  {
    if rules != [] {
      var normalized, actions := Normalize(rules), SortNames(Dedup(ActionNames(rules)));
      NormalizeKeys(rules);
      BuiltAccepted(policyId, normalized, actions);
      if forall i | 0 <= i < |rules| :: RuleNamed(rules[i]) {
        NamedStaysNamed(rules, actions);
      } else {
        var i :| 0 <= i < |rules| && !RuleNamed(rules[i]);
        UnnamedShows(rules, actions, i);
      }
    }
  }

  // ----- the translator's loops -----

  method Assemble(policyId: string, normalized: map<string, Rule>, actions: seq<string>) returns (policy: Policy)
    requires forall a :: a in actions <==> a in normalized
    ensures policy == Build(policyId, normalized, actions)
  {
    var contextNames: seq<string> := [];
    var exactContext: Dict := map[];
    var requiredFields, exactFields, requiredApprovals := map[], map[], map[];
    for i := 0 to |actions|
      invariant contextNames == ContextNames(normalized, actions[..i])
      invariant exactContext == MergedContext(normalized, actions[..i])
      invariant requiredFields == FieldsOf(normalized, actions[..i])
      invariant exactFields == ExactOf(normalized, actions[..i])
      invariant requiredApprovals == ApprovalsOf(normalized, actions[..i])
    {
      AssemblyStep(normalized, actions, i);
      var rule := normalized[actions[i]];
      requiredFields := requiredFields[actions[i] := rule.requiredFields];
      exactFields := exactFields[actions[i] := rule.exactFields];
      contextNames := contextNames + rule.requiredContext;
      exactContext := exactContext + rule.exactContext;
      requiredApprovals := if rule.requiredApprovals > 0
      then requiredApprovals[actions[i] := rule.requiredApprovals as int] else requiredApprovals;
    }
    assert actions[..|actions|] == actions;
    AssemblyDone(normalized, actions);
    policy := Policy(
      policyId, actions, requiredFields, exactFields, SortNames(Dedup(contextNames)), exactContext,
      MAX_REQUEST_BYTES, MAX_TTL_SECONDS, requiredApprovals, map[], map[], map[], [], []);
  }

  function FieldsOf(normalized: map<string, Rule>, actions: seq<string>): map<string, seq<string>> {
    map a | a in actions && a in normalized :: normalized[a].requiredFields
  }

  function ExactOf(normalized: map<string, Rule>, actions: seq<string>): map<string, Dict> {
    map a | a in actions && a in normalized :: normalized[a].exactFields
  }

  function ApprovalsOf(normalized: map<string, Rule>, actions: seq<string>): map<string, int> {
    map a | a in actions && a in normalized && normalized[a].requiredApprovals > 0
      :: normalized[a].requiredApprovals as int
  }

  lemma AssemblyStep(normalized: map<string, Rule>, actions: seq<string>, i: nat)
    requires i < |actions| && forall a | a in actions :: a in normalized
    ensures var a, shorter, longer := actions[i], actions[..i], actions[..i + 1];
            var rule := normalized[a];
            && FieldsOf(normalized, longer) == FieldsOf(normalized, shorter)[a := rule.requiredFields]
            && ExactOf(normalized, longer) == ExactOf(normalized, shorter)[a := rule.exactFields]
            && ApprovalsOf(normalized, longer) ==
                 (if rule.requiredApprovals > 0
                  then ApprovalsOf(normalized, shorter)[a := rule.requiredApprovals as int]
                  else ApprovalsOf(normalized, shorter))
            && longer[..|longer| - 1] == shorter && longer[|longer| - 1] == a
  {
    assert actions[..i + 1] == actions[..i] + [actions[i]];
  }

  lemma AssemblyDone(normalized: map<string, Rule>, actions: seq<string>)
    requires forall a :: a in actions <==> a in normalized
    ensures FieldsOf(normalized, actions) == (map a | a in normalized :: normalized[a].requiredFields)
    ensures ExactOf(normalized, actions) == (map a | a in normalized :: normalized[a].exactFields)
    ensures ApprovalsOf(normalized, actions) ==
      (map a | a in normalized && normalized[a].requiredApprovals > 0 :: normalized[a].requiredApprovals as int)
  {}

  method Translate(policyId: string, rules: seq<Rule>) returns (r: Result<Policy, TranslateError>)
    ensures r == Translation(policyId, rules)
  {
    var normalized: map<string, Rule> := map[];
    for i := 0 to |rules|
      invariant normalized == Normalize(rules[..i])
    {
      assert rules[..i + 1][..i] == rules[..i];
      var rule := rules[i];
      if rule.action !in normalized {
        normalized := normalized[rule.action := rule];
      } else {
        normalized := normalized[rule.action := Merge(normalized[rule.action], rule)];
      }
    }
    assert rules[..|rules|] == rules;
    if normalized == map[] {
      NormalizeKeys(rules);
      assert rules != [] ==> Names(rules, rules[0].action);
      return Failure(NoRules);
    }
    NormalizeKeys(rules);
    var actions := SortNames(Dedup(ActionNames(rules)));
    var policy := Assemble(policyId, normalized, actions);
    if !PolicyAccepted(policy) {
      return Failure(InvalidPolicy);
    }
    return Success(policy);
  }
}
