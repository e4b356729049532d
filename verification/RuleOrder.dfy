/** Reordering rules and first-match evaluation
    (internal/db/db.go: ReorderRules, ListActiveRules; internal/engine/engine.go:
    EvaluateAllWithOptions). */
module RuleOrder {

  import opened Common
  import opened RuleEngine

  type RuleId = int

  datatype Rule = Rule(tenant: int, priority: int, active: bool, approved: bool)

  type Table = map<RuleId, Rule>

  predicate Owned(rules: Table, tenant: int, id: RuleId) {
    id in rules && rules[id].tenant == tenant
  }

  /** The i-th listed rule (from 1) gets priority 10 * i; a later mention overrides. */
  function WithPriorities(rules: Table, ruleIds: seq<RuleId>): Table {
    if ruleIds == [] then rules
    else
      var n := |ruleIds|;
      var before := WithPriorities(rules, ruleIds[..n - 1]);
      var id := ruleIds[n - 1];
      if id in before then before[id := before[id].(priority := n * 10)] else before
  }

  class RuleTable {
    var rules: Table

    constructor (rules: Table)
      ensures this.rules == rules
    {
      this.rules := rules;
    }

    /** One transaction: naming a rule the tenant lacks changes no priority at all. */
    method ReorderRules(tenant: int, ruleIds: seq<RuleId>) returns (ok: bool)
      modifies this
      ensures ok <==> forall i | 0 <= i < |ruleIds| ::
                ruleIds[i] in old(rules) && old(rules)[ruleIds[i]].tenant == tenant
      ensures rules == if ok then WithPriorities(old(rules), ruleIds) else old(rules)
    {
      var tx := rules;
      for i := 0 to |ruleIds|
        invariant rules == old(rules) && tx == WithPriorities(rules, ruleIds[..i])
        invariant forall j | 0 <= j < i :: Owned(rules, tenant, ruleIds[j])
      {
        OnlyPrioritiesChange(rules, ruleIds[..i]);
        var id := ruleIds[i];
        var priority := (i + 1) * 10;
        if !(id in tx && tx[id].tenant == tenant) {
          assert !Owned(rules, tenant, ruleIds[i]);
          return false;
        }
        assert ruleIds[..i + 1][..i] == ruleIds[..i];
        tx := tx[id := tx[id].(priority := priority)];
      }
      assert ruleIds[..|ruleIds|] == ruleIds;
      rules := tx;
      ok := true;
    }
  }

  /** Reordering adds and removes no rule and touches nothing but priorities of listed rules. */
  lemma {:induction false} OnlyPrioritiesChange(rules: Table, ruleIds: seq<RuleId>)
    ensures var after := WithPriorities(rules, ruleIds);
            && after.Keys == rules.Keys
            && (forall id | id in rules :: after[id] == rules[id].(priority := after[id].priority))
            && (forall id | id in rules && id !in ruleIds :: after[id] == rules[id])
    decreases |ruleIds|
  {
    if ruleIds != [] {
      OnlyPrioritiesChange(rules, ruleIds[..|ruleIds| - 1]);
    }
  }

  /** With each rule named once, positions become priorities. */
  lemma {:induction false} PositionsBecomePriorities(rules: Table, ruleIds: seq<RuleId>, i: nat)
    requires i < |ruleIds| && ruleIds[i] in rules
    requires forall j | 0 <= j < |ruleIds| && j != i :: ruleIds[j] != ruleIds[i]
    ensures ruleIds[i] in WithPriorities(rules, ruleIds)
    ensures WithPriorities(rules, ruleIds)[ruleIds[i]].priority == (i + 1) * 10
    decreases |ruleIds|
  {
    var before := ruleIds[..|ruleIds| - 1];
    OnlyPrioritiesChange(rules, before);
    if i < |before| {
      assert before[i] == ruleIds[i];
      PositionsBecomePriorities(rules, before, i);
    }
  }

  // ---------------------------------------------------------------- listing and evaluation

  predicate Listable(rules: Table, tenant: int, id: RuleId) {
    Owned(rules, tenant, id) && rules[id].active && rules[id].approved
  }

  predicate Earlier(rules: Table, a: RuleId, b: RuleId)
    requires a in rules && b in rules
  {
    rules[a].priority < rules[b].priority || (rules[a].priority == rules[b].priority && a < b)
  }

  /** ListActiveRules: the tenant's active, approved rules, by priority and then id. */
  ghost predicate ActiveList(rules: Table, tenant: int, list: seq<RuleId>) {
    && (forall i | 0 <= i < |list| :: Listable(rules, tenant, list[i]))
    && (forall id | Listable(rules, tenant, id) :: id in list)
    && (forall i, j | 0 <= i < j < |list| :: Earlier(rules, list[i], list[j]))
  }

  /** A rule matches when it runs without error to something other than skip. */
  predicate Matches(eval: RuleId -> Option<Result>, id: RuleId) {
    eval(id).Some? && eval(id).value.action != "skip"
  }

  function FirstMatch(list: seq<RuleId>, eval: RuleId -> Option<Result>): Option<RuleId> {
    if list == [] then None
    else if Matches(eval, list[0]) then Some(list[0])
    else FirstMatch(list[1..], eval)
  }

  /** The first matching rule decides; a failing rule is passed over like a skipping one. */
  method EvaluateAll(list: seq<RuleId>, eval: RuleId -> Option<Result>)
    returns (result: Result, matched: Option<RuleId>)
    ensures matched == FirstMatch(list, eval)
    ensures matched.None? ==> result.action == "skip"
    ensures matched.Some? ==> eval(matched.value) == Some(result)
  {
    for i := 0 to |list|
      invariant FirstMatch(list, eval) == FirstMatch(list[i..], eval)
    {
      assert list[i..][1..] == list[i + 1..];
      var r := eval(list[i]);
      if r.None? {
        continue;
      }
      if r.value.action != "skip" {
        return r.value, Some(list[i]);
      }
    }
    result, matched := Result("skip", "", 0, ""), None;
  }

  /** The user's order names every rule of the tenant, once. */
  ghost predicate CompleteOrder(rules: Table, tenant: int, order: seq<RuleId>) {
    && (forall i | 0 <= i < |order| :: Owned(rules, tenant, order[i]))
    && (forall id | Owned(rules, tenant, id) :: id in order)
    && (forall i, j | 0 <= i < j < |order| :: order[i] != order[j])
  }

  lemma {:induction false} FirstMatchIsFirst(list: seq<RuleId>, eval: RuleId -> Option<Result>)
    ensures match FirstMatch(list, eval)
            case None => forall i | 0 <= i < |list| :: !Matches(eval, list[i])
            case Some(id) =>
              Matches(eval, id) &&
              exists k | 0 <= k < |list| :: list[k] == id && forall i | 0 <= i < k :: !Matches(eval, list[i])
    decreases |list|
  {
    if list != [] {
      FirstMatchIsFirst(list[1..], eval);
      if !Matches(eval, list[0]) {
        forall i | 0 < i < |list|
          ensures list[i] == list[1..][i - 1]
        {
        }
        if FirstMatch(list, eval).Some? {
          var k :| 0 <= k < |list[1..]| && list[1..][k] == FirstMatch(list, eval).value &&
                   forall i | 0 <= i < k :: !Matches(eval, list[1..][i]);
          assert list[k + 1] == FirstMatch(list, eval).value;
          forall i | 0 <= i < k + 1
            ensures !Matches(eval, list[i])
          {
            assert i > 0 ==> list[i] == list[1..][i - 1];
          }
        }
      }
    }
  }

  /** What stands earlier in the user's order is listed earlier. */
  lemma ListedEarlier(rules: Table, tenant: int, order: seq<RuleId>, list: seq<RuleId>, j: nat, k: nat, p: nat)
    returns (q: nat)
    requires CompleteOrder(rules, tenant, order)
    requires ActiveList(WithPriorities(rules, order), tenant, list)
    requires j < k < |order| && p < |list| && list[p] == order[k] && Listable(rules, tenant, order[j])
    ensures q < p && list[q] == order[j]
  {
    OnlyPrioritiesChange(rules, order);
    var after := WithPriorities(rules, order);
    assert Listable(after, tenant, order[j]);
    q :| 0 <= q < |list| && list[q] == order[j];
    assert Owned(rules, tenant, order[j]) && Owned(rules, tenant, order[k]);
    PositionsBecomePriorities(rules, order, j);
    PositionsBecomePriorities(rules, order, k);
    assert p <= q ==> p == q || Earlier(after, list[p], list[q]);
  }

  /** Reordering hides no rule: the active, approved ones are listed. */
  lemma AllAreListed(rules: Table, tenant: int, order: seq<RuleId>, list: seq<RuleId>, id: RuleId)
    requires ActiveList(WithPriorities(rules, order), tenant, list)
    requires id in rules && rules[id].tenant == tenant && rules[id].active && rules[id].approved
    ensures exists i | 0 <= i < |list| :: list[i] == id
  {
    OnlyPrioritiesChange(rules, order);
    assert Listable(WithPriorities(rules, order), tenant, id);
  }

  /** After a reorder that names each of the tenant's rules once, listing by priority and id
      and evaluating picks the earliest rule of the user's order that is active, approved
      and neither fails nor skips, and picks none only when there is none. */
  lemma UserOrderDecides(rules: Table, tenant: int, order: seq<RuleId>, list: seq<RuleId>,
                         eval: RuleId -> Option<Result>)
    requires CompleteOrder(rules, tenant, order)
    requires ActiveList(WithPriorities(rules, order), tenant, list)
    ensures match FirstMatch(list, eval)
            case None =>
              forall id | id in rules && rules[id].tenant == tenant && rules[id].active && rules[id].approved ::
                eval(id).None? || eval(id).value.action == "skip"
            case Some(id) =>
              && id in rules && rules[id].tenant == tenant && rules[id].active && rules[id].approved
              && eval(id).Some? && eval(id).value.action != "skip"
              && exists k | 0 <= k < |order| :: order[k] == id &&
                   forall j | 0 <= j < k && order[j] in rules && rules[order[j]].active && rules[order[j]].approved ::
                     eval(order[j]).None? || eval(order[j]).value.action == "skip"
  {
    var after := WithPriorities(rules, order);
    OnlyPrioritiesChange(rules, order);
    FirstMatchIsFirst(list, eval);
    match FirstMatch(list, eval)
    case None =>
      forall id | id in rules && rules[id].tenant == tenant && rules[id].active && rules[id].approved
        ensures !Matches(eval, id)
      {
        AllAreListed(rules, tenant, order, list, id);
      }
    case Some(id) =>
      var p :| 0 <= p < |list| && list[p] == id && forall i | 0 <= i < p :: !Matches(eval, list[i]);
      assert Listable(after, tenant, id);
      assert Owned(rules, tenant, id);
      var k :| 0 <= k < |order| && order[k] == id;
      forall j | 0 <= j < k && Listable(rules, tenant, order[j])
        ensures !Matches(eval, order[j])
      {
        var q := ListedEarlier(rules, tenant, order, list, j, k, p);
      }
      assert forall j | 0 <= j < k :: Owned(rules, tenant, order[j]);
      assert order[k] == id;
  }
}
