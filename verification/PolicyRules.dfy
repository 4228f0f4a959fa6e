/** From authored rules to an evaluable policy: the loader (internal/policy/policy.go),
    publish-time validation (internal/policyctl/validate.go) and bundle compilation
    (internal/bundle/bundle.go). */
module PolicyRules {
  import opened Base
  import opened Verdict
  import opened Predicates
  import R = Reserver
  import E = Engine

  /** The union of every rule type's fields; absent means empty or None. */
  datatype Rule = Rule(
    id: string, kind: string, agents: seq<string>,
    max: string, currency: string, vendors: seq<string>,
    allowedActions: seq<string>, allowedTargets: seq<string>,
    startMinute: Option<int>, endMinute: Option<int>, weekdays: seq<int>,
    allowed: map<string, seq<string>>,
    window: string, limit: string, provider: string, threshold: Option<int>, failMode: string)

  const LOCAL_TYPES := {"per_transaction_limit", "vendor_allowlist", "vendor_blocklist",
                        "agent_permission", "time_window", "jurisdiction_currency"}
  const DROPPED_TYPES := {"sanctions_screen", "vendor_risk"}
  const BUDGET_TYPE := "rolling_budget"

  predicate NineTypes(rules: seq<Rule>) {
    forall r :: r in rules ==> r.kind in LOCAL_TYPES + DROPPED_TYPES + {BUDGET_TYPE}
  }

  /** The loader refuses JSON keys it does not know; these are emitted when non-empty. */
  predicate Decodes(r: Rule) {
    r.window == "" && r.limit == "" && r.provider == "" && r.threshold.None? && r.failMode == ""
  }

  predicate ValidMinute(m: Option<int>) { m.Some? && 0 <= m.value < 1440 }

  function Build(r: Rule): Option<Predicate> {
    if r.kind == "per_transaction_limit" then
      if r.max == "" then None else Some(PerTransactionLimit(r.id, r.agents, r.max, r.currency))
    else if r.kind == "vendor_allowlist" then
      if r.vendors == [] then None else Some(VendorAllowlist(r.id, r.agents, r.vendors))
    else if r.kind == "vendor_blocklist" then
      Some(VendorBlocklist(r.id, r.agents, r.vendors))
    else if r.kind == "agent_permission" then
      if r.allowedActions == [] && r.allowedTargets == [] then None
      else Some(AgentPermission(r.id, r.agents, r.allowedActions, r.allowedTargets))
    else if r.kind == "time_window" then
      if !ValidMinute(r.startMinute) || !ValidMinute(r.endMinute) || exists d :: d in r.weekdays && !(0 <= d <= 6) then None
      else Some(TimeWindow(r.id, r.agents, r.startMinute.value, r.endMinute.value, r.weekdays))
    else if r.kind == "jurisdiction_currency" then
      if r.allowed == map[] then None else Some(JurisdictionCurrency(r.id, r.agents, r.allowed))
    else None
  }

  predicate DistinctIds(rules: seq<Rule>) {
    forall i, j :: 0 <= i < j < |rules| ==> rules[i].id != rules[j].id
  }

  /** Exactly the rule lists the loader takes. */
  predicate Loadable(rules: seq<Rule>) {
    && (forall r :: r in rules ==> Decodes(r) && r.id != "" && Build(r).Some?)
    && DistinctIds(rules)
  }

  function BuildAll(rules: seq<Rule>): seq<Predicate>
    requires forall r :: r in rules ==> Build(r).Some?
  {
    seq(|rules|, i requires 0 <= i < |rules| => Build(rules[i]).value)
  }

  /** A policy's own hash when it carries no version: foreign code. */
  type ContentVersion = seq<Rule> -> string

  lemma LoadableSnoc(a: seq<Rule>, d: Rule)
    ensures Loadable(a + [d]) <==>
            Loadable(a) && Decodes(d) && d.id != "" && Build(d).Some? && forall r :: r in a ==> r.id != d.id
  {
    var b := a + [d];
    assert b[|a|] == d && forall r :: r in b <==> r in a || r == d;
    if DistinctIds(b) {
      forall r | r in a ensures r.id != d.id {
        var i :| 0 <= i < |a| && a[i] == r;
        assert b[i].id != b[|a|].id;
      }
      forall i, j | 0 <= i < j < |a| ensures a[i].id != a[j].id { assert b[i].id != b[j].id; }
    }
  }

  lemma LoadablePrefix(rules: seq<Rule>, n: nat)
    requires n <= |rules| && Loadable(rules)
    ensures Loadable(rules[..n])
  {
  }

  /** The loader: succeeds on exactly the loadable lists, predicate for rule. */
  method Parse(version: string, rules: seq<Rule>, hash: ContentVersion) returns (p: Option<E.Policy>)
    ensures p.Some? <==> Loadable(rules)
    ensures p.Some? ==> p.value == E.Policy(if version == "" then hash(rules) else version, BuildAll(rules), [])
  {
    if exists r :: r in rules && !Decodes(r) {
      return None;
    }
    var preds: seq<Predicate> := [];
    var seen: set<string> := {};
    for i := 0 to |rules|
      invariant Loadable(rules[..i]) && preds == BuildAll(rules[..i])
      invariant forall s :: s in seen <==> exists r :: r in rules[..i] && r.id == s
    {
      var d := rules[i];
      assert d in rules;
      assert rules[..i + 1] == rules[..i] + [d];
      LoadableSnoc(rules[..i], d);
      if Loadable(rules) { LoadablePrefix(rules, i + 1); }
      if d.id == "" || d.id in seen {
        return None;
      }
      var b := Build(d);
      if b.None? {
        return None;
      }
      BuildAllSnoc(rules[..i], d);
      seen := seen + {d.id};
      preds := preds + [b.value];
    }
    assert rules[..|rules|] == rules;
    p := Some(E.Policy(if version == "" then hash(rules) else version, preds, []));
  }

  function BudgetOf(r: Rule): R.Budget { R.Budget(r.id, r.agents, r.window, r.limit, r.currency) }

  /** The rules left for the loader: neither budgets nor enrichment placeholders. */
  function LocalPart(rules: seq<Rule>): seq<Rule> {
    if rules == [] then []
    else
      var r := rules[|rules| - 1];
      LocalPart(rules[..|rules| - 1]) + (if r.kind == BUDGET_TYPE || r.kind in DROPPED_TYPES then [] else [r])
  }

  function BudgetPart(rules: seq<Rule>): seq<R.Budget> {
    if rules == [] then []
    else
      var r := rules[|rules| - 1];
      BudgetPart(rules[..|rules| - 1]) + (if r.kind == BUDGET_TYPE then [BudgetOf(r)] else [])
  }

  method CompileRules(version: string, rules: seq<Rule>, hash: ContentVersion) returns (p: Option<E.Policy>)
    ensures p.Some? <==> Loadable(LocalPart(rules))
    ensures p.Some? ==>
              && p.value.version == (if version == "" then hash(LocalPart(rules)) else version)
              && p.value.predicates == BuildAll(LocalPart(rules)) && p.value.budgets == BudgetPart(rules)
  {
    var local: seq<Rule> := [];
    var budgets: seq<R.Budget> := [];
    for i := 0 to |rules|
      invariant local == LocalPart(rules[..i]) && budgets == BudgetPart(rules[..i])
    {
      assert rules[..i + 1][..i] == rules[..i];
      var r := rules[i];
      if r.kind == BUDGET_TYPE {
        budgets := budgets + [BudgetOf(r)];
      } else if r.kind !in DROPPED_TYPES {
        local := local + [r];
      }
    }
    assert rules[..|rules|] == rules;
    p := Parse(version, local, hash);
    if p.Some? {
      p := Some(p.value.(budgets := budgets));
    }
  }

  /** The rules validation hands to the loader: those of a known local type. */
  function ParityPart(rules: seq<Rule>): seq<Rule> {
    if rules == [] then []
    else
      var r := rules[|rules| - 1];
      ParityPart(rules[..|rules| - 1]) + (if r.kind in LOCAL_TYPES then [r] else [])
  }

  /** Non-empty ids occur once. */
  predicate NoDuplicates(rules: seq<Rule>) {
    forall i, j :: 0 <= i < j < |rules| && rules[i].id != "" ==> rules[i].id != rules[j].id
  }

  /** Counts the rules whose id an earlier rule already used. */
  method CountDuplicates(rules: seq<Rule>) returns (duplicates: nat)
    ensures duplicates == 0 <==> NoDuplicates(rules)
  {
    duplicates := 0;
    var seen: map<string, nat> := map[];
    for i := 0 to |rules|
      invariant forall s :: s in seen ==> seen[s] < i && rules[seen[s]].id == s != ""
      invariant forall j :: 0 <= j < i && rules[j].id != "" ==> rules[j].id in seen
      invariant duplicates == 0 <==> NoDuplicates(rules[..i])
    {
      assert rules[..i + 1] == rules[..i] + [rules[i]];
      var id := rules[i].id;
      if id == "" {
        continue;
      }
      if id in seen {
        duplicates := duplicates + 1;
        assert rules[..i + 1][seen[id]].id == rules[..i + 1][i].id;
        continue;
      }
      seen := seen[id := i];
    }
    assert rules[..|rules|] == rules;
  }

  /** Publish-time validation. schema is the number of problems the JSON Schema finds;
      the result is the number of problems in all, 0 meaning publishable. */
  method Validate(schema: nat, rules: seq<Rule>, hash: ContentVersion) returns (problems: nat)
    ensures problems == 0 <==> schema == 0 && NoDuplicates(rules) && Loadable(ParityPart(rules))
  {
    var duplicates := CountDuplicates(rules);
    problems := schema + duplicates;
    var local: seq<Rule> := [];
    for i := 0 to |rules|
      invariant local == ParityPart(rules[..i])
    {
      assert rules[..i + 1][..i] == rules[..i];
      if rules[i].kind in LOCAL_TYPES {
        local := local + [rules[i]];
      }
    }
    assert rules[..|rules|] == rules;
    if local != [] {
      var p := Parse("", local, hash);
      if p.None? {
        problems := problems + 1;
      }
    }
  }

  // ----- what the rules mean, read off the authored document -----

  function RuleOutcome(money: ParseMoney, r: Rule, x: Input): Outcome {
    if r.kind == "per_transaction_limit" then
      var limit := money(r.max);
      if limit.Some? && r.currency in {"", x.currency} && x.amount.Some? then
        if x.amount.value > limit.value then Denied else Satisfied
      else Flagged
    else if r.kind == "vendor_allowlist" then
      if x.targetType == "vendor" && x.targetId !in r.vendors then Denied else Satisfied
    else if r.kind == "vendor_blocklist" then
      if x.targetType == "vendor" && x.targetId in r.vendors then Denied else Satisfied
    else if r.kind == "agent_permission" then
      if (r.allowedActions != [] && x.action !in r.allowedActions)
         || (r.allowedTargets != [] && x.targetId !in r.allowedTargets) then Denied else Satisfied
    else if r.kind == "time_window" then
      if r.startMinute.None? || r.endMinute.None? then Denied
      else if r.weekdays != [] && Weekday(x.evaluatedAt) !in r.weekdays then Denied
      else Permit(WithinWindow(MinuteOfDay(x.evaluatedAt), r.startMinute.value, r.endMinute.value))
    else
      if x.jurisdiction != "" && x.jurisdiction in r.allowed && x.currency !in r.allowed[x.jurisdiction] then Denied
      else Satisfied
  }

  /** Every local rule in scope says its outcome, in authored order; budgets and
      enrichment placeholders say nothing here. */
  function Interpret(money: ParseMoney, rules: seq<Rule>, x: Input): seq<PredicateResult> {
    if rules == [] then []
    else
      var r := rules[|rules| - 1];
      Interpret(money, rules[..|rules| - 1], x)
      + (if r.kind in LOCAL_TYPES && InScope(r.agents, x.agentId) then [Local(r.id, RuleOutcome(money, r, x))] else [])
  }

  /** The first authored budget rule that governs the agent. */
  function FirstBudgetRule(rules: seq<Rule>, agent: string): Option<R.Budget> {
    if rules == [] then None
    else
      var earlier, r := FirstBudgetRule(rules[..|rules| - 1], agent), rules[|rules| - 1];
      if earlier.Some? then earlier
      else if r.kind == BUDGET_TYPE && InScope(r.agents, agent) then Some(BudgetOf(r)) else None
  }

  lemma {:induction false} SamePart(rules: seq<Rule>)
    requires NineTypes(rules)
    ensures ParityPart(rules) == LocalPart(rules)
    ensures forall r :: r in LocalPart(rules) ==> r in rules && r.kind in LOCAL_TYPES
  {
    if rules != [] {
      assert rules[|rules| - 1] in rules;
      SamePart(rules[..|rules| - 1]);
    }
  }

  /** A predicate built from a rule says exactly what the rule says. */
  lemma BuildMeans(money: ParseMoney, r: Rule, x: Input)
    requires r.kind in LOCAL_TYPES && Build(r).Some?
    ensures var p := Build(r).value;
            p.id == r.id && p.agents == r.agents && Evaluate(money, p, x) == RuleOutcome(money, r, x)
  {
  }

  lemma BuildAllSnoc(a: seq<Rule>, r: Rule)
    requires (forall x :: x in a ==> Build(x).Some?) && Build(r).Some?
    ensures (forall x :: x in a + [r] ==> Build(x).Some?) && BuildAll(a + [r]) == BuildAll(a) + [Build(r).value]
  {
  }

  /** What one more local rule adds to the compiled results. */
  lemma OneMoreResult(money: ParseMoney, local: seq<Rule>, r: Rule, x: Input)
    requires (forall y :: y in local ==> Build(y).Some?) && r.kind in LOCAL_TYPES && Build(r).Some?
    ensures (forall y :: y in local + [r] ==> Build(y).Some?)
    ensures Results(money, BuildAll(local + [r]), x) == Results(money, BuildAll(local), x)
            + if InScope(r.agents, x.agentId) then [Local(r.id, RuleOutcome(money, r, x))] else []
  {
    BuildMeans(money, r, x);
    BuildAllSnoc(local, r);
    ResultsConcat(money, BuildAll(local), [Build(r).value], x);
    OneResult(money, Build(r).value, x);
  }

  lemma OneResult(money: ParseMoney, p: Predicate, x: Input)
    ensures Results(money, [p], x) == if InScope(p.agents, x.agentId) then [Local(p.id, Evaluate(money, p, x))] else []
  {
    assert [p][1..] == [];
  }

  lemma LocalPartSnoc(init: seq<Rule>, r: Rule)
    ensures LocalPart(init + [r]) ==
            if r.kind == BUDGET_TYPE || r.kind in DROPPED_TYPES then LocalPart(init) else LocalPart(init) + [r]
  {
    assert (init + [r])[..|init|] == init;
  }

  /** One rule more, local or not, adds the same to both readings. */
  lemma CompiledStep(money: ParseMoney, init: seq<Rule>, r: Rule, x: Input)
    requires NineTypes([r]) && forall y :: y in LocalPart(init + [r]) ==> Build(y).Some?
    ensures forall y :: y in LocalPart(init) ==> Build(y).Some?
    ensures Results(money, BuildAll(LocalPart(init)), x) == Interpret(money, init, x) ==>
              Results(money, BuildAll(LocalPart(init + [r])), x) == Interpret(money, init + [r], x)
  {
    LocalPartSnoc(init, r);
    assert r in [r] && (init + [r])[..|init|] == init;
    if r.kind in LOCAL_TYPES {
      assert r in LocalPart(init + [r]);
      OneMoreResult(money, LocalPart(init), r, x);
    }
  }

  lemma {:induction false} CompiledResults(money: ParseMoney, rules: seq<Rule>, x: Input)
    requires NineTypes(rules) && forall r :: r in LocalPart(rules) ==> Build(r).Some?
    ensures Results(money, BuildAll(LocalPart(rules)), x) == Interpret(money, rules, x)
  {
    if rules != [] {
      var init, r := rules[..|rules| - 1], rules[|rules| - 1];
      assert rules == init + [r];
      NineTypesSplit(init, r);
      CompiledStep(money, init, r, x);
      CompiledResults(money, init, x);
    }
  }

  lemma NineTypesSplit(init: seq<Rule>, r: Rule)
    requires NineTypes(init + [r])
    ensures NineTypes(init) && NineTypes([r])
  {
    assert r in init + [r] && forall y :: y in init ==> y in init + [r];
  }

  lemma {:induction false} ApplicableConcat(a: seq<R.Budget>, b: seq<R.Budget>, agent: string)
    ensures E.ApplicableBudget(a + b, agent) ==
            if E.ApplicableBudget(a, agent).Some? then E.ApplicableBudget(a, agent) else E.ApplicableBudget(b, agent)
  {
    if a == [] {
      assert a + b == b;
    } else {
      assert (a + b)[1..] == a[1..] + b;
      ApplicableConcat(a[1..], b, agent);
    }
  }

  lemma {:induction false} CompiledBudget(rules: seq<Rule>, agent: string)
    ensures E.ApplicableBudget(BudgetPart(rules), agent) == FirstBudgetRule(rules, agent)
  {
    if rules != [] {
      var init, r := rules[..|rules| - 1], rules[|rules| - 1];
      CompiledBudget(init, agent);
      ApplicableConcat(BudgetPart(init), if r.kind == BUDGET_TYPE then [BudgetOf(r)] else [], agent);
    }
  }

  /** The fields of a budget rule, as the compiled policy carries them. */
  predicate Declares(r: Rule, b: R.Budget) {
    && r.kind == "rolling_budget"
    && b.id == r.id && b.agents == r.agents && b.window == r.window && b.limit == r.limit && b.currency == r.currency
  }

  /** The compiled budgets are the budget rules, field by field and in order. */
  lemma {:induction false} BudgetsDeclared(rules: seq<Rule>) returns (at: seq<nat>)
    ensures |at| == |BudgetPart(rules)|
    ensures forall k :: 0 <= k < |at| ==> at[k] < |rules| && Declares(rules[at[k]], BudgetPart(rules)[k])
    ensures forall j, k :: 0 <= j < k < |at| ==> at[j] < at[k]
    ensures forall i :: 0 <= i < |rules| && rules[i].kind == "rolling_budget" ==> i in at
  {
    if rules == [] {
      at := [];
    } else {
      var n := |rules| - 1;
      at := BudgetsDeclared(rules[..n]);
      forall i | 0 <= i < n && rules[i].kind == "rolling_budget" ensures i in at { assert rules[..n][i] == rules[i]; }
      if rules[n].kind == "rolling_budget" { at := at + [n]; }
    }
  }

  /** The nine rule types: six judged locally, two dropped, one a budget. */
  lemma NineTypesAre(r: Rule)
    ensures NineTypes([r]) <==>
            r.kind in {"per_transaction_limit", "vendor_allowlist", "vendor_blocklist", "agent_permission", "time_window",
                       "jurisdiction_currency", "sanctions_screen", "vendor_risk", "rolling_budget"}
    ensures NineTypes([r]) && !(r.kind in LOCAL_TYPES) <==> r.kind in {"sanctions_screen", "vendor_risk", "rolling_budget"}
    ensures BudgetPart([r]) != [] <==> r.kind == "rolling_budget"
  {
    assert r in [r] && [r][..0] == [];
  }

  /** Which rules the loader takes, one by one: a known local type with the fields that
      type needs, minutes and weekdays in range, an id, and nothing of the other types. */
  lemma LoadableOne(r: Rule)
    ensures Loadable([r]) <==>
            && r.id != "" && r.window == "" && r.limit == "" && r.provider == "" && r.threshold == None && r.failMode == ""
            && (|| (r.kind == "per_transaction_limit" && r.max != "")
                || (r.kind == "vendor_allowlist" && r.vendors != [])
                || r.kind == "vendor_blocklist"
                || (r.kind == "agent_permission" && (r.allowedActions != [] || r.allowedTargets != []))
                || (r.kind == "time_window"
                    && r.startMinute.Some? && 0 <= r.startMinute.value <= 1439
                    && r.endMinute.Some? && 0 <= r.endMinute.value <= 1439
                    && forall d :: d in r.weekdays ==> 0 <= d <= 6)
                || (r.kind == "jurisdiction_currency" && r.allowed != map[]))
  {
    assert r in [r];
  }

  /** Compilation preserves meaning: what validation accepts always compiles, and the
      compiled policy gives, for every request and instant, the outcomes of the authored
      rules in the authored order, and their first applicable budget. The schema is
      assumed to admit only the nine rule types. */
  lemma ValidatedCompilesFaithfully(money: ParseMoney, rules: seq<Rule>, x: Input)
    requires NineTypes(rules) && Loadable(ParityPart(rules))
    ensures Loadable(LocalPart(rules))
    ensures Results(money, BuildAll(LocalPart(rules)), x) == Interpret(money, rules, x)
    ensures E.ApplicableBudget(BudgetPart(rules), x.agentId) == FirstBudgetRule(rules, x.agentId)
  {
    SamePart(rules);
    CompiledResults(money, rules, x);
    CompiledBudget(rules, x.agentId);
  }

  /** Validate then CompileRules, as publishing and serving do. */
  method PublishAndCompile(money: ParseMoney, schema: nat, version: string, rules: seq<Rule>, hash: ContentVersion)
    returns (problems: nat, p: Option<E.Policy>)
    requires schema == 0 ==> NineTypes(rules)
    ensures problems == 0 ==> p.Some?
    ensures problems == 0 ==> forall x: Input ::
              && Results(money, p.value.predicates, x) == Interpret(money, rules, x)
              && E.ApplicableBudget(p.value.budgets, x.agentId) == FirstBudgetRule(rules, x.agentId)
  {
    problems := Validate(schema, rules, hash);
    p := CompileRules(version, rules, hash);
    if problems == 0 {
      SamePart(rules);
      forall x: Input
        ensures Results(money, p.value.predicates, x) == Interpret(money, rules, x)
        ensures E.ApplicableBudget(p.value.budgets, x.agentId) == FirstBudgetRule(rules, x.agentId)
      {
        ValidatedCompilesFaithfully(money, rules, x);
      }
    }
  }
}
