/** The six local predicates and their evaluation (internal/engine/predicates.go,
    internal/engine/predicate.go, evalLocal in internal/engine/engine.go). */
module Predicates {
  import opened Base
  import opened Verdict

  /** amount is the exact rational of amountRaw, None when it does not parse;
      evaluatedAt is in seconds since the Unix epoch, UTC. */
  datatype Input = Input(
    agentId: string, action: string, amountRaw: string, amount: Option<real>, currency: string,
    targetType: string, targetId: string, jurisdiction: string, evaluatedAt: int)

  datatype Predicate =
    | PerTransactionLimit(id: string, agents: seq<string>, maxRaw: string, currency: string)
    | VendorAllowlist(id: string, agents: seq<string>, vendors: seq<string>)
    | VendorBlocklist(id: string, agents: seq<string>, vendors: seq<string>)
    | AgentPermission(id: string, agents: seq<string>, allowedActions: seq<string>, allowedTargets: seq<string>)
    | TimeWindow(id: string, agents: seq<string>, startMinute: int, endMinute: int, weekdays: seq<int>)
    | JurisdictionCurrency(id: string, agents: seq<string>, allowed: map<string, seq<string>>)

  /** big.Rat parsing of a money string is foreign code: any partial function will do. */
  type ParseMoney = string -> Option<real>

  /** An empty agent scope means every agent. */
  predicate InScope(agents: seq<string>, agent: string) { agents == [] || agent in agents }

  function MinuteOfDay(t: int): int { t % 86400 / 60 }

  /** Sunday is 0; the Unix epoch was a Thursday. */
  function Weekday(t: int): int { (t / 86400 + 4) % 7 }

  /** No agents means every agent. */
  lemma ScopeMeans(agents: seq<string>, agent: string)
    ensures InScope([], agent)
    ensures InScope(agents, agent) <==> |agents| == 0 || exists i :: 0 <= i < |agents| && agents[i] == agent
  {
  }

  /** The m-th minute of the d-th day since the epoch, a Thursday. */
  lemma ClockReads(d: int, m: int, s: int)
    requires 0 <= m < 1440 && 0 <= s < 60
    ensures var t := (d * 1440 + m) * 60 + s;
            MinuteOfDay(t) == m && Weekday(t) == (d + 4) % 7 && Weekday(0) == 4
  {
    var t := (d * 1440 + m) * 60 + s;
    var inDay := m * 60 + s;
    assert t == d * 86400 + inDay && 0 <= inDay < 86400;
    assert t / 86400 == d && t % 86400 == inDay;
    assert inDay / 60 == m;
  }

  predicate WithinWindow(minute: int, start: int, end: int) {
    if start == end then true
    else if start < end then start <= minute < end
    else minute >= start || minute < end
  }

  /** Swapping the ends of a window gives its complement, whether or not it wraps. */
  lemma WindowComplement(minute: int, start: int, end: int)
    requires start != end
    ensures WithinWindow(minute, start, end) <==> !WithinWindow(minute, end, start)
  {
  }

  /** A window runs from its start, included, to its end, excluded, past midnight if need
      be, and all day when the two coincide. */
  lemma WithinWindowIff(minute: int, start: int, end: int)
    requires 0 <= minute < 1440 && 0 <= start < 1440 && 0 <= end < 1440
    ensures WithinWindow(minute, start, end) <==>
            (minute - start) % 1440 < if start == end then 1440 else (end - start) % 1440
  {
  }

  function Permit(ok: bool): Outcome { if ok then Satisfied else Denied }

  function Evaluate(money: ParseMoney, p: Predicate, x: Input): Outcome {
    match p
    case PerTransactionLimit(_, _, maxRaw, currency) =>
      if money(maxRaw).None? || (currency != "" && currency != x.currency) || x.amount.None? then Flagged
      else Permit(x.amount.value <= money(maxRaw).value)
    case VendorAllowlist(_, _, vendors) => Permit(x.targetType == "vendor" ==> x.targetId in vendors)
    case VendorBlocklist(_, _, vendors) => Permit(x.targetType == "vendor" ==> x.targetId !in vendors)
    case AgentPermission(_, _, actions, targets) =>
      Permit((actions == [] || x.action in actions) && (targets == [] || x.targetId in targets))
    case TimeWindow(_, _, start, end, weekdays) =>
      Permit((weekdays == [] || Weekday(x.evaluatedAt) in weekdays)
             && WithinWindow(MinuteOfDay(x.evaluatedAt), start, end))
    case JurisdictionCurrency(_, _, allowed) =>
      if x.jurisdiction == "" || x.jurisdiction !in allowed then Satisfied
      else Permit(x.currency in allowed[x.jurisdiction])
  }

  /** One matched rule of the explanation: the rule and what it said. */
  datatype MatchedRule = MatchedRule(ruleId: string, result: Outcome)

  function Local(id: string, o: Outcome): PredicateResult { PredicateResult(id, false, o, Unspecified) }

  /** Results of the in-scope predicates, in policy order. */
  function Results(money: ParseMoney, ps: seq<Predicate>, x: Input): seq<PredicateResult> {
    if ps == [] then []
    else
      (if InScope(ps[0].agents, x.agentId) then [Local(ps[0].id, Evaluate(money, ps[0], x))] else [])
      + Results(money, ps[1..], x)
  }

  function Matched(rs: seq<PredicateResult>): seq<MatchedRule> {
    seq(|rs|, i requires 0 <= i < |rs| => MatchedRule(rs[i].ruleId, rs[i].outcome))
  }

  lemma {:induction false} ResultsConcat(money: ParseMoney, a: seq<Predicate>, b: seq<Predicate>, x: Input)
    ensures Results(money, a + b, x) == Results(money, a, x) + Results(money, b, x)
  {
    if a == [] {
      assert a + b == b;
    } else {
      assert (a + b)[1..] == a[1..] + b;
      ResultsConcat(money, a[1..], b, x);
    }
  }

  method EvalLocal(money: ParseMoney, ps: seq<Predicate>, x: Input)
    returns (results: seq<PredicateResult>, matched: seq<MatchedRule>)
    ensures results == Results(money, ps, x)
    ensures matched == Matched(results)
  {
    results, matched := [], [];
    for i := 0 to |ps|
      invariant results == Results(money, ps[..i], x)
      invariant matched == Matched(results)
    {
      assert ps[..i + 1] == ps[..i] + [ps[i]];
      ResultsConcat(money, ps[..i], [ps[i]], x);
      if !InScope(ps[i].agents, x.agentId) {
        continue;
      }
      var o := Evaluate(money, ps[i], x);
      results := results + [Local(ps[i].id, o)];
      matched := matched + [MatchedRule(ps[i].id, o)];
    }
    assert ps[..|ps|] == ps;
  }

  /** A rule scoped to other agents has no effect on results or verdict, wherever in the
      policy it stands. */
  lemma OutOfScopeIgnored(money: ParseMoney, a: seq<Predicate>, p: Predicate, b: seq<Predicate>, x: Input)
    requires !InScope(p.agents, x.agentId)
    ensures Results(money, a + [p] + b, x) == Results(money, a + b, x)
  {
    ResultsConcat(money, a + [p], b, x);
    ResultsConcat(money, a, [p], x);
    ResultsConcat(money, a, b, x);
    assert Results(money, [p], x) == [];
  }

  lemma {:induction false} LocalOutcomes(money: ParseMoney, ps: seq<Predicate>, x: Input)
    ensures forall r :: r in Results(money, ps, x) ==> r.outcome in {Satisfied, Denied, Flagged}
  {
    if ps != [] { LocalOutcomes(money, ps[1..], x); }
  }
}
