/** The decision engine end to end: local rules, then the stateful budget, then the
    signed decision (internal/engine/engine.go). */
module Engine {
  import opened Base
  import opened Verdict
  import opened Predicates
  import R = Reserver
  import H = Holds
  import Windows

  datatype Policy = Policy(version: string, predicates: seq<Predicate>, budgets: seq<R.Budget>)

  /** The first budget, in declaration order, that governs the agent. */
  function ApplicableBudget(budgets: seq<R.Budget>, agent: string): (b: Option<R.Budget>)
    ensures b.None? <==> forall x :: x in budgets ==> !InScope(x.agents, agent)
    ensures b.Some? ==> exists i :: 0 <= i < |budgets| && budgets[i] == b.value && InScope(b.value.agents, agent)
                                    && forall j :: 0 <= j < i ==> !InScope(budgets[j].agents, agent)
  {
    if budgets == [] then None
    else if InScope(budgets[0].agents, agent) then Some(budgets[0])
    else ApplicableBudget(budgets[1..], agent)
  }

  datatype Obligation = CaptureWithin(
    budgetId: string, window: string, amount: string, currency: string, ttl: int, expiresAt: string, holdRef: string)

  datatype Summary =
    | DefaultDeny | DeniedBy(rule: string) | DeniedUnavailable(rule: string) | JustDenied
    | FlaggedBy(rule: string) | FlaggedUnavailable(rule: string) | JustFlagged
    | Approved(rules: nat)

  datatype Decision = Decision(
    id: string, verdict: Verdict, version: string, summary: Summary, matched: seq<MatchedRule>,
    obligations: seq<Obligation>, evaluatedAt: string, shadow: bool)

  /** What the bundle cache answers for the org; None when no provider is wired. */
  datatype Provided = Servable(policy: Policy) | NoActiveBundle | Broken

  datatype Reply = Decided(decision: Decision) | NoBundle | SigningFailed

  /** Time and money parsing are foreign code; start is the engine's clock reading. */
  datatype Foreign = Foreign(parseTime: R.ParseTime, formatTime: int -> string, money: ParseMoney)

  const ZERO_TIME_SECONDS := -62_135_596_800

  function BuildInput(f: Foreign, req: R.Request, evaluatedAt: string): Input {
    var t := f.parseTime(evaluatedAt);
    Input(req.agentId, req.action, req.amount, f.money(req.amount), req.currency,
          req.targetType, req.targetId, req.jurisdiction,
          if t.Some? then t.value / 1000 else ZERO_TIME_SECONDS)
  }

  /** What the rules get to see of a request: its own fields, its amount as an exact
      number, and the whole second of its instant. */
  ghost predicate Describes(x: Input, f: Foreign, req: R.Request, evaluatedAt: string) {
    && x.agentId == req.agentId && x.action == req.action && x.currency == req.currency
    && x.amountRaw == req.amount && x.amount == f.money(req.amount)
    && x.targetType == req.targetType && x.targetId == req.targetId && x.jurisdiction == req.jurisdiction
    && match f.parseTime(evaluatedAt)
       case Some(t) => x.evaluatedAt * 1000 <= t < x.evaluatedAt * 1000 + 1000
       case None => x.evaluatedAt * 1000 == Windows.Midnight(1, 1, 1)
  }

  lemma YearOne(year: nat)
    requires year == 1
    ensures Windows.Midnight(year, 1, 1) == ZERO_TIME_SECONDS * 1000
  {
    Windows.YearStart(year);
    assert 12 * year + 1 - 1 == 12 * year;
  }

  /** An instant that does not parse counts as the first midnight of year one. */
  lemma BuildInputDescribes(f: Foreign, req: R.Request, evaluatedAt: string)
    ensures Describes(BuildInput(f, req, evaluatedAt), f, req, evaluatedAt)
  {
    YearOne(1);
  }

  function First(matched: seq<MatchedRule>, want: Outcome): (m: Option<MatchedRule>)
    ensures m.Some? ==> exists i :: 0 <= i < |matched| && matched[i] == m.value && m.value.result == want
                                    && forall j :: 0 <= j < i ==> matched[j].result != want
    ensures m.None? ==> forall x :: x in matched ==> x.result != want
  {
    if matched == [] then None
    else if matched[0].result == want then Some(matched[0])
    else First(matched[1..], want)
  }

  function Summarize(v: Verdict, matched: seq<MatchedRule>): Summary {
    var denied, flagged, unavailable := First(matched, Denied), First(matched, Flagged), First(matched, Unavailable);
    match v
    case Deny =>
      if matched == [] then DefaultDeny
      else if denied.Some? then DeniedBy(denied.value.ruleId)
      else if unavailable.Some? then DeniedUnavailable(unavailable.value.ruleId)
      else JustDenied
    case Review =>
      if flagged.Some? then FlaggedBy(flagged.value.ruleId)
      else if unavailable.Some? then FlaggedUnavailable(unavailable.value.ruleId)
      else JustFlagged
    case Approve => Approved(|matched|)
  }

  /** Results as the engine produces them: an unavailable one is always the budget's. */
  predicate EngineResult(r: PredicateResult) {
    r.outcome in {Satisfied, Denied, Flagged} || (r.outcome.Unavailable? && r.failMode.FailClosedReview?)
  }

  /** The one-line summary always names a rule that on its own forces the verdict; the
      nameless wordings are reached only by an empty result set. */
  lemma SummaryNamesCause(rs: seq<PredicateResult>)
    requires forall r :: r in rs ==> EngineResult(r)
    ensures var v := Precedence(rs);
            match Summarize(v, Matched(rs))
            case DefaultDeny => v == Deny && rs == []
            case DeniedBy(id) => exists r :: r in rs && r.ruleId == id && Precedence([r]) == v == Deny
            case FlaggedBy(id) => exists r :: r in rs && r.ruleId == id && Precedence([r]) == v == Review
            case FlaggedUnavailable(id) => exists r :: r in rs && r.ruleId == id && Precedence([r]) == v == Review
            case Approved(n) => v == Approve && n == |rs| > 0
            case _ => false
  {
    var v, m := Precedence(rs), Matched(rs);
    forall x | x in m ensures exists r :: r in rs && r.ruleId == x.ruleId && r.outcome == x.result {
      var i :| 0 <= i < |m| && m[i] == x;
      assert rs[i] in rs;
    }
    forall r | r in rs ensures MatchedRule(r.ruleId, r.outcome) in m {
      var i :| 0 <= i < |rs| && rs[i] == r;
      assert m[i] == MatchedRule(r.ruleId, r.outcome);
    }
    forall r | r in rs ensures Precedence([r]) ==
        match EffectiveOutcome(r) case Denied => Deny case Flagged => Review case _ => Approve
    {
      assert r in [r];
    }
  }

  /** A budget outcome as an input of the algebra. */
  function BudgetPredicateResult(b: R.Budget, o: R.Outcome): PredicateResult {
    match o
    case WithinLimit => PredicateResult(b.id, true, Satisfied, Unspecified)
    case Exceeded => PredicateResult(b.id, true, Denied, Unspecified)
    case Unavailable => PredicateResult(b.id, true, Unavailable, FailClosedReview)
  }

  function BudgetVerdict(o: R.Outcome): Verdict {
    match o case WithinLimit => Approve case Exceeded => Deny case Unavailable => Review
  }

  /** On top of a local approval the budget alone decides the verdict. */
  lemma BudgetDecides(rs: seq<PredicateResult>, b: R.Budget, o: R.Outcome)
    requires Precedence(rs) == Approve
    ensures Precedence(rs + [BudgetPredicateResult(b, o)]) == BudgetVerdict(o)
  {
    var r := BudgetPredicateResult(b, o);
    assert r in [r];
    ConcatIsSeverityJoin(rs, [r]);
  }

  /** With a fresh decision id: exactly one new hold, held, with the request's and the
      budget's own fields, and exactly one counter higher, the one that hold will be
      released from, by exactly its cents, and within the limit. */
  ghost predicate HeldOnce(codec: R.Codec, org: string, id: string, req: R.Request, b: R.Budget, t: int, ttl: int,
                           vals: map<string, int>, vals': map<string, int>, l: H.Ledger, l': H.Ledger)
  {
    var key := codec.key(org, b.id, codec.windowKey(b.window, t));
    var amount, limit := codec.cents(req.amount), codec.cents(b.limit);
    && amount.Some? && limit.Some?
    && (H.HoldRef(org, id) !in l ==>
          R.Placed(codec, org, id, req, b, codec.windowKey(b.window, t), t, ttl, vals, vals', l, l'))
    && (R.Sane(Get(vals, key), amount.value, limit.value) ==>
          vals' == vals[key := Get(vals, key) + amount.value] && Get(vals', key) <= limit.value)
  }

  /** Neither store reads differently; the counter's part needs the undo to get through. */
  ghost predicate Untouched(codec: R.Codec, org: string, req: R.Request, b: R.Budget, t: int, f: R.Faults,
                            vals: map<string, int>, vals': map<string, int>, l: H.Ledger, l': H.Ledger)
  {
    var key := codec.key(org, b.id, codec.windowKey(b.window, t));
    var amount, limit := codec.cents(req.amount), codec.cents(b.limit);
    && l' == l
    && (!f.undoFails && (amount.Some? && limit.Some? ==> R.Sane(Get(vals, key), amount.value, limit.value))
        ==> R.SameCounts(vals, vals'))
  }

  lemma ReservedMeans(codec: R.Codec, org: string, id: string, req: R.Request, b: R.Budget, t: int, ttl: int, now: int,
                      f: R.Faults, o: R.Outcome,
                      vals: map<string, int>, vals': map<string, int>, l: H.Ledger, l': H.Ledger)
    requires R.Reserved(vals, vals', l, l', o, f, codec.key(org, b.id, codec.windowKey(b.window, t)),
                        codec.cents(req.amount), codec.cents(b.limit), R.HoldFor(codec, org, id, req, b, t, ttl), now)
    ensures o.WithinLimit? ==> HeldOnce(codec, org, id, req, b, t, ttl, vals, vals', l, l')
    ensures !o.WithinLimit? ==> Untouched(codec, org, req, b, t, f, vals, vals', l, l')
  {
  }

  class Engine {
    const foreign: Foreign
    const policy: Policy
    const holdTTL: int
    const reserver: R.Reserver?

    ghost predicate Valid()
      reads this, if reserver == null then {} else {reserver, reserver.holds}
    {
      reserver != null ==> reserver.Valid()
    }

    function TTL(): int { if holdTTL > 0 then holdTTL else 15 * 60_000 }

    function EvaluatedAt(req: R.Request, start: int): string {
      if req.evaluatedAt == "" then foreign.formatTime(start) else req.evaluatedAt
    }

    function Capture(b: R.Budget, req: R.Request, evaluatedAt: string, id: string, clock: int): Obligation {
      var t := foreign.parseTime(evaluatedAt);
      CaptureWithin(b.id, b.window, req.amount, req.currency, TTL(),
                    foreign.formatTime((if t.Some? then t.value else clock) + TTL()), id)
    }

    /** The budget that gets consulted: only for an enforcing request whose local rules
        already approve. */
    ghost function Consulted(p: Policy, req: R.Request, shadow: bool, start: int): Option<R.Budget> {
      var local := Results(foreign.money, p.predicates, BuildInput(foreign, req, EvaluatedAt(req, start)));
      if !shadow && Precedence(local) == Approve then ApplicableBudget(p.budgets, req.agentId) else None
    }

    /** Asks the reserver about one budget. */
    method Consult(org: string, id: string, req: R.Request, b: R.Budget, now: int, faults: R.Faults)
      returns (o: R.Outcome)
      requires Valid() && reserver != null
      modifies reserver.counter, reserver.holds
      ensures Valid()
      ensures StoresAfter(reserver.codec, org, id, req, b, R.When(foreign.parseTime, req, now), reserver.holdTTL, faults, o,
                          old(reserver.counter.vals), reserver.counter.vals,
                          old(reserver.holds.holds), reserver.holds.holds)
    {
      ghost var codec, t := reserver.codec, R.When(foreign.parseTime, req, now);
      var res := reserver.Reserve(foreign.parseTime, org, id, req, b, now, faults);
      o := res.outcome;
      ReservedMeans(codec, org, id, req, b, t, reserver.holdTTL, now, faults, o,
                    old(reserver.counter.vals), reserver.counter.vals, old(reserver.holds.holds), reserver.holds.holds);
    }

    /** What the two stores hold, when a reserver is wired. */
    ghost function Stores(): Option<Books>
      reads if reserver == null then {} else {reserver.counter as object, reserver.holds}
    {
      if reserver == null then None else Some(Books(reserver.counter.vals, reserver.holds.holds))
    }

    /** The obligation told to the caller: which hold to settle, of what, and by when. */
    ghost predicate Promises(o: Obligation, b: R.Budget, req: R.Request, evaluatedAt: string, id: string, clock: int) {
      var ttl := if holdTTL > 0 then holdTTL else 900_000;
      && o.budgetId == b.id && o.window == b.window && o.amount == req.amount && o.currency == req.currency
      && o.holdRef == id && o.ttl == ttl
      && match foreign.parseTime(evaluatedAt)
         case Some(t) => o.expiresAt == foreign.formatTime(t + ttl)
         case None => o.expiresAt == foreign.formatTime(clock + ttl)
    }

    lemma CapturePromises(b: R.Budget, req: R.Request, evaluatedAt: string, id: string, clock: int)
      ensures Promises(Capture(b, req, evaluatedAt, id, clock), b, req, evaluatedAt, id, clock)
    {
    }

    /** The request is judged by policy p: its version is cited, its rules give the local
        verdict, its first applicable budget is asked if an enforcing request is locally
        approved, and the verdict, the stores and the obligation follow from the answer.
        An enforced approval under a budget places exactly one hold, raises exactly one
        counter, and says so in its one obligation; every other decision changes neither
        store and carries no obligation. */
    ghost predicate Judged(p: Policy, org: string, req: R.Request, shadow: bool, id: string,
                           start: int, now: int, clock: int, faults: R.Faults, signs: bool,
                           reply: Reply, asked: Option<R.Outcome>, before: Option<Books>, after: Option<Books>)
    {
      var b := Consulted(p, req, shadow, start);
      && (asked.Some? <==> reserver != null && b.Some?)
      && (asked.None? ==> after == before)
      && (asked.Some? ==>
            && before.Some? && after.Some?
            && StoresAfter(reserver.codec, org, id, req, b.value, R.When(foreign.parseTime, req, now), reserver.holdTTL,
                           faults, asked.value, before.value.vals, after.value.vals, before.value.holds, after.value.holds))
      && match reply
         case NoBundle => false
         case SigningFailed => !signs
         case Decided(d) => signs && Explained(p, req, shadow, id, start, clock, asked, d)
    }

    ghost predicate Explained(p: Policy, req: R.Request, shadow: bool, id: string, start: int, clock: int,
                              asked: Option<R.Outcome>, d: Decision)
      requires asked.Some? ==> Consulted(p, req, shadow, start).Some?
    {
      var evaluatedAt := if req.evaluatedAt == "" then foreign.formatTime(start) else req.evaluatedAt;
      var local := Results(foreign.money, p.predicates, BuildInput(foreign, req, evaluatedAt));
      var b := Consulted(p, req, shadow, start);
      && d.id == id && d.version == p.version && d.shadow == shadow && d.evaluatedAt == evaluatedAt
      && d.summary == Summarize(d.verdict, d.matched)
      && d.verdict == (if asked.Some? then BudgetVerdict(asked.value) else Precedence(local))
      && d.matched == Matched(local) + (if asked.None? then []
                                        else [MatchedRule(b.value.id, BudgetPredicateResult(b.value, asked.value).outcome)])
      && if b.Some? && d.verdict == Approve
         then |d.obligations| == 1 && Promises(d.obligations[0], b.value, req, d.evaluatedAt, id, clock)
         else d.obligations == []
    }

    /** One decision. now is the reserver's clock, clock the obligation's; id is fresh.
        An org's own bundle is what it is judged by. The boot policy stands in when no
        provider is wired, or when the org has published nothing and the boot policy has
        rules. Otherwise there is no decision and nothing is touched. The ghost result is
        the budget's answer. */
    method Authorize(provided: Option<Provided>, org: string, req: R.Request, shadow: bool, id: string,
                     start: int, now: int, clock: int, faults: R.Faults, signs: bool)
      returns (reply: Reply, ghost asked: Option<R.Outcome>)
      requires Valid()
      modifies if reserver == null then {} else {reserver.counter as object, reserver.holds}
      ensures Valid()
      ensures provided.None? ==>
                Judged(policy, org, req, shadow, id, start, now, clock, faults, signs, reply, asked, old(Stores()), Stores())
      ensures provided.Some? && provided.value.Servable? ==>
                Judged(provided.value.policy, org, req, shadow, id, start, now, clock, faults, signs,
                       reply, asked, old(Stores()), Stores())
      ensures provided == Some(NoActiveBundle) && policy.predicates != [] ==>
                Judged(policy, org, req, shadow, id, start, now, clock, faults, signs, reply, asked, old(Stores()), Stores())
      ensures provided == Some(Broken) || (provided == Some(NoActiveBundle) && policy.predicates == []) ==>
                reply == NoBundle && asked == None && Stores() == old(Stores())
    {
      var p := policy;
      match provided {
        case None =>
        case Some(Servable(bundle)) => p := bundle;
        case Some(NoActiveBundle) =>
          if policy.predicates == [] {
            return NoBundle, None;
          }
        case Some(Broken) => return NoBundle, None;
      }
      reply, asked := Decide(p, org, req, shadow, id, start, now, clock, faults, signs);
    }

    /** One decision by policy p. */
    method Decide(p: Policy, org: string, req: R.Request, shadow: bool, id: string,
                  start: int, now: int, clock: int, faults: R.Faults, signs: bool)
      returns (reply: Reply, ghost asked: Option<R.Outcome>)
      requires Valid()
      modifies if reserver == null then {} else {reserver.counter as object, reserver.holds}
      ensures Valid()
      ensures Judged(p, org, req, shadow, id, start, now, clock, faults, signs, reply, asked, old(Stores()), Stores())
    {
      asked := None;
      var evaluatedAt := EvaluatedAt(req, start);
      var results, matched := EvalLocal(foreign.money, p.predicates, BuildInput(foreign, req, evaluatedAt));
      var local := Combine(results);
      var obligations: seq<Obligation> := [];
      if !shadow && local == Approve {
        var b := ApplicableBudget(p.budgets, req.agentId);
        if b.Some? {
          var held := true;
          if reserver != null {
            var o := Consult(org, id, req, b.value, now, faults);
            asked := Some(o);
            BudgetDecides(results, b.value, o);
            results := results + [BudgetPredicateResult(b.value, o)];
            matched := matched + [MatchedRule(b.value.id, BudgetPredicateResult(b.value, o).outcome)];
            held := o.WithinLimit?;
          }
          if held {
            obligations := [Capture(b.value, req, evaluatedAt, id, clock)];
            CapturePromises(b.value, req, evaluatedAt, id, clock);
          }
        }
      }
      var verdict := Combine(results);
      if !signs {
        return SigningFailed, asked;
      }
      reply := Decided(Decision(id, verdict, p.version, Summarize(verdict, matched), matched, obligations, evaluatedAt, shadow));
    }
  }

  /** The counter and the ledger. */
  datatype Books = Books(vals: map<string, int>, holds: H.Ledger)

  /** What the two stores look like after a budget was asked. */
  ghost predicate StoresAfter(codec: R.Codec, org: string, id: string, req: R.Request, b: R.Budget, t: int, ttl: int,
                              f: R.Faults, o: R.Outcome,
                              vals: map<string, int>, vals': map<string, int>, l: H.Ledger, l': H.Ledger)
  {
    if o.WithinLimit? then HeldOnce(codec, org, id, req, b, t, ttl, vals, vals', l, l')
    else
      && Untouched(codec, org, req, b, t, f, vals, vals', l, l')
      && (o.Unavailable? ==>
            codec.cents(req.amount).None? || codec.cents(b.limit).None? || f.counterDown || f.placeFails)
      && (o.Exceeded? ==>
            && codec.cents(req.amount).Some? && codec.cents(b.limit).Some?
            && var prior := Get(vals, codec.key(org, b.id, codec.windowKey(b.window, t)));
               Wrap64(prior + codec.cents(req.amount).value) > codec.cents(b.limit).value)
  }

  /** RFC 3339 without fractions: printing drops the milliseconds, and nothing is no time. */
  ghost predicate SecondClock(f: Foreign) {
    (forall t :: f.parseTime(f.formatTime(t)) == Some(WholeSecond(t))) && f.parseTime("") == None
  }

  function WholeSecond(t: int): int { t - t % 1000 }

  /** The deadline told to the caller and the expiry of the hold, for a lifetime that is
      the same whole number of seconds on both sides, coincide exactly if: the request
      carries an instant and that is a whole second; or, as the server always sends it,
      carries none and the reserver's clock shows the very second the decision started
      in; or carries an unreadable one and the two later clock readings agree. */
  lemma ExpiriesLineUpIff(e: Engine, codec: R.Codec, org: string, req: R.Request, b: R.Budget,
                          id: string, start: int, now: int, clock: int)
    requires SecondClock(e.foreign) && e.TTL() % 1000 == 0
    ensures var parse := e.foreign.parseTime;
            parse(e.Capture(b, req, e.EvaluatedAt(req, start), id, clock).expiresAt)
            == R.HoldFor(codec, org, id, req, b, R.When(parse, req, now), e.TTL()).expiresAt
            <==>
            if req.evaluatedAt == "" then now == WholeSecond(start)
            else if parse(req.evaluatedAt).Some? then parse(req.evaluatedAt).value % 1000 == 0
            else now == WholeSecond(clock)
  {
    var parse, ttl := e.foreign.parseTime, e.TTL();
    var at := parse(e.EvaluatedAt(req, start));
    var base := if at.Some? then at.value else clock;
    WholeSecondShift(base, ttl);
    if req.evaluatedAt == "" { assert at == Some(WholeSecond(start)); }
  }

  lemma WholeSecondShift(t: int, d: int)
    requires d % 1000 == 0
    ensures WholeSecond(t + d) == WholeSecond(t) + d && WholeSecond(WholeSecond(t)) == WholeSecond(t)
    ensures WholeSecond(t) == t <==> t % 1000 == 0
  {
  }

  /** For a request as the server sends it the deadline told is never after the expiry of
      the hold, as long as the reserver reads its clock after the engine did. */
  lemma DeadlineNotAfterExpiry(e: Engine, codec: R.Codec, org: string, req: R.Request, b: R.Budget,
                               id: string, start: int, now: int, clock: int)
    requires SecondClock(e.foreign) && e.TTL() % 1000 == 0 && req.evaluatedAt == "" && start <= now
    ensures var parse := e.foreign.parseTime;
            var told := parse(e.Capture(b, req, e.EvaluatedAt(req, start), id, clock).expiresAt);
            var held := R.HoldFor(codec, org, id, req, b, R.When(parse, req, now), e.TTL()).expiresAt;
            told.Some? && held.Some? && told.value <= held.value < told.value + 1000 + (now - start)
  {
    WholeSecondShift(WholeSecond(start), e.TTL());
    WholeSecondShift(start, 0);
  }

  /** A decision that starts at 1.5 s, reserved at the same instant: the caller is told
      half a second less than the hold lasts. */
  lemma BlankExpiriesDiffer(e: Engine, codec: R.Codec, org: string, req: R.Request, b: R.Budget, id: string, clock: int)
    requires SecondClock(e.foreign) && e.TTL() % 1000 == 0 && req.evaluatedAt == ""
    ensures var parse := e.foreign.parseTime;
            var told := parse(e.Capture(b, req, e.EvaluatedAt(req, 1500), id, clock).expiresAt);
            var held := R.HoldFor(codec, org, id, req, b, R.When(parse, req, 1500), e.TTL()).expiresAt;
            told.Some? && held == Some(told.value + 500)
  {
    WholeSecondShift(1000, e.TTL());
  }
}
