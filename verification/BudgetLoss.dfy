/** What a counter says too much, and what a place whose reply is lost does with it
    (internal/budget/reserver.go: a failed place undoes the counter, also when the hold
    was written and only the reply was lost). */
module BudgetLoss {
  import opened Base
  import opened Sums
  import opened Holds
  import opened BudgetProtocol
  import opened BudgetTheorems
  import opened BudgetRebuild
  import opened BudgetStranding
  import Money

  // ----- where slack comes from -----

  /** The cents step t leaves on counter k for nothing: a reserve nobody hears of, a hold
      that was already there, an operation that dies, a hold met past its expiry. A lost
      place takes that much off. */
  function StrayAt(e: Env, s: Sys, t: Step, k: string): int {
    match t
    case ReserveLost(h) => if KeyOf(e, h) == k && Get(s.counter, k) + Cents(e, h) <= e.limits(k) then Cents(e, h) else 0
    case PlaceOk(op, _) =>
      if op in s.ops && s.ops[op].Reserving? && RefOf(s.ops[op].hold) in s.ledger then OpWeight(e, s.ops[op], k) else 0
    case PlaceLost(_, _) => -PlacedAt(e, s, t, k)
    case OpLost(op) => if op in s.ops then OpWeight(e, s.ops[op], k) else 0
    case Read(r, _) => if ReadsPastExpiry(e, s, t, r) then SpendWeight(e, s.ledger[r], k) else 0
    case Capture(r, _) => if ReadsPastExpiry(e, s, t, r) then SpendWeight(e, s.ledger[r], k) else 0
    case Void(r, _, _) => if ReadsPastExpiry(e, s, t, r) then SpendWeight(e, s.ledger[r], k) else 0
    case _ => 0
  }

  lemma ReserveSlack(e: Env, s: Sys, t: Step, k: string)
    requires Inv(e, s) && (t.Reserve? || t.ReserveLost?) && Enabled(e, s, t) && Fits(e, s, t.hold)
    ensures Slack(e, Apply(e, s, t), k) == Slack(e, s, k) + StrayAt(e, s, t, k)
  {
    ReserveAdds(e, s, t.hold);
    GetAdd(s.counter, KeyOf(e, t.hold), Cents(e, t.hold), k);
    if t.Reserve? { InFlightUpdate(e, s.ops, t.op, Reserving(t.hold), k); }
  }

  lemma PlaceSlack(e: Env, s: Sys, t: Step, k: string)
    requires Inv(e, s) && t.PlaceOk? && Enabled(e, s, t)
    ensures Slack(e, Apply(e, s, t), k) == Slack(e, s, k) + StrayAt(e, s, t, k)
  {
    var h := Dated(s.ops[t.op].hold, t.now);
    assert Balance(e, s, k) && h.state.Held?;
    if RefOf(h) in s.ledger {
      InFlightDrop(e, s.ops, t.op, k);
    } else {
      PlaceFreshBalances(e, s, t.op, h, k);
      assert Apply(e, s, t) == s.(ops := Drop(s.ops, t.op), ledger := s.ledger[RefOf(h) := h]);
    }
  }

  lemma LossSlack(e: Env, s: Sys, t: Step, k: string)
    requires Inv(e, s) && t.PlaceLost? && Enabled(e, s, t)
    ensures Slack(e, Apply(e, s, t), k) == Slack(e, s, k) + StrayAt(e, s, t, k)
  {
    var h := Dated(s.ops[t.op].hold, t.now);
    assert Balance(e, s, k) && h.state.Held?;
    PlaceErrBalances(e, s, PlaceErr(t.op), k);
    PlaceLostShape(e, s, t);
    if RefOf(h) !in s.ledger { PlacedBalances(e, Apply(e, s, PlaceErr(t.op)), h, k); }
  }

  lemma DropSlack(e: Env, s: Sys, t: Step, k: string)
    requires Inv(e, s) && (t.ReleaseOk? || t.OpLost?) && Enabled(e, s, t)
    ensures Slack(e, Apply(e, s, t), k) == Slack(e, s, k) + StrayAt(e, s, t, k)
  {
    InFlightDrop(e, s.ops, t.op, k);
    if t.ReleaseOk? {
      assert OpKey(e, s.ops[t.op]) == s.ops[t.op].key && 0 <= OpCents(e, s.ops[t.op]);
      CounterCovers(e, s, s.ops[t.op].key);
    }
  }

  /** A void or expiry that hands its release out is not a read past the expiry; any
      other ledger step ends its hold exactly by such a read. */
  lemma EndsByReading(e: Env, s: Sys, t: Step)
    requires LedgerStep(t) && Enabled(e, s, t) && t.ref in s.ledger
    ensures if Apply(e, s, t).ops != s.ops then !ReadsPastExpiry(e, s, t, t.ref)
            else EndsHold(e, s, t) <==> ReadsPastExpiry(e, s, t, t.ref)
  {
    if t.Expire? {
      ExpireShape(e, s, t);
    } else if t.Void? && e.kind.InMemory? {
      MemVoidRow(s.ledger, t.ref, t.now);
    }
  }

  lemma LedgerSlack(e: Env, s: Sys, t: Step, k: string)
    requires Inv(e, s) && LedgerStep(t) && Enabled(e, s, t)
    ensures Slack(e, Apply(e, s, t), k) == Slack(e, s, k) + StrayAt(e, s, t, k)
  {
    var s' := Apply(e, s, t);
    LedgerStepShape(e, s, t);
    if t.ref in s.ledger {
      EndsByReading(e, s, t);
      LedgerStepRow(e, s, t);
      if s'.ops == s.ops {
        SpendUpdate(e, s.ledger, t.ref, s'.ledger[t.ref], k);
      } else {
        StartReleaseBalances(e, s, t.ref, s'.ledger[t.ref], t.op, k);
      }
    }
  }

  lemma RebuildSlack(e: Env, s: Sys, t: Step, k: string)
    requires Inv(e, s) && t.Rebuild? && Enabled(e, s, t)
    ensures Slack(e, Apply(e, s, t), k) == if Rebuilds(e, t, k) then 0 else Slack(e, s, k)
  {
    ListedFits(e, s, t.org, t.budget, t.windowKey);
    if Rebuilds(e, t, k) { SumZero(InFlight(e, s.ops, k)); }
  }

  /** The slack of a counter moves by exactly these cents, and a rebuild ends it. */
  lemma SlackStep(e: Env, s: Sys, t: Step, k: string)
    requires Inv(e, s) && Enabled(e, s, t) && (t.Reserve? || t.ReserveLost? ==> Fits(e, s, t.hold))
    ensures Slack(e, Apply(e, s, t), k) == if Rebuilds(e, t, k) then 0 else Slack(e, s, k) + StrayAt(e, s, t, k)
  {
    match t
    case Reserve(_, _) => ReserveSlack(e, s, t, k);
    case ReserveLost(_) => ReserveSlack(e, s, t, k);
    case PlaceOk(_, _) => PlaceSlack(e, s, t, k);
    case PlaceErr(_) => assert Balance(e, s, k); PlaceErrBalances(e, s, t, k);
    case PlaceLost(_, _) => LossSlack(e, s, t, k);
    case ReleaseOk(_) => DropSlack(e, s, t, k);
    case OpLost(_) => DropSlack(e, s, t, k);
    case Rebuild(_, _, _) => RebuildSlack(e, s, t, k);
    case _ => LedgerSlack(e, s, t, k);
  }

  lemma NextSlack(e: Env, ss: seq<Sys>, ts: seq<Step>, i: nat, k: string)
    requires Steps(e, ss, ts) && i < |ts| && Inv(e, ss[i]) && TameAt(e, ss, ts, i)
    ensures Slack(e, ss[i + 1], k) == if Rebuilds(e, ts[i], k) then 0 else Slack(e, ss[i], k) + StrayAt(e, ss[i], ts[i], k)
  {
    var s, t := ss[i], ts[i];
    assert StepAt(e, ss, ts, i);
    if t.Reserve? || t.ReserveLost? { assert Get(s.counter, KeyOf(e, t.hold)) <= Cap(e, KeyOf(e, t.hold)); }
    SlackStep(e, s, t, k);
  }

  /** The stray cents on counter k at moment j, counted from its last rebuild. */
  function Strayed(e: Env, ss: seq<Sys>, ts: seq<Step>, j: nat, k: string): int
    requires j <= |ts| <= |ss|
    decreases j
  {
    if j == 0 || Rebuilds(e, ts[j - 1], k) then 0
    else Strayed(e, ss, ts, j - 1, k) + StrayAt(e, ss[j - 1], ts[j - 1], k)
  }

  lemma FlowStep(e: Env, ss: seq<Sys>, ts: seq<Step>, i: nat, k: string)
    requires Steps(e, ss, ts) && i < |ts| && Inv(e, ss[i]) && TameAt(e, ss, ts, i)
    requires Slack(e, ss[i], k) == Strayed(e, ss, ts, i, k)
    ensures Slack(e, ss[i + 1], k) == Strayed(e, ss, ts, i + 1, k)
  {
    NextSlack(e, ss, ts, i, k);
  }

  lemma EmptySlack(e: Env, k: string)
    ensures Slack(e, EMPTY, k) == 0
  {
    assert Spend(e, EMPTY.ledger, k) == map[] && InFlight(e, EMPTY.ops, k) == map[];
  }

  /** At every moment a counter is what is spent, plus what is in flight, plus what the
      faults and late reads since its last rebuild left on it. */
  lemma {:induction false} SlackFlow(e: Env, ss: seq<Sys>, ts: seq<Step>, j: nat, k: string)
    requires EnvOk(e) && Run(e, ss, ts) && j < |ss| && TameRun(e, ss, ts, j)
    ensures Slack(e, ss[j], k) == Strayed(e, ss, ts, j, k)
  {
    if j == 0 {
      EmptySlack(e, k);
    } else {
      SlackFlow(e, ss, ts, j - 1, k);
      RunInvariant(e, ss, ts, j - 1);
      FlowStep(e, ss, ts, j - 1, k);
    }
  }

  /** A lost place leaves the books good exactly if the decision id was known or at least
      its cents had strayed onto the counter since the last rebuild. */
  lemma LossHarmlessIff(e: Env, ss: seq<Sys>, ts: seq<Step>, n: nat)
    requires EnvOk(e) && Run(e, ss, ts) && n < |ts| && TameRun(e, ss, ts, n) && ts[n].PlaceLost?
    ensures ts[n].op in ss[n].ops && ss[n].ops[ts[n].op].Reserving?
    ensures var h := ss[n].ops[ts[n].op].hold;
            Inv(e, ss[n + 1]) <==> RefOf(h) in ss[n].ledger || Cents(e, h) <= Strayed(e, ss, ts, n, KeyOf(e, h))
  {
    assert StepAt(e, ss, ts, n);
    RunInvariant(e, ss, ts, n);
    SlackFlow(e, ss, ts, n, KeyOf(e, ss[n].ops[ts[n].op].hold));
    PlaceLostKeepsIff(e, ss[n], ts[n]);
  }

  // ----- what a harmful loss leads to -----

  /** An execution from s on, tame throughout. */
  ghost predicate Continues(e: Env, s: Sys, ss: seq<Sys>, ts: seq<Step>) {
    Steps(e, ss, ts) && ss[0] == s && TameRun(e, ss, ts, |ts|)
  }

  ghost predicate Covered(e: Env, s: Sys, k: string) { Sum(Spend(e, s.ledger, k)) <= Get(s.counter, k) <= Cap(e, k) }

  ghost predicate Within(e: Env, s: Sys, k: string) { Sum(Spend(e, s.ledger, k)) <= Cap(e, k) }

  /** However the run goes on, every counter covers its spend and respects its limit. */
  ghost predicate StaysCovered(e: Env, s: Sys) {
    forall ss, ts, k :: Continues(e, s, ss, ts) ==> Covered(e, ss[|ts|], k)
  }

  /** However the run goes on, no limit is oversold. */
  ghost predicate StaysWithin(e: Env, s: Sys) {
    forall ss, ts, k :: Continues(e, s, ss, ts) ==> Within(e, ss[|ts|], k)
  }

  lemma {:induction false} InvAlong(e: Env, ss: seq<Sys>, ts: seq<Step>, i: nat)
    requires Steps(e, ss, ts) && i < |ss| && TameRun(e, ss, ts, i) && Inv(e, ss[0])
    ensures Inv(e, ss[i])
  {
    if i > 0 {
      InvAlong(e, ss, ts, i - 1);
      NextInv(e, ss, ts, i - 1);
    }
  }

  lemma GoodBooksStay(e: Env, s: Sys)
    requires Inv(e, s)
    ensures StaysCovered(e, s) && StaysWithin(e, s)
  {
    forall ss, ts, k | Continues(e, s, ss, ts) ensures Covered(e, ss[|ts|], k) && Within(e, ss[|ts|], k) {
      InvAlong(e, ss, ts, |ts|);
      CounterCovers(e, ss[|ts|], k);
    }
  }

  /** Counters and operations in flight are not negative, and counter k falls short of
      what is spent and in flight on it. */
  ghost predicate Short(e: Env, s: Sys, k: string) {
    && (forall c :: 0 <= Get(s.counter, c) < TWO_63)
    && (forall o :: o in s.ops ==> 0 <= OpCents(e, s.ops[o]) < TWO_63)
    && 0 < Sum(Spend(e, s.ledger, k)) && Slack(e, s, k) < 0
  }

  lemma LossIsShort(e: Env, s: Sys, t: Step)
    requires Inv(e, s) && t.PlaceLost? && Enabled(e, s, t) && !HarmlessLoss(e, s, s.ops[t.op].hold)
    ensures Short(e, Apply(e, s, t), KeyOf(e, s.ops[t.op].hold))
  {
    var k, s' := KeyOf(e, s.ops[t.op].hold), Apply(e, s, t);
    LossSlack(e, s, t, k);
    PlaceSpends(e, s, t, k);
    assert 0 <= Slack(e, s, k) && 0 <= OpCents(e, s.ops[t.op]) < TWO_63;
    forall c ensures 0 <= Sum(Spend(e, s.ledger, c)) && 0 <= Get(s'.counter, c) < TWO_63 { CounterCovers(e, s, c); }
  }

  lemma PlaceErrShort(e: Env, s: Sys, op: nat, k: string)
    requires Short(e, s, k) && op in s.ops && s.ops[op].Reserving?
    ensures Short(e, Apply(e, s, PlaceErr(op)), k)
  {
    var h := s.ops[op].hold;
    assert 0 <= OpCents(e, s.ops[op]) < TWO_63;
    InFlightUpdate(e, s.ops, op, Releasing(KeyOf(e, h), Cents(e, h)), k);
  }

  /** The floor at zero may clip the release, but what is spent is still above zero. */
  lemma ReleaseShort(e: Env, s: Sys, op: nat, k: string)
    requires Short(e, s, k) && op in s.ops && s.ops[op].Releasing?
    ensures Short(e, Apply(e, s, ReleaseOk(op)), k)
  {
    var s' := Apply(e, s, ReleaseOk(op));
    assert 0 <= OpCents(e, s.ops[op]) < TWO_63 && 0 <= Get(s.counter, s.ops[op].key) < TWO_63;
    forall c ensures 0 <= Get(s'.counter, c) < TWO_63 { assert 0 <= Get(s.counter, c) < TWO_63; }
    InFlightDrop(e, s.ops, op, k);
    SumNonNegative(InFlight(e, s'.ops, k));
  }

  /** Every operation in flight gives up, one after the other. */
  lemma {:induction false} Drain(e: Env, s: Sys, ss: seq<Sys>, ts: seq<Step>, k: string)
    returns (ss': seq<Sys>, ts': seq<Step>, s': Sys)
    requires Continues(e, s, ss, ts) && Short(e, ss[|ts|], k)
    ensures Continues(e, s, ss', ts') && ss'[|ts'|] == s' && Short(e, s', k) && s'.ops == map[]
    decreases |ss[|ts|].ops|
  {
    ss', ts', s' := ss, ts, ss[|ts|];
    if s'.ops != map[] {
      var op :| op in s'.ops;
      if s'.ops[op].Reserving? {
        PlaceErrShort(e, s', op, k);
        ss', ts', s' := TameThen(e, ss', ts', PlaceErr(op));
        assert s'.ops.Keys == ss[|ts|].ops.Keys;
      }
      ReleaseShort(e, s', op, k);
      ss', ts', s' := TameThen(e, ss', ts', ReleaseOk(op));
      assert s'.ops.Keys == ss[|ts|].ops.Keys - {op};
      ss', ts', s' := Drain(e, s, ss', ts', k);
    }
  }

  lemma ShortIsUncovered(e: Env, s: Sys, k: string)
    requires Short(e, s, k) && s.ops == map[]
    ensures 0 <= Get(s.counter, k) < Sum(Spend(e, s.ledger, k))
  {
    assert InFlight(e, s.ops, k) == map[];
  }

  /** After a lost place every continuation stays covered exactly if the loss was
      harmless. */
  lemma LossCoversIff(e: Env, s: Sys, t: Step)
    requires Inv(e, s) && t.PlaceLost? && Enabled(e, s, t)
    ensures StaysCovered(e, Apply(e, s, t)) <==> HarmlessLoss(e, s, s.ops[t.op].hold)
  {
    var s', k := Apply(e, s, t), KeyOf(e, s.ops[t.op].hold);
    if HarmlessLoss(e, s, s.ops[t.op].hold) {
      PlaceLostKeepsIff(e, s, t);
      GoodBooksStay(e, s');
    } else {
      LossIsShort(e, s, t);
      var ss, ts, end := Drain(e, s', [s'], [], k);
      ShortIsUncovered(e, end, k);
      assert Continues(e, s', ss, ts) && !Covered(e, ss[|ts|], k);
    }
  }

  // ----- from uncovered to oversold -----

  /** Some decision id the ledger does not have: one longer than all it has. */
  lemma {:induction false} LongerThanAll(refs: set<HoldRef>) returns (n: nat)
    ensures forall r :: r in refs ==> |r.decision| < n
  {
    if refs == {} {
      n := 0;
    } else {
      var r :| r in refs;
      n := LongerThanAll(refs - {r});
      n := if |r.decision| < n then n else |r.decision| + 1;
    }
  }

  lemma FreshDecision(l: Ledger, org: string) returns (id: string)
    ensures HoldRef(org, id) !in l
  {
    var n := LongerThanAll(l.Keys);
    id := seq(n, i => 'x');
    if HoldRef(org, id) in l.Keys { assert false; }
  }

  /** A hold like h for a given number of cents, under a new decision id. */
  lemma AnotherHold(e: Env, l: Ledger, h: Hold, cents: int) returns (g: Hold)
    requires ReadsCents(e) && 0 <= cents < TWO_63
    ensures RefOf(g) !in l && e.cents(g.amount) == Some(cents) && KeyOf(e, g) == KeyOf(e, h) && g.state == h.state
  {
    Money.CentsRoundTrip(cents);
    var id := FreshDecision(l, h.orgId);
    g := h.(decisionId := id, amount := Money.CentsToStr(cents));
  }

  /** One reserve and its place, of cents the counter still has to give. */
  lemma Take(e: Env, s: Sys, ss: seq<Sys>, ts: seq<Step>, h: Hold, cents: int)
    returns (ss': seq<Sys>, ts': seq<Step>, s': Sys)
    requires Continues(e, s, ss, ts) && ss[|ts|].ops == map[] && h.state.Held? && RefOf(h) !in ss[|ts|].ledger
    requires e.cents(h.amount) == Some(cents) && 0 <= cents && InRange(e, h)
    requires 0 <= Get(ss[|ts|].counter, KeyOf(e, h)) <= e.limits(KeyOf(e, h)) - cents
    ensures Continues(e, s, ss', ts') && ss'[|ts'|] == s' && s'.ops == map[]
    ensures var k := KeyOf(e, h);
            && Sum(Spend(e, s'.ledger, k)) == Sum(Spend(e, ss[|ts|].ledger, k)) + cents
            && Get(s'.counter, k) == Get(ss[|ts|].counter, k) + cents
  {
    ss', ts', s' := TameThen(e, ss, ts, Reserve(0, h));
    assert s'.ops == map[0 := Reserving(h)] && s'.ledger == ss[|ts|].ledger;
    PlaceSpends(e, s', PlaceOk(0, 0), KeyOf(e, h));
    ss', ts', s' := TameThen(e, ss', ts', PlaceOk(0, 0));
    assert s'.ops == map[];
  }

  /** How much one reserve in range can take of what counter k still has to give. */
  function Bite(e: Env, s: Sys, k: string): int {
    var rest, most := e.limits(k) - Get(s.counter, k), TWO_63 - 1 - e.limits(k);
    if rest < most then rest else most
  }

  /** A run in which nothing is in flight and counter k falls short of what is spent goes
      on, reserve by reserve, to a run that has oversold k. */
  lemma {:induction false} TakeTheRest(e: Env, s: Sys, ss: seq<Sys>, ts: seq<Step>, h: Hold)
    returns (ss': seq<Sys>, ts': seq<Step>, s': Sys)
    requires ReadsCents(e) && h.state.Held? && Cap(e, KeyOf(e, h)) + 1 < TWO_63
    requires Continues(e, s, ss, ts) && ss[|ts|].ops == map[]
    requires 0 <= Get(ss[|ts|].counter, KeyOf(e, h)) < Sum(Spend(e, ss[|ts|].ledger, KeyOf(e, h)))
    ensures Continues(e, s, ss', ts') && ss'[|ts'|] == s' && !Within(e, s', KeyOf(e, h))
    decreases e.limits(KeyOf(e, h)) - Get(ss[|ts|].counter, KeyOf(e, h))
  {
    var k := KeyOf(e, h);
    ss', ts', s' := ss, ts, ss[|ts|];
    if Get(s'.counter, k) < e.limits(k) {
      var cents := Bite(e, s', k);
      var g := AnotherHold(e, s'.ledger, h, cents);
      ss', ts', s' := Take(e, s, ss, ts, g, cents);
      ss', ts', s' := TakeTheRest(e, s, ss', ts', h);
    }
  }

  /** With the service's amounts: after a lost place no continuation oversells exactly if
      the loss was harmless. (A limit of 2^63 - 1 leaves no reserve in range.) */
  lemma LossOversellsIff(e: Env, s: Sys, t: Step)
    requires Inv(e, s) && ReadsCents(e) && t.PlaceLost? && Enabled(e, s, t)
    requires Cap(e, KeyOf(e, s.ops[t.op].hold)) + 1 < TWO_63
    ensures StaysWithin(e, Apply(e, s, t)) <==> HarmlessLoss(e, s, s.ops[t.op].hold)
  {
    var s', h := Apply(e, s, t), s.ops[t.op].hold;
    if HarmlessLoss(e, s, h) {
      PlaceLostKeepsIff(e, s, t);
      GoodBooksStay(e, s');
    } else {
      LossIsShort(e, s, t);
      ShortIsOversold(e, s', h);
    }
  }

  lemma ShortIsOversold(e: Env, s: Sys, h: Hold)
    requires Short(e, s, KeyOf(e, h)) && ReadsCents(e) && h.state.Held? && Cap(e, KeyOf(e, h)) + 1 < TWO_63
    ensures !StaysWithin(e, s)
  {
    var k := KeyOf(e, h);
    var ss, ts, end := Drain(e, s, [s], [], k);
    ShortIsUncovered(e, end, k);
    ss, ts, end := TakeTheRest(e, s, ss, ts, h);
    assert Continues(e, s, ss, ts) && !Within(e, ss[|ts|], k);
  }
}
