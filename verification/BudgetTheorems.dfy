/** What every run of the budget protocol guarantees. */
module BudgetTheorems {
  import opened Base
  import opened Sums
  import opened Holds
  import opened Counter
  import opened BudgetProtocol
  import Money

  /** Nothing counted, nothing placed, nothing in flight. */
  const EMPTY := Sys(map[], map[], map[], map[], multiset{}, {})

  /** ss[0], ts[0], ss[1], ts[1], ... is an execution: any steps, in any order, by any
      number of callers and reconcilers, with every fault the steps allow. */
  ghost predicate Run(e: Env, ss: seq<Sys>, ts: seq<Step>) { Steps(e, ss, ts) && ss[0] == EMPTY }

  ghost predicate Steps(e: Env, ss: seq<Sys>, ts: seq<Step>) {
    |ss| == |ts| + 1 && forall i: nat :: i < |ts| ==> StepAt(e, ss, ts, i)
  }

  ghost predicate StepAt(e: Env, ss: seq<Sys>, ts: seq<Step>, i: nat)
    requires |ss| == |ts| + 1 && i < |ts|
  {
    Enabled(e, ss[i], ts[i]) && ss[i + 1] == Apply(e, ss[i], ts[i])
  }

  /** Up to moment i every reserve stayed inside int64 and no place was lost harmfully. */
  ghost predicate TameRun(e: Env, ss: seq<Sys>, ts: seq<Step>, i: nat)
    requires |ss| == |ts| + 1 && i < |ss|
  {
    forall n: nat :: n < i ==> TameAt(e, ss, ts, n)
  }

  ghost predicate TameAt(e: Env, ss: seq<Sys>, ts: seq<Step>, i: nat)
    requires |ss| == |ts| + 1 && i < |ts|
  {
    Tame(e, ss[i], ts[i])
  }

  lemma InitInv(e: Env)
    requires EnvOk(e)
    ensures Inv(e, EMPTY)
  {
    forall k ensures Balance(e, EMPTY, k) && Slack(e, EMPTY, k) == 0 {
      assert Counted(e, EMPTY.ledger, EMPTY.settled, k) == map[] && Spend(e, EMPTY.ledger, k) == map[];
      assert InFlight(e, EMPTY.ops, k) == map[];
    }
  }

  lemma NextInv(e: Env, ss: seq<Sys>, ts: seq<Step>, i: nat)
    requires Steps(e, ss, ts) && i < |ts| && TameAt(e, ss, ts, i) && Inv(e, ss[i])
    ensures Inv(e, ss[i + 1])
  {
    assert StepAt(e, ss, ts, i);
    StepKeeps(e, ss[i], ts[i]);
  }

  lemma {:induction false} RunInvariant(e: Env, ss: seq<Sys>, ts: seq<Step>, i: nat)
    requires EnvOk(e) && Run(e, ss, ts) && i < |ss| && TameRun(e, ss, ts, i)
    ensures Inv(e, ss[i])
  {
    if i == 0 {
      InitInv(e);
    } else {
      RunInvariant(e, ss, ts, i - 1);
      NextInv(e, ss, ts, i - 1);
    }
  }

  /** No oversell: at every moment of every run the held and captured cents of a window
      are covered by its counter, the counter respects the limit, and the floor at zero
      never clips a release that is due. What the two hypotheses in TameRun leave out is
      said by ReserveKeepsIff and ReserveAlwaysKeepsIff, and by BudgetLoss for places. */
  lemma NoOversell(e: Env, ss: seq<Sys>, ts: seq<Step>, i: nat, k: string)
    requires EnvOk(e) && Run(e, ss, ts) && i < |ss| && TameRun(e, ss, ts, i)
    ensures Sum(Spend(e, ss[i].ledger, k)) <= Get(ss[i].counter, k) <= Cap(e, k)
    ensures forall op :: op in ss[i].ops && ss[i].ops[op].Releasing? ==>
              ss[i].ops[op].cents <= Get(ss[i].counter, ss[i].ops[op].key)
  {
    RunInvariant(e, ss, ts, i);
    var s := ss[i];
    CounterCovers(e, s, k);
    forall op | op in s.ops && s.ops[op].Releasing? ensures s.ops[op].cents <= Get(s.counter, s.ops[op].key) {
      CounterCovers(e, s, s.ops[op].key);
      assert OpKey(e, s.ops[op]) == s.ops[op].key;
    }
  }

  // ----- which amounts are in range -----

  /** Negative cents under a limit that is more negative still: the code refuses them. */
  predicate Refused(e: Env, h: Hold) { e.limits(KeyOf(e, h)) < Cents(e, h) < 0 }

  /** Otherwise negative cents go through, and something owes less than nothing. */
  lemma NegativeReserveBreaks(e: Env, s: Sys, op: nat, h: Hold)
    requires Inv(e, s) && Enabled(e, s, Reserve(op, h)) && Cents(e, h) < 0 && !Refused(e, h)
    ensures !Inv(e, Apply(e, s, Reserve(op, h)))
  {
    CounterCovers(e, s, KeyOf(e, h));
    var ops := Apply(e, s, Reserve(op, h)).ops;
    assert ops == s.ops[op := Reserving(h)];
    assert OpCents(e, ops[op]) < 0;
  }

  /** A sum that wraps goes through as well, and leaves a negative counter. */
  lemma WrappedReserveBreaks(e: Env, s: Sys, op: nat, h: Hold)
    requires Inv(e, s) && Enabled(e, s, Reserve(op, h))
    requires 0 <= Cents(e, h) && Get(s.counter, KeyOf(e, h)) + Cents(e, h) >= TWO_63
    ensures !Inv(e, Apply(e, s, Reserve(op, h)))
  {
    var k, s' := KeyOf(e, h), Apply(e, s, Reserve(op, h));
    CounterCovers(e, s, k);
    assert Get(s'.counter, k) < 0;
    if Inv(e, s') { CounterCovers(e, s', k); }
  }

  /** One reserve from good books leaves good books exactly if its cents are not negative
      and their sum with the counter does not wrap, or if it is refused by such a limit. */
  lemma ReserveKeepsIff(e: Env, s: Sys, op: nat, h: Hold)
    requires Inv(e, s) && Enabled(e, s, Reserve(op, h))
    ensures Inv(e, Apply(e, s, Reserve(op, h))) <==>
            (0 <= Cents(e, h) && Get(s.counter, KeyOf(e, h)) + Cents(e, h) < TWO_63) || Refused(e, h)
  {
    if Fits(e, s, h) {
      ReserveKeeps(e, s, Reserve(op, h));
    } else if Refused(e, h) {
      CounterCovers(e, s, KeyOf(e, h));
      assert Apply(e, s, Reserve(op, h)) == s;
    } else if Cents(e, h) < 0 {
      NegativeReserveBreaks(e, s, op, h);
    } else {
      WrappedReserveBreaks(e, s, op, h);
    }
  }

  /** Books in which nothing is on the ledger and faults have used up the limit of k. */
  function UsedUp(e: Env, k: string): Sys { EMPTY.(counter := map[k := Cap(e, k)], drift := map[k := Cap(e, k)]) }

  lemma UsedUpInv(e: Env, key: string)
    requires EnvOk(e)
    ensures Inv(e, UsedUp(e, key))
  {
    var s := UsedUp(e, key);
    forall k ensures Balance(e, s, k) && 0 <= Slack(e, s, k) {
      assert Counted(e, s.ledger, s.settled, k) == map[] && Spend(e, s.ledger, k) == map[];
      assert InFlight(e, s.ops, k) == map[];
    }
  }

  ghost predicate AlwaysKeeps(e: Env, h: Hold)
    requires h.state.Held? && e.cents(h.amount).Some?
  {
    forall s, op :: Inv(e, s) && op !in s.ops ==> Inv(e, Apply(e, s, Reserve(op, h)))
  }

  /** A reserve is safe from whatever good books it starts exactly if its cents are not
      negative and limit plus cents stays below 2^63, or a still more negative limit
      refuses it: a condition on the request alone. */
  lemma ReserveAlwaysKeepsIff(e: Env, h: Hold)
    requires EnvOk(e) && h.state.Held? && e.cents(h.amount).Some?
    ensures AlwaysKeeps(e, h) <==> InRange(e, h) || Refused(e, h)
  {
    if InRange(e, h) || Refused(e, h) {
      forall s, op | Inv(e, s) && op !in s.ops ensures Inv(e, Apply(e, s, Reserve(op, h))) {
        assert Get(s.counter, KeyOf(e, h)) <= Cap(e, KeyOf(e, h));
        ReserveKeepsIff(e, s, op, h);
      }
    } else {
      var s := UsedUp(e, KeyOf(e, h));
      UsedUpInv(e, KeyOf(e, h));
      ReserveKeepsIff(e, s, 0, h);
    }
  }

  /** Amounts are read the way the service reads them. */
  ghost predicate ReadsCents(e: Env) { forall a :: e.cents(a) == Money.ToCents(a) }

  /** On the text of the amount: cents are in range and are 100 times the decimal exactly
      if limit plus that product is below 2^63. */
  lemma AmountInRangeIff(e: Env, h: Hold)
    requires EnvOk(e) && ReadsCents(e) && e.cents(h.amount).Some?
    requires Money.PlainDecimal(h.amount) && |Money.FracPart(h.amount)| <= 2
    ensures InRange(e, h) && Cents(e, h) as real == 100.0 * Money.RatValue(h.amount)
        <==> Cap(e, KeyOf(e, h)) as real + 100.0 * Money.RatValue(h.amount) < TWO_63 as real
  {
    Money.ToCentsExactness(h.amount);
    Money.ExactCentsIsRational(h.amount);
    assert Cents(e, h) as real == 100.0 * Money.RatValue(h.amount) ==> Cents(e, h) == Money.ExactCents(h.amount);
    assert (Cap(e, KeyOf(e, h)) + Money.ExactCents(h.amount)) as real
        == Cap(e, KeyOf(e, h)) as real + 100.0 * Money.RatValue(h.amount);
  }

  ghost predicate FaultFree(ss: seq<Sys>, ts: seq<Step>)
    requires |ss| == |ts| + 1
  {
    forall i :: 0 <= i < |ts| ==> !Faulty(ss[i], ts[i])
  }

  /** One more step. */
  lemma Then(e: Env, ss: seq<Sys>, ts: seq<Step>, t: Step) returns (ss': seq<Sys>, ts': seq<Step>, s': Sys)
    requires Steps(e, ss, ts) && Enabled(e, ss[|ts|], t)
    ensures s' == Apply(e, ss[|ts|], t) && ss' == ss + [s'] && ts' == ts + [t] && Steps(e, ss', ts')
    ensures FaultFree(ss, ts) && !Faulty(ss[|ts|], t) ==> FaultFree(ss', ts')
  {
    s' := Apply(e, ss[|ts|], t);
    ss', ts' := ss + [s'], ts + [t];
    forall i: nat | i < |ts'| ensures StepAt(e, ss', ts', i) {
      if i < |ts| { assert StepAt(e, ss, ts, i); }
    }
  }

  /** One more tame step. */
  lemma TameThen(e: Env, ss: seq<Sys>, ts: seq<Step>, t: Step) returns (ss': seq<Sys>, ts': seq<Step>, s': Sys)
    requires Steps(e, ss, ts) && TameRun(e, ss, ts, |ts|) && Enabled(e, ss[|ts|], t) && Tame(e, ss[|ts|], t)
    ensures s' == Apply(e, ss[|ts|], t) && ss' == ss + [s'] && ts' == ts + [t]
    ensures Steps(e, ss', ts') && TameRun(e, ss', ts', |ts'|)
  {
    ss', ts', s' := Then(e, ss, ts, t);
    forall n: nat | n < |ts'| ensures TameAt(e, ss', ts', n) { assert n < |ts| ==> TameAt(e, ss, ts, n); }
  }

  lemma NoFaultStep(e: Env, s: Sys, t: Step, k: string)
    requires Enabled(e, s, t) && !Faulty(s, t)
    ensures Get(Apply(e, s, t).drift, k) == Get(s.drift, k) || Get(Apply(e, s, t).drift, k) == 0
  {
    if LedgerStep(t) { LedgerStepShape(e, s, t); }
  }

  lemma {:induction false} NoFaultNoDrift(e: Env, ss: seq<Sys>, ts: seq<Step>, i: nat, k: string)
    requires Run(e, ss, ts) && FaultFree(ss, ts) && i < |ss|
    ensures Get(ss[i].drift, k) == 0
  {
    if i > 0 {
      NoFaultNoDrift(e, ss, ts, i - 1, k);
      assert StepAt(e, ss, ts, i - 1) && !Faulty(ss[i - 1], ts[i - 1]);
      NoFaultStep(e, ss[i - 1], ts[i - 1], k);
    }
  }

  /** Conservation: in a run without lost replies, lost operations or reused decision
      ids, whenever nothing is in flight a counter equals the window's spend plus the
      holds that expired in place; and with the SQL ledger there are none of those. */
  lemma Conservation(e: Env, ss: seq<Sys>, ts: seq<Step>, i: nat, k: string)
    requires EnvOk(e) && Run(e, ss, ts) && FaultFree(ss, ts) && i < |ss| && TameRun(e, ss, ts, i) && ss[i].ops == map[]
    ensures Get(ss[i].counter, k) ==
            Sum(Spend(e, ss[i].ledger, k)) + Sum(Leaked(e, ss[i].ledger, ss[i].settled, k))
    ensures e.kind.Postgres? ==> Get(ss[i].counter, k) == Sum(Spend(e, ss[i].ledger, k))
  {
    var s := ss[i];
    RunInvariant(e, ss, ts, i);
    NoFaultNoDrift(e, ss, ts, i, k);
    assert Balance(e, s, k);
    assert InFlight(e, s.ops, k) == map[];
    SpendIsCountedMinusLeaked(e, s.ledger, s.settled, k);
    if e.kind.Postgres? { SumZero(Leaked(e, s.ledger, s.settled, k)); }
  }

  // ----- what capture, void and expiry do -----

  /** A payment that succeeds while its hold is held captures it, stamped with now, and
      changes nothing else. The SQL statement looks at the state alone; the in-memory
      ledger lets a hold past its expiry expire instead. Ended holds stay as they are. */
  lemma CaptureStepMeans(e: Env, s: Sys, r: HoldRef, now: int)
    requires r in s.ledger
    ensures var h, s' := s.ledger[r], Apply(e, s, Capture(r, now));
            && (h.state == Held && (e.kind == InMemory ==> !Due(h, now)) ==>
                  s' == s.(ledger := s.ledger[r := h.(state := Captured, capturedAt := Some(now))]))
            && (h.state == Held && e.kind == InMemory && Due(h, now) ==>
                  s' == s.(ledger := s.ledger[r := h.(state := Expired)]))
            && (h.state != Held ==> s' == s)
  {
    CaptureCases(s.ledger, r, now);
  }

  /** A void of a held hold voids it and owes the release of its cents to its counter,
      and so does the expiry of a due one. */
  lemma VoidStepMeans(e: Env, s: Sys, r: HoldRef, now: int, op: nat)
    requires r in s.ledger && op !in s.ops && s.ledger[r].state == Held && (e.kind == InMemory ==> !Due(s.ledger[r], now))
    ensures var h, s' := s.ledger[r], Apply(e, s, Void(r, now, op));
            && s'.ledger == s.ledger[r := h.(state := Voided, voidedAt := Some(now))] && s'.counter == s.counter
            && s'.ops == s.ops[op := Releasing(e.key(h.orgId, h.budgetId, h.windowKey), Cents(e, h))]
  {
    VoidCases(s.ledger, r, now);
  }

  lemma ExpireStepMeans(e: Env, s: Sys, r: HoldRef, now: int, op: nat)
    requires r in s.ledger && op !in s.ops && Due(s.ledger[r], now)
    ensures var h, s' := s.ledger[r], Apply(e, s, Expire(r, now, op));
            && s'.ledger == s.ledger[r := h.(state := Expired)] && s'.counter == s.counter
            && s'.ops == s.ops[op := Releasing(e.key(h.orgId, h.budgetId, h.windowKey), Cents(e, h))]
  {
  }

  /** A void that meets an expired hold still voids it, and owes nothing. */
  lemma VoidExpiredStepMeans(e: Env, s: Sys, r: HoldRef, now: int, op: nat)
    requires r in s.ledger && op !in s.ops && s.ledger[r].state == Expired
    ensures var t := if e.kind == InMemory then Void(r, now, op) else VoidExpired(r, now);
            Apply(e, s, t) == s.(ledger := s.ledger[r := s.ledger[r].(state := Voided, voidedAt := Some(now))])
  {
    VoidCases(s.ledger, r, now);
  }

  /** A completed payment is for good: from its capture on, over any run, the hold is
      captured, counts as spent, and is never due. */
  lemma CapturedForGood(e: Env, ss: seq<Sys>, ts: seq<Step>, i: nat, j: nat, r: HoldRef, k: string, now: int)
    requires EnvOk(e) && Run(e, ss, ts) && i <= j < |ss| && r in ss[i].ledger && ss[i].ledger[r].state == Captured
    ensures r in ss[j].ledger && ss[j].ledger[r].state == Captured && ss[j].ledger[r].amount == ss[i].ledger[r].amount
    ensures !Due(ss[j].ledger[r], now)
    ensures KeyOf(e, ss[i].ledger[r]) == k ==> Spend(e, ss[j].ledger, k)[r] == Cents(e, ss[i].ledger[r])
  {
    HistoryAdvances(e, ss, ts, i, j);
  }

  /** A hold that has ended is never due again, so no later ExpireDue returns it. */
  lemma EndedNeverDue(e: Env, ss: seq<Sys>, ts: seq<Step>, i: nat, j: nat, r: HoldRef, now: int)
    requires Run(e, ss, ts) && i <= j < |ss|
    requires r in ss[i].ledger && !Active(ss[i].ledger[r].state)
    ensures r in ss[j].ledger && !Due(ss[j].ledger[r], now)
  {
    HistoryAdvances(e, ss, ts, i, j);
  }

  lemma LedgerStepAdvances(e: Env, s: Sys, t: Step)
    requires Enabled(e, s, t) && LedgerStep(t)
    ensures Advances(s.ledger, Apply(e, s, t).ledger)
  {
    LedgerStepShape(e, s, t);
    var l' := Apply(e, s, t).ledger;
    if t.ref in s.ledger && l' != s.ledger { AdvanceOne(s.ledger, t.ref, l'[t.ref]); }
  }

  lemma StepAdvances(e: Env, s: Sys, t: Step)
    requires Enabled(e, s, t)
    ensures Advances(s.ledger, Apply(e, s, t).ledger)
  {
    if LedgerStep(t) { LedgerStepAdvances(e, s, t); } else { OtherStepLedger(e, s, t); }
  }

  /** Over any stretch of a run holds are never removed or altered, nothing re-enters
      held, and captured stays captured. */
  lemma HistoryAdvances(e: Env, ss: seq<Sys>, ts: seq<Step>, i: nat, j: nat)
    requires Run(e, ss, ts) && i <= j < |ss|
    ensures Advances(ss[i].ledger, ss[j].ledger)
  {
    var ls := seq(|ss|, n requires 0 <= n < |ss| => ss[n].ledger);
    forall n | 0 <= n < |ts| ensures Advances(ls[n], ls[n + 1]) { assert StepAt(e, ss, ts, n); StepAdvances(e, ss[n], ts[n]); }
    AdvancesAlong(ls, i, j);
  }

  /** Step i of the run ends hold r and hands its release to an operation. */
  ghost predicate Releases(e: Env, ss: seq<Sys>, ts: seq<Step>, i: nat, r: HoldRef)
    requires Run(e, ss, ts)
  {
    i < |ts| && (ts[i].Void? || ts[i].Expire?) && HandsOut(e, ss[i], r, ts[i].op, ss[i + 1])
  }

  /** Exactly-once release: over any run, with repeats, races and every fault, each hold is released
      by at most one step, and a hold that is ever captured by none. */
  lemma ExactlyOnceRelease(e: Env, ss: seq<Sys>, ts: seq<Step>, r: HoldRef)
    requires EnvOk(e) && Run(e, ss, ts)
    ensures forall i: nat, j: nat :: Releases(e, ss, ts, i, r) && Releases(e, ss, ts, j, r) ==> i == j
    ensures forall i: nat, j: nat :: Releases(e, ss, ts, i, r) && j < |ss| && r in ss[j].ledger ==>
              !ss[j].ledger[r].state.Captured?
  {
    forall i: nat, j: nat | Releases(e, ss, ts, i, r) && Releases(e, ss, ts, j, r) ensures i == j {
      if i < j { HistoryAdvances(e, ss, ts, i + 1, j); }
      if j < i { HistoryAdvances(e, ss, ts, j + 1, i); }
    }
    forall i: nat, j: nat | Releases(e, ss, ts, i, r) && j < |ss| && r in ss[j].ledger
      ensures !ss[j].ledger[r].state.Captured?
    {
      if i < j { HistoryAdvances(e, ss, ts, i + 1, j); } else { HistoryAdvances(e, ss, ts, j, i); }
    }
  }

  /** The production key never lets two windows share a counter when ids have no ':'. */
  lemma ProductionKeyUnshared(e: Env, l: Ledger, o: string, b: string, w: string)
    requires e.key == ((o: string, b: string, w: string) => CounterKey(o, b, w))
    requires ':' !in o && ':' !in b && ':' !in w
    ensures Unshared(e, l, o, b, w)
  {
    forall r | r in l && KeyOf(e, l[r]) == e.key(o, b, w)
      ensures (l[r].orgId, l[r].budgetId, l[r].windowKey) == (o, b, w)
    {
      CounterKeyInjective(o, b, w, l[r].orgId, l[r].budgetId, l[r].windowKey);
    }
  }
}
