/** Rebuilding a window's counter from the ledger (internal/budget/reconcile.go). The code
    lists the holds and then sets the counter; anything may happen between the two. */
module BudgetRebuild {
  import opened Base
  import opened Sums
  import opened Holds
  import opened BudgetProtocol
  import opened BudgetTheorems

  // ----- what flows in and out of a window's spend -----

  predicate PlacesHold(s: Sys, t: Step) {
    (t.PlaceOk? || t.PlaceLost?) && t.op in s.ops && s.ops[t.op].Reserving? && RefOf(s.ops[t.op].hold) !in s.ledger
  }

  /** A void or an expiry of a held hold ends it, and so does any other access to a hold
      past its expiry when the ledger writes the expiry back. */
  predicate EndsHold(e: Env, s: Sys, t: Step) {
    && LedgerStep(t) && t.ref in s.ledger && s.ledger[t.ref].state.Held?
    && (t.Expire? || t.Void? || ((t.Read? || t.Capture?) && e.kind.InMemory? && Due(s.ledger[t.ref], t.now)))
  }

  /** The cents of counter k that step t puts on the ledger, and that it ends. */
  function PlacedAt(e: Env, s: Sys, t: Step, k: string): int {
    if PlacesHold(s, t) && KeyOf(e, s.ops[t.op].hold) == k then Cents(e, s.ops[t.op].hold) else 0
  }

  function EndedAt(e: Env, s: Sys, t: Step, k: string): int {
    if EndsHold(e, s, t) && KeyOf(e, s.ledger[t.ref]) == k then Cents(e, s.ledger[t.ref]) else 0
  }

  /** What a ledger step does to its own row: same reservation, ended exactly by the guard
      of EndsHold. */
  lemma LedgerStepRow(e: Env, s: Sys, t: Step)
    requires LedgerStep(t) && Enabled(e, s, t) && t.ref in s.ledger
    ensures var l := Apply(e, s, t).ledger;
            && t.ref in l && l == s.ledger[t.ref := l[t.ref]] && SameReservation(s.ledger[t.ref], l[t.ref])
            && (Active(l[t.ref].state) <==> Active(s.ledger[t.ref].state) && !EndsHold(e, s, t))
  {
    LedgerStepShape(e, s, t);
  }

  lemma LedgerStepMissing(e: Env, s: Sys, t: Step)
    requires LedgerStep(t) && Enabled(e, s, t) && t.ref !in s.ledger
    ensures Apply(e, s, t).ledger == s.ledger
  {
    LedgerStepShape(e, s, t);
  }

  /** What is about to be placed is held. */
  ghost predicate HeldOps(s: Sys) { forall o :: o in s.ops && s.ops[o].Reserving? ==> s.ops[o].hold.state.Held? }

  lemma HeldOpsStep(e: Env, s: Sys, t: Step)
    requires HeldOps(s) && Enabled(e, s, t)
    ensures HeldOps(Apply(e, s, t))
  {
    if LedgerStep(t) { LedgerStepShape(e, s, t); }
  }

  lemma {:induction false} RunHeldOps(e: Env, ss: seq<Sys>, ts: seq<Step>, i: nat)
    requires Run(e, ss, ts) && i < |ss|
    ensures HeldOps(ss[i])
  {
    if i > 0 {
      RunHeldOps(e, ss, ts, i - 1);
      assert StepAt(e, ss, ts, i - 1);
      HeldOpsStep(e, ss[i - 1], ts[i - 1]);
    }
  }

  lemma PlaceSpends(e: Env, s: Sys, t: Step, k: string)
    requires HeldOps(s) && Enabled(e, s, t) && PlacesHold(s, t)
    ensures Sum(Spend(e, Apply(e, s, t).ledger, k)) == Sum(Spend(e, s.ledger, k)) + PlacedAt(e, s, t, k)
  {
    var h, l := s.ops[t.op].hold, Apply(e, s, t).ledger;
    assert l == s.ledger[RefOf(h) := l[RefOf(h)]];
    SpendUpdate(e, s.ledger, RefOf(h), l[RefOf(h)], k);
  }

  lemma SpendStep(e: Env, s: Sys, t: Step, k: string)
    requires HeldOps(s) && Enabled(e, s, t)
    ensures Sum(Spend(e, Apply(e, s, t).ledger, k)) == Sum(Spend(e, s.ledger, k)) + PlacedAt(e, s, t, k) - EndedAt(e, s, t, k)
  {
    var l := Apply(e, s, t).ledger;
    if LedgerStep(t) {
      if t.ref in s.ledger {
        LedgerStepRow(e, s, t);
        SpendUpdate(e, s.ledger, t.ref, l[t.ref], k);
      } else {
        LedgerStepMissing(e, s, t);
      }
    } else if PlacesHold(s, t) {
      PlaceSpends(e, s, t, k);
    } else {
      OtherStepLedger(e, s, t);
    }
  }

  /** The cents placed on counter k, and ended on it, by the steps from i to j. */
  function PlacedDuring(e: Env, ss: seq<Sys>, ts: seq<Step>, i: nat, j: nat, k: string): int
    requires i <= j <= |ts| <= |ss|
    decreases j
  {
    if i == j then 0 else PlacedDuring(e, ss, ts, i, j - 1, k) + PlacedAt(e, ss[j - 1], ts[j - 1], k)
  }

  function EndedDuring(e: Env, ss: seq<Sys>, ts: seq<Step>, i: nat, j: nat, k: string): int
    requires i <= j <= |ts| <= |ss|
    decreases j
  {
    if i == j then 0 else EndedDuring(e, ss, ts, i, j - 1, k) + EndedAt(e, ss[j - 1], ts[j - 1], k)
  }

  /** Spend is conserved: what a window holds at j is what it held at i, plus what was
      placed, less what ended. This is true of every run, faults and all. */
  lemma {:induction false} SpendFlow(e: Env, ss: seq<Sys>, ts: seq<Step>, i: nat, j: nat, k: string)
    requires Run(e, ss, ts) && i <= j < |ss|
    ensures Sum(Spend(e, ss[j].ledger, k)) ==
            Sum(Spend(e, ss[i].ledger, k)) + PlacedDuring(e, ss, ts, i, j, k) - EndedDuring(e, ss, ts, i, j, k)
    decreases j
  {
    if i < j {
      SpendFlow(e, ss, ts, i, j - 1, k);
      RunHeldOps(e, ss, ts, j - 1);
      assert StepAt(e, ss, ts, j - 1);
      SpendStep(e, ss[j - 1], ts[j - 1], k);
    }
  }

  // ----- the rebuild -----

  /** A rebuild of a quiet window, list and set in one, makes the counter equal the
      ledger's spend. */
  lemma RebuildRestores(e: Env, s: Sys, o: string, b: string, w: string)
    requires Inv(e, s) && Enabled(e, s, Rebuild(o, b, w))
    ensures var s' := Apply(e, s, Rebuild(o, b, w));
            && Get(s'.counter, e.key(o, b, w)) == Sum(Spend(e, s'.ledger, e.key(o, b, w)))
            && s'.ledger == s.ledger
            && forall k :: k != e.key(o, b, w) ==> Get(s'.counter, k) == Get(s.counter, k)
  {
    ListedFits(e, s, o, b, w);
  }

  /** A rebuild that lists at moment i and sets at moment j writes a value that covers
      what is spent and owed at j exactly if the cents placed in between and those in
      flight at j do not exceed the cents that ended in between. */
  lemma RebuildCoversIff(e: Env, ss: seq<Sys>, ts: seq<Step>, i: nat, j: nat, o: string, b: string, w: string)
    requires Run(e, ss, ts) && i <= j < |ss| && Unshared(e, ss[i].ledger, o, b, w)
    ensures var k := e.key(o, b, w);
            Sum(Spend(e, ss[j].ledger, k)) + Sum(InFlight(e, ss[j].ops, k)) <= Sum(Listed(e, ss[i].ledger, o, b, w))
            <==> PlacedDuring(e, ss, ts, i, j, k) + Sum(InFlight(e, ss[j].ops, k)) <= EndedDuring(e, ss, ts, i, j, k)
  {
    ListedIsSpend(e, ss[i].ledger, o, b, w);
    SpendFlow(e, ss, ts, i, j, e.key(o, b, w));
  }

  /** The books after counter k was set to v. */
  ghost function SetTo(e: Env, s: Sys, k: string, v: int): Sys {
    s.(counter := s.counter[k := v],
       drift := s.drift[k := v - Sum(Spend(e, s.ledger, k)) - Sum(InFlight(e, s.ops, k))],
       settled := s.settled + EndedOn(e, s.ledger, k))
  }

  lemma SetBalances(e: Env, s: Sys, key: string, v: int, k: string)
    requires Balance(e, s, k)
    ensures Balance(e, SetTo(e, s, key, v), k)
  {
    SettleCounted(e, s.ledger, s.settled, key, k);
  }

  lemma SetKeepsIff(e: Env, s: Sys, key: string, v: int)
    requires Inv(e, s) && v <= Cap(e, key)
    ensures Inv(e, SetTo(e, s, key, v)) <==> Sum(Spend(e, s.ledger, key)) + Sum(InFlight(e, s.ops, key)) <= v
  {
    var s' := SetTo(e, s, key, v);
    assert Orderly(e, s');
    forall k ensures Balance(e, s', k) {
      assert Balance(e, s, k);
      SetBalances(e, s, key, v, k);
    }
    assert Slack(e, s', key) == v - Sum(Spend(e, s.ledger, key)) - Sum(InFlight(e, s.ops, key));
    forall k | k != key ensures Slack(e, s', k) == Slack(e, s, k) && Get(s'.counter, k) == Get(s.counter, k) {}
  }

  /** So the code's list-then-set leaves good books, from which no oversell follows,
      under exactly the same condition. */
  lemma RebuildKeepsIff(e: Env, ss: seq<Sys>, ts: seq<Step>, i: nat, j: nat, o: string, b: string, w: string)
    requires EnvOk(e) && Run(e, ss, ts) && i <= j < |ss| && TameRun(e, ss, ts, j) && Unshared(e, ss[i].ledger, o, b, w)
    ensures var k := e.key(o, b, w);
            Inv(e, SetTo(e, ss[j], k, Wrap64(Sum(Listed(e, ss[i].ledger, o, b, w)))))
            <==> PlacedDuring(e, ss, ts, i, j, k) + Sum(InFlight(e, ss[j].ops, k)) <= EndedDuring(e, ss, ts, i, j, k)
  {
    RunInvariant(e, ss, ts, i);
    RunInvariant(e, ss, ts, j);
    ListedFits(e, ss[i], o, b, w);
    SetKeepsIff(e, ss[j], e.key(o, b, w), Sum(Listed(e, ss[i].ledger, o, b, w)));
    RebuildCoversIff(e, ss, ts, i, j, o, b, w);
  }
}
