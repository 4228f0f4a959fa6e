/** No oversell in terms of the money that requests name, not of the cents they are
    read as. */
module BudgetMoney {
  import opened Base
  import opened Sums
  import opened Holds
  import opened BudgetProtocol
  import opened BudgetTheorems
  import Money

  // ----- what every reserve has, every hold has -----

  /** A property of an amount and the counter it goes to. */
  type Property = (string, string) -> bool

  predicate Has(e: Env, p: Property, h: Hold) { p(h.amount, KeyOf(e, h)) }

  ghost predicate AllHave(e: Env, p: Property, s: Sys) {
    && (forall r :: r in s.ledger ==> Has(e, p, s.ledger[r]))
    && (forall o :: o in s.ops && s.ops[o].Reserving? ==> Has(e, p, s.ops[o].hold))
  }

  predicate ReserveHas(e: Env, p: Property, t: Step) { t.Reserve? || t.ReserveLost? ==> Has(e, p, t.hold) }

  lemma HaveLedgerStep(e: Env, p: Property, s: Sys, t: Step)
    requires AllHave(e, p, s) && Enabled(e, s, t) && LedgerStep(t)
    ensures AllHave(e, p, Apply(e, s, t))
  {
    LedgerStepShape(e, s, t);
  }

  lemma HaveStep(e: Env, p: Property, s: Sys, t: Step)
    requires AllHave(e, p, s) && Enabled(e, s, t) && ReserveHas(e, p, t)
    ensures AllHave(e, p, Apply(e, s, t))
  {
    if LedgerStep(t) { HaveLedgerStep(e, p, s, t); } else { OtherStepLedger(e, s, t); }
  }

  lemma {:induction false} HoldsHaveWhatReservesHave(e: Env, p: Property, ss: seq<Sys>, ts: seq<Step>, i: nat)
    requires Run(e, ss, ts) && i < |ss| && forall n :: 0 <= n < i ==> ReserveHas(e, p, ts[n])
    ensures AllHave(e, p, ss[i])
  {
    if i > 0 {
      HoldsHaveWhatReservesHave(e, p, ss, ts, i - 1);
      assert StepAt(e, ss, ts, i - 1);
      HaveStep(e, p, ss[i - 1], ts[i - 1]);
    }
  }

  // ----- exact money -----

  /** A plain decimal with at most two places whose cents, on top of the cap, stay below
      2^63. */
  predicate ExactAmount(cap: int, amount: string) {
    && Money.PlainDecimal(amount) && |Money.FracPart(amount)| <= 2
    && cap as real + 100.0 * Money.RatValue(amount) < TWO_63 as real
  }

  function Exact(e: Env): Property { (amount: string, k: string) => ExactAmount(Cap(e, k), amount) }

  /** The cents an amount is worth, exactly. */
  function Worth(amount: string): int {
    if Money.PlainDecimal(amount) && |Money.FracPart(amount)| <= 2 then Money.ExactCents(amount) else 0
  }

  /** The holds of counter k that are held or captured, each at its value. */
  function Valued(e: Env, l: Ledger, k: string, value: string -> int): map<HoldRef, int> {
    map r | r in l :: if KeyOf(e, l[r]) == k && Active(l[r].state) then value(l[r].amount) else 0
  }

  lemma ValuedIsSpend(e: Env, l: Ledger, k: string, value: string -> int)
    requires forall r :: r in l ==> Cents(e, l[r]) == value(l[r].amount)
    ensures Valued(e, l, k, value) == Spend(e, l, k)
  {
  }

  lemma ExactIsInRange(e: Env, h: Hold)
    requires EnvOk(e) && ReadsCents(e) && ExactAmount(Cap(e, KeyOf(e, h)), h.amount)
    ensures InRange(e, h) && Cents(e, h) == Worth(h.amount)
    ensures Worth(h.amount) as real == 100.0 * Money.RatValue(h.amount)
  {
    Money.ExactCentsIsRational(h.amount);
    Money.CentsInRange(h.amount);
    AmountInRangeIff(e, h);
  }

  lemma ExactRunIsTame(e: Env, ss: seq<Sys>, ts: seq<Step>, i: nat)
    requires EnvOk(e) && ReadsCents(e) && Run(e, ss, ts) && i < |ss|
    requires forall n :: 0 <= n < i ==> ReserveHas(e, Exact(e), ts[n]) && (ts[n].PlaceLost? ==> Tame(e, ss[n], ts[n]))
    ensures TameRun(e, ss, ts, i)
  {
    forall n: nat | n < i ensures TameAt(e, ss, ts, n) {
      if ts[n].Reserve? || ts[n].ReserveLost? { ExactIsInRange(e, ts[n].hold); }
    }
  }

  /** The limits are read off the decimals the policy states. */
  ghost predicate ReadsLimits(e: Env, limit: string -> string) {
    forall k :: Money.PlainDecimal(limit(k)) && |Money.FracPart(limit(k))| <= 2 && Money.ToCents(limit(k)) == Some(e.limits(k))
  }

  /** A limit that wraps is read as less than it says, never as more. */
  lemma CapIsWithinText(e: Env, limit: string -> string, k: string)
    requires ReadsLimits(e, limit)
    ensures Cap(e, k) as real <= 100.0 * Money.RatValue(limit(k))
  {
    Money.ToCentsWraps(limit(k));
    Money.ExactCentsIsRational(limit(k));
    WrapsDown(Money.ExactCents(limit(k)));
  }

  lemma WrapsDown(x: nat)
    ensures Wrap64(x) <= x
  {
  }

  /** With the service's parser, if every reserve of a run names an amount that fits and
      no place is lost harmfully, the money held and captured on a counter, to the cent,
      never exceeds the limit the policy states, whatever that limit is read as. */
  lemma NoOversellMoney(e: Env, limit: string -> string, ss: seq<Sys>, ts: seq<Step>, i: nat, k: string)
    requires EnvOk(e) && ReadsCents(e) && ReadsLimits(e, limit) && Run(e, ss, ts) && i < |ss|
    requires forall n :: 0 <= n < i ==> ReserveHas(e, Exact(e), ts[n]) && (ts[n].PlaceLost? ==> Tame(e, ss[n], ts[n]))
    ensures Sum(Valued(e, ss[i].ledger, k, Worth)) as real <= 100.0 * Money.RatValue(limit(k))
  {
    ExactRunIsTame(e, ss, ts, i);
    NoOversell(e, ss, ts, i, k);
    HoldsHaveWhatReservesHave(e, Exact(e), ss, ts, i);
    forall r | r in ss[i].ledger ensures Cents(e, ss[i].ledger[r]) == Worth(ss[i].ledger[r].amount) {
      assert Has(e, Exact(e), ss[i].ledger[r]);
      ExactIsInRange(e, ss[i].ledger[r]);
    }
    ValuedIsSpend(e, ss[i].ledger, k, Worth);
    CapIsWithinText(e, limit, k);
  }
}
