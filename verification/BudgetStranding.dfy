/** The in-memory ledger writes an expiry back when it merely looks at a hold
    (internal/hold/hold.go, resolve), and nobody releases the cents of such a hold. */
module BudgetStranding {
  import opened Base
  import opened Sums
  import opened Holds
  import opened BudgetProtocol
  import opened BudgetTheorems

  /** Step t looks at hold r after its expiry, through a ledger that writes this back. */
  predicate ReadsPastExpiry(e: Env, s: Sys, t: Step, r: HoldRef) {
    && e.kind.InMemory? && (t.Read? || t.Capture? || t.Void?)
    && t.ref == r && r in s.ledger && Due(s.ledger[r], t.now)
  }

  predicate Rebuilds(e: Env, t: Step, k: string) { t.Rebuild? && e.key(t.org, t.budget, t.windowKey) == k }

  /** An ended hold whose cents still weigh on counter k. */
  predicate Stranded(e: Env, s: Sys, r: HoldRef, k: string) {
    r in s.ledger && KeyOf(e, s.ledger[r]) == k && !Active(s.ledger[r].state) && r !in s.settled
  }

  /** One step strands a hold exactly by reading it past its expiry, and only a rebuild of
      its counter frees it again. */
  lemma StrandStep(e: Env, s: Sys, t: Step, r: HoldRef, k: string)
    requires Orderly(e, s) && Enabled(e, s, t)
    ensures Stranded(e, Apply(e, s, t), r, k) <==>
            || (Stranded(e, s, r, k) && !Rebuilds(e, t, k))
            || (ReadsPastExpiry(e, s, t, r) && KeyOf(e, s.ledger[r]) == k)
  {
    if LedgerStep(t) {
      StrandLedgerStep(e, s, t, r, k);
    } else if t.PlaceOk? || t.PlaceLost? {
      StrandPlaceStep(e, s, t, r, k);
    } else if t.Rebuild? {
      StrandRebuildStep(e, s, t, r, k);
    } else {
      OtherStepLedger(e, s, t);
    }
  }

  lemma StrandPlaceStep(e: Env, s: Sys, t: Step, r: HoldRef, k: string)
    requires Orderly(e, s) && Enabled(e, s, t) && (t.PlaceOk? || t.PlaceLost?)
    ensures Stranded(e, Apply(e, s, t), r, k) <==> Stranded(e, s, r, k)
  {
    OtherStepLedger(e, s, t);
  }

  lemma StrandRebuildStep(e: Env, s: Sys, t: Step, r: HoldRef, k: string)
    requires Enabled(e, s, t) && t.Rebuild?
    ensures Stranded(e, Apply(e, s, t), r, k) <==> Stranded(e, s, r, k) && !Rebuilds(e, t, k)
  {
    var s', key := Apply(e, s, t), e.key(t.org, t.budget, t.windowKey);
    assert s'.ledger == s.ledger && s'.settled == s.settled + EndedOn(e, s.ledger, key);
  }

  /** Whether the step hands the release of its hold out; if not, only the row moved. */
  lemma StrandLedgerStep(e: Env, s: Sys, t: Step, r: HoldRef, k: string)
    requires Orderly(e, s) && Enabled(e, s, t) && LedgerStep(t)
    ensures Stranded(e, Apply(e, s, t), r, k) <==>
            Stranded(e, s, r, k) || (ReadsPastExpiry(e, s, t, r) && KeyOf(e, s.ledger[r]) == k)
  {
    var s' := Apply(e, s, t);
    LedgerStepShape(e, s, t);
    if r != t.ref {
      assert r in s'.ledger <==> r in s.ledger;
    } else if t.Expire? {
      ExpireShape(e, s, t);
    } else if t.Void? {
      StrandVoid(e, s, t, k);
    } else {
      StrandRead(e, s, t, k);
    }
  }

  /** The ledger moved one row and nothing else changed. */
  lemma StrandRow(e: Env, s: Sys, r: HoldRef, row: Hold, k: string)
    requires Orderly(e, s) && r in s.ledger && SameReservation(s.ledger[r], row)
    ensures Stranded(e, s.(ledger := s.ledger[r := row]), r, k) <==>
            KeyOf(e, s.ledger[r]) == k && !Active(row.state) && r !in s.settled
    ensures Active(s.ledger[r].state) ==> r !in s.settled
  {
  }

  lemma StrandVoid(e: Env, s: Sys, t: Step, k: string)
    requires Orderly(e, s) && Enabled(e, s, t) && t.Void?
    ensures Stranded(e, Apply(e, s, t), t.ref, k) <==>
            Stranded(e, s, t.ref, k) || (ReadsPastExpiry(e, s, t, t.ref) && KeyOf(e, s.ledger[t.ref]) == k)
  {
    if t.ref in s.ledger && e.kind.InMemory? {
      var (l, reply) := MemVoid(s.ledger, t.ref, t.now);
      MemVoidRow(s.ledger, t.ref, t.now);
      StrandRow(e, s, t.ref, l[t.ref], k);
    }
  }

  lemma StrandRead(e: Env, s: Sys, t: Step, k: string)
    requires Orderly(e, s) && Enabled(e, s, t) && (t.Read? || t.Capture? || t.VoidExpired?)
    ensures Stranded(e, Apply(e, s, t), t.ref, k) <==>
            Stranded(e, s, t.ref, k) || (ReadsPastExpiry(e, s, t, t.ref) && KeyOf(e, s.ledger[t.ref]) == k)
  {
    match t
    case Read(r, now) => StrandGet(e, s, r, now, k);
    case Capture(r, now) => StrandCapture(e, s, r, now, k);
    case VoidExpired(r, now) => StrandVoidExpired(e, s, r, now, k);
  }

  lemma StrandGet(e: Env, s: Sys, r: HoldRef, now: int, k: string)
    requires Orderly(e, s)
    ensures Stranded(e, Apply(e, s, Read(r, now)), r, k) <==>
            Stranded(e, s, r, k) || (ReadsPastExpiry(e, s, Read(r, now), r) && KeyOf(e, s.ledger[r]) == k)
  {
    if r in s.ledger { StrandRow(e, s, r, Effective(s.ledger[r], now), k); }
  }

  lemma StrandCapture(e: Env, s: Sys, r: HoldRef, now: int, k: string)
    requires Orderly(e, s)
    ensures Stranded(e, Apply(e, s, Capture(r, now)), r, k) <==>
            Stranded(e, s, r, k) || (ReadsPastExpiry(e, s, Capture(r, now), r) && KeyOf(e, s.ledger[r]) == k)
  {
    if r in s.ledger { StrandRow(e, s, r, Apply(e, s, Capture(r, now)).ledger[r], k); }
  }

  lemma StrandVoidExpired(e: Env, s: Sys, r: HoldRef, now: int, k: string)
    requires Orderly(e, s) && e.kind.Postgres?
    ensures Stranded(e, Apply(e, s, VoidExpired(r, now)), r, k) <==> Stranded(e, s, r, k)
  {
    if r in s.ledger { StrandRow(e, s, r, Apply(e, s, VoidExpired(r, now)).ledger[r], k); }
  }

  /** Step n of the run strands hold r of counter k, and no rebuild of k follows before i. */
  ghost predicate StrandsUntil(e: Env, ss: seq<Sys>, ts: seq<Step>, n: nat, i: nat, r: HoldRef, k: string)
    requires |ss| == |ts| + 1 && i < |ss|
  {
    && n < i && ReadsPastExpiry(e, ss[n], ts[n], r) && KeyOf(e, ss[n].ledger[r]) == k
    && forall m :: n < m < i ==> !Rebuilds(e, ts[m], k)
  }

  lemma StrandNext(e: Env, ss: seq<Sys>, ts: seq<Step>, i: nat, r: HoldRef, k: string)
    requires EnvOk(e) && Run(e, ss, ts) && i < |ts| && TameRun(e, ss, ts, i)
    ensures Stranded(e, ss[i + 1], r, k) <==>
            || (Stranded(e, ss[i], r, k) && !Rebuilds(e, ts[i], k))
            || (ReadsPastExpiry(e, ss[i], ts[i], r) && KeyOf(e, ss[i].ledger[r]) == k)
  {
    RunInvariant(e, ss, ts, i);
    assert StepAt(e, ss, ts, i);
    StrandStep(e, ss[i], ts[i], r, k);
  }

  lemma {:induction false} StrandedSince(e: Env, ss: seq<Sys>, ts: seq<Step>, i: nat, r: HoldRef, k: string) returns (n: nat)
    requires EnvOk(e) && Run(e, ss, ts) && i < |ss| && TameRun(e, ss, ts, i) && Stranded(e, ss[i], r, k)
    ensures StrandsUntil(e, ss, ts, n, i, r, k)
  {
    StrandNext(e, ss, ts, i - 1, r, k);
    if Stranded(e, ss[i - 1], r, k) && !Rebuilds(e, ts[i - 1], k) {
      n := StrandedSince(e, ss, ts, i - 1, r, k);
      StrandsLonger(e, ss, ts, n, i - 1, r, k);
    } else {
      n := i - 1;
    }
  }

  lemma {:induction false} StrandingLasts(e: Env, ss: seq<Sys>, ts: seq<Step>, n: nat, i: nat, r: HoldRef, k: string)
    requires EnvOk(e) && Run(e, ss, ts) && i < |ss| && TameRun(e, ss, ts, i) && StrandsUntil(e, ss, ts, n, i, r, k)
    ensures Stranded(e, ss[i], r, k)
    decreases i
  {
    StrandNext(e, ss, ts, i - 1, r, k);
    if n < i - 1 {
      StrandsLonger(e, ss, ts, n, i - 1, r, k);
      StrandingLasts(e, ss, ts, n, i - 1, r, k);
    }
  }

  /** The holds whose cents a counter carries for nothing are exactly those that a read, a
      capture or a void met past their expiry, with no rebuild of the counter since. */
  lemma StrandedIff(e: Env, ss: seq<Sys>, ts: seq<Step>, i: nat, r: HoldRef, k: string)
    requires EnvOk(e) && Run(e, ss, ts) && i < |ss| && TameRun(e, ss, ts, i)
    ensures Stranded(e, ss[i], r, k) <==> exists n: nat :: StrandsUntil(e, ss, ts, n, i, r, k)
  {
    if Stranded(e, ss[i], r, k) {
      var n := StrandedSince(e, ss, ts, i, r, k);
    } else if n: nat :| StrandsUntil(e, ss, ts, n, i, r, k) {
      StrandingLasts(e, ss, ts, n, i, r, k);
    }
  }

  lemma StrandsLonger(e: Env, ss: seq<Sys>, ts: seq<Step>, n: nat, i: nat, r: HoldRef, k: string)
    requires |ss| == |ts| + 1 && n < i < |ts|
    ensures StrandsUntil(e, ss, ts, n, i + 1, r, k) <==> StrandsUntil(e, ss, ts, n, i, r, k) && !Rebuilds(e, ts[i], k)
  {
  }

  /** At rest, in a run without faults, the in-memory counter is exact if and only if every
      such encounter was with a hold of zero cents or has been rebuilt over. */
  lemma InMemoryExactIff(e: Env, ss: seq<Sys>, ts: seq<Step>, i: nat, k: string)
    requires EnvOk(e) && e.kind.InMemory? && Run(e, ss, ts) && FaultFree(ss, ts)
    requires i < |ss| && TameRun(e, ss, ts, i) && ss[i].ops == map[]
    ensures Get(ss[i].counter, k) == Sum(Spend(e, ss[i].ledger, k)) <==>
            forall n: nat, r :: StrandsUntil(e, ss, ts, n, i, r, k) ==> Cents(e, ss[n].ledger[r]) == 0
  {
    var s := ss[i];
    var leaked := Leaked(e, s.ledger, s.settled, k);
    Conservation(e, ss, ts, i, k);
    RunInvariant(e, ss, ts, i);
    SumNonNegative(leaked);
    if Sum(leaked) == 0 {
      forall n: nat, r | StrandsUntil(e, ss, ts, n, i, r, k) ensures Cents(e, ss[n].ledger[r]) == 0 {
        StrandedWeighs(e, ss, ts, n, i, r, k);
        SumAtLeast(leaked, r);
      }
    }
    if forall n: nat, r :: StrandsUntil(e, ss, ts, n, i, r, k) ==> Cents(e, ss[n].ledger[r]) == 0 {
      forall r | r in leaked ensures leaked[r] == 0 {
        StrandedIff(e, ss, ts, i, r, k);
        if Stranded(e, s, r, k) {
          var n: nat :| StrandsUntil(e, ss, ts, n, i, r, k);
          StrandedWeighs(e, ss, ts, n, i, r, k);
        }
      }
      SumZero(leaked);
    }
  }

  lemma StrandedWeighs(e: Env, ss: seq<Sys>, ts: seq<Step>, n: nat, i: nat, r: HoldRef, k: string)
    requires EnvOk(e) && Run(e, ss, ts) && i < |ss| && TameRun(e, ss, ts, i) && StrandsUntil(e, ss, ts, n, i, r, k)
    ensures r in ss[i].ledger && Leaked(e, ss[i].ledger, ss[i].settled, k)[r] == Cents(e, ss[n].ledger[r])
  {
    StrandedIff(e, ss, ts, i, r, k);
    HistoryAdvances(e, ss, ts, n, i);
  }
}
