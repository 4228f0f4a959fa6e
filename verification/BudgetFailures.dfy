/** Runs of the budget protocol, with the service's own keys and amounts, in which a
    promise fails: what the hypotheses of the theorems are there for. */
module BudgetFailures {
  import opened Base
  import opened Sums
  import opened Holds
  import opened Counter
  import opened BudgetProtocol
  import opened BudgetTheorems
  import RC = RedisCounter
  import opened BudgetRedis
  import Money

  /** The service's reading of keys and amounts, one limit for all counters. */
  function Production(kind: Kind, limit: int): Env {
    Env(kind, (k: string) => limit,
        (o: string, b: string, w: string) => CounterKey(o, b, w), (a: string) => Money.ToCents(a))
  }

  lemma ProductionOk(kind: Kind, limit: int)
    requires -TWO_63 <= limit < TWO_63
    ensures EnvOk(Production(kind, limit))
  {
  }

  function DemoHold(id: string, amount: string): Hold {
    Hold("org", id, "agent", "budget", "day", "2026-09-01", amount, "USD", Held, Some(0), Some(10), None, None)
  }

  function DemoKey(e: Env): string { e.key("org", "budget", "2026-09-01") }

  /** A reserve and its place, on books without drift or settled holds. */
  lemma ReserveAndPlace(e: Env, ss: seq<Sys>, ts: seq<Step>, s: Sys, id: string, amount: string, cents: int)
    returns (ss': seq<Sys>, ts': seq<Step>, s': Sys)
    requires Steps(e, ss, ts) && ss[|ts|] == s && 0 !in s.ops
    requires e.cents(amount) == Some(cents) && HoldRef("org", id) !in s.ledger
    requires -TWO_63 <= Get(s.counter, DemoKey(e)) + cents <= e.limits(DemoKey(e)) < TWO_63
    ensures Steps(e, ss', ts') && |ts'| == |ts| + 2 && ss <= ss' && ss'[|ts'|] == s'
    ensures FaultFree(ss, ts) ==> FaultFree(ss', ts')
    ensures s' == s.(counter := s.counter[DemoKey(e) := Get(s.counter, DemoKey(e)) + cents],
                     ledger := s.ledger[HoldRef("org", id) := DemoHold(id, amount)])
  {
    var s1;
    ss', ts', s1 := Then(e, ss, ts, Reserve(0, DemoHold(id, amount)));
    ss', ts', s' := Then(e, ss', ts', PlaceOk(0, 0));
    assert Drop(s1.ops, 0) == s.ops;
  }

  lemma SpendOfOne(e: Env, r: HoldRef, h: Hold, k: string)
    ensures Sum(Spend(e, map[r := h], k)) == if KeyOf(e, h) == k && Active(h.state) then Cents(e, h) else 0
  {
    var m := Spend(e, map[r := h], k);
    SumUpdate(map[], r, m[r]);
    assert m == map[][r := m[r]];
  }

  lemma SpendOfTwo(e: Env, r: HoldRef, g: Hold, q: HoldRef, h: Hold, k: string)
    requires r != q
    ensures Sum(Spend(e, map[r := g, q := h], k)) ==
            (if KeyOf(e, g) == k && Active(g.state) then Cents(e, g) else 0)
            + if KeyOf(e, h) == k && Active(h.state) then Cents(e, h) else 0
  {
    var m := Spend(e, map[r := g, q := h], k);
    SpendOfOne(e, r, g, k);
    SumUpdate(Spend(e, map[r := g], k), q, m[q]);
    assert m == Spend(e, map[r := g], k)[q := m[q]];
  }

  /** The empty run. */
  lemma Begin(e: Env)
    ensures Steps(e, [EMPTY], []) && FaultFree([EMPTY], [])
  {
  }

  // ----- an amount that wraps -----

  /** Reserve an amount read as -116 cents, reserve 216 more, void the first: no fault,
      nothing in flight, and 2.16 spent under a limit of 1.00. */
  lemma WrappedRun(e: Env, large: string, amount: string) returns (ss: seq<Sys>, ts: seq<Step>, s: Sys)
    requires e.kind.Postgres? && (forall k :: e.limits(k) == 100)
    requires e.cents(large) == Some(-116) && e.cents(amount) == Some(216)
    ensures Run(e, ss, ts) && FaultFree(ss, ts) && ss[|ts|] == s && s.ops == map[]
    ensures Get(s.counter, DemoKey(e)) == 216 && Sum(Spend(e, s.ledger, DemoKey(e))) == 216
  {
    var k, a, b := DemoKey(e), DemoHold("d1", large), DemoHold("d2", amount);
    Begin(e);
    ss, ts, s := ReserveAndPlace(e, [EMPTY], [], EMPTY, "d1", large, -116);
    ss, ts, s := ReserveAndPlace(e, ss, ts, s, "d2", amount, 216);
    ss, ts, s := Then(e, ss, ts, Void(RefOf(a), 0, 0));
    ss, ts, s := Then(e, ss, ts, ReleaseOk(0));
    assert s.ops == map[];
    var voided := a.(state := Voided, voidedAt := Some(0));
    assert s.ledger == map[RefOf(a) := voided, RefOf(b) := b];
    SpendOfTwo(e, RefOf(a), voided, RefOf(b), b, k);
  }

  /** The same with the service's parser: "184467440737095515" is an amount the endpoint
      admits, and toCents reads it as -116. */
  lemma WrappedAmountOversells(large: string) returns (ss: seq<Sys>, ts: seq<Step>, s: Sys)
    requires large == "184467440737095515"
    ensures var e := Production(Postgres, 100);
            && EnvOk(e) && Money.AmountPattern(large) && Run(e, ss, ts) && FaultFree(ss, ts)
            && ss[|ts|] == s && s.ops == map[]
            && Get(s.counter, DemoKey(e)) == 216 && Sum(Spend(e, s.ledger, DemoKey(e))) == 216
  {
    ProductionOk(Postgres, 100);
    Money.LargeAmountTurnsSmall(large);
    Money.CentsRoundTrip(216);
    ss, ts, s := WrappedRun(Production(Postgres, 100), large, Money.CentsToStr(216));
  }

  /** A reserve and its place over the wired stores, at instant 0. */
  lemma RedisReserveAndPlace(e: Env, p: RC.Plan, xs: seq<Stores>, us: seq<Timed>, id: string, amount: string, cents: int)
    returns (xs': seq<Stores>, us': seq<Timed>, x': Stores)
    requires RedisRun(e, p, xs, us) && xs[|us|].ops == map[] && (us != [] ==> us[|us| - 1].at == 0)
    requires e.cents(amount) == Some(cents) && HoldRef("org", id) !in xs[|us|].ledger
    requires RC.Value(xs[|us|].keys, DemoKey(e), 0) + cents <= e.limits(DemoKey(e))
    ensures RedisRun(e, p, xs', us') && |us'| == |us| + 2 && us'[|us'| - 1].at == 0 && xs'[|us'|] == x' && x'.ops == map[]
    ensures RC.Live(x'.keys, DemoKey(e), 0)
    ensures RC.Value(x'.keys, DemoKey(e), 0) == RC.Value(xs[|us|].keys, DemoKey(e), 0) + cents
    ensures x'.ledger == xs[|us|].ledger[HoldRef("org", id) := DemoHold(id, amount)]
  {
    xs', us', x' := RedisThen(e, p, xs, us, Timed(0, 0, Reserve(0, DemoHold(id, amount))));
    xs', us', x' := RedisThen(e, p, xs', us', Timed(0, 0, PlaceOk(0, 0)));
  }

  lemma WrappedRedisRun(e: Env, p: RC.Plan, large: string, amount: string)
    returns (xs: seq<Stores>, us: seq<Timed>, x: Stores)
    requires e.kind.Postgres? && (forall k :: e.limits(k) == 100)
    requires e.cents(large) == Some(-116) && e.cents(amount) == Some(216)
    ensures RedisRun(e, p, xs, us) && xs[|us|] == x && x.ops == map[]
    ensures RC.Value(x.keys, DemoKey(e), 0) == 216 && Sum(Spend(e, x.ledger, DemoKey(e))) == 216
  {
    var a, b := DemoHold("d1", large), DemoHold("d2", amount);
    xs, us := [Stores(map[], map[], map[])], [];
    xs, us, x := RedisReserveAndPlace(e, p, xs, us, "d1", large, -116);
    xs, us, x := RedisReserveAndPlace(e, p, xs, us, "d2", amount, 216);
    xs, us, x := RedisThen(e, p, xs, us, Timed(0, 0, Void(RefOf(a), 0, 0)));
    xs, us, x := RedisThen(e, p, xs, us, Timed(0, 0, ReleaseOk(0)));
    assert x.ops == map[];
    var voided := a.(state := Voided, voidedAt := Some(0));
    assert x.ledger == map[RefOf(a) := voided, RefOf(b) := b];
    SpendOfTwo(e, RefOf(a), voided, RefOf(b), b, DemoKey(e));
  }

  /** The Lua counter takes the same amount the same way. */
  lemma WrappedAmountOversellsRedis(p: RC.Plan, large: string) returns (xs: seq<Stores>, us: seq<Timed>, x: Stores)
    requires large == "184467440737095515"
    ensures var e := Production(Postgres, 100);
            && EnvOk(e) && Money.AmountPattern(large) && RedisRun(e, p, xs, us) && xs[|us|] == x && x.ops == map[]
            && RC.Value(x.keys, DemoKey(e), 0) == 216 && Sum(Spend(e, x.ledger, DemoKey(e))) == 216
  {
    ProductionOk(Postgres, 100);
    Money.LargeAmountTurnsSmall(large);
    Money.CentsRoundTrip(216);
    xs, us, x := WrappedRedisRun(Production(Postgres, 100), p, large, Money.CentsToStr(216));
  }

  // ----- a place whose reply is lost -----

  /** The first hold is placed but its reply is lost, so the counter is lowered again; a
      second hold then fits as well. */
  lemma LostPlaceRun(e: Env, amount: string) returns (ss: seq<Sys>, ts: seq<Step>, s: Sys)
    requires (forall k :: e.limits(k) == 100) && e.cents(amount) == Some(100)
    ensures Run(e, ss, ts) && ss[|ts|] == s && s.ops == map[]
    ensures Get(s.counter, DemoKey(e)) == 100 && Sum(Spend(e, s.ledger, DemoKey(e))) == 200
  {
    var a, b := DemoHold("d1", amount), DemoHold("d2", amount);
    Begin(e);
    ss, ts, s := Then(e, [EMPTY], [], Reserve(0, a));
    ss, ts, s := Then(e, ss, ts, PlaceLost(0, 0));
    ss, ts, s := Then(e, ss, ts, ReleaseOk(0));
    assert s.ops == map[];
    ss, ts, s := ReserveAndPlace(e, ss, ts, s, "d2", amount, 100);
    assert s.ledger == map[RefOf(a) := a, RefOf(b) := b];
    SpendOfTwo(e, RefOf(a), a, RefOf(b), b, DemoKey(e));
  }

  lemma LostPlaceOversells() returns (ss: seq<Sys>, ts: seq<Step>, s: Sys)
    ensures var e := Production(Postgres, 100);
            && EnvOk(e) && Run(e, ss, ts) && ss[|ts|] == s && s.ops == map[]
            && Get(s.counter, DemoKey(e)) == 100 && Sum(Spend(e, s.ledger, DemoKey(e))) == 200
  {
    ProductionOk(Postgres, 100);
    Money.CentsRoundTrip(100);
    ss, ts, s := LostPlaceRun(Production(Postgres, 100), Money.CentsToStr(100));
  }

  // ----- a read that strands cents -----

  lemma StrandingRun(e: Env, amount: string) returns (ss: seq<Sys>, ts: seq<Step>, s: Sys)
    requires e.kind.InMemory? && (forall k :: e.limits(k) == 100) && e.cents(amount) == Some(100)
    ensures Run(e, ss, ts) && FaultFree(ss, ts) && |ts| == 3 && ss[3] == s && s.ops == map[]
    ensures Get(s.counter, DemoKey(e)) == 100 && Sum(Spend(e, s.ledger, DemoKey(e))) == 0
  {
    var a := DemoHold("d1", amount);
    Begin(e);
    ss, ts, s := ReserveAndPlace(e, [EMPTY], [], EMPTY, "d1", amount, 100);
    ss, ts, s := Then(e, ss, ts, Read(RefOf(a), 10));
    assert s.ledger == map[RefOf(a) := a.(state := Expired)];
    SpendOfOne(e, RefOf(a), a.(state := Expired), DemoKey(e));
  }

  /** Reserve, place, then look at the hold after its expiry: in memory the counter keeps
      100 cents no hold accounts for and no reconciler will return. */
  lemma InMemoryStrandsCents() returns (ss: seq<Sys>, ts: seq<Step>, s: Sys)
    ensures var e := Production(InMemory, 100);
            && EnvOk(e) && Run(e, ss, ts) && FaultFree(ss, ts) && |ts| == 3 && ss[3] == s && s.ops == map[]
            && Get(s.counter, DemoKey(e)) == 100 && Sum(Spend(e, s.ledger, DemoKey(e))) == 0
  {
    ProductionOk(InMemory, 100);
    Money.CentsRoundTrip(100);
    ss, ts, s := StrandingRun(Production(InMemory, 100), Money.CentsToStr(100));
  }

  // ----- a rebuild around a reserve -----

  /** The rebuild lists before a reserve and its place and sets after them; nothing is in
      flight at either moment. The value it writes has forgotten the hold. */
  lemma RaceRun(e: Env, amount: string)
    returns (ss: seq<Sys>, ts: seq<Step>, rebuilt: Sys, after: seq<Sys>, us: seq<Step>, s: Sys)
    requires (forall k :: e.limits(k) == 100) && e.cents(amount) == Some(100)
    ensures Run(e, ss, ts) && |ts| == 2 && ss[0].ops == ss[2].ops == map[]
    ensures rebuilt == ss[2].(counter := ss[2].counter[DemoKey(e) :=
                            Wrap64(Sum(Listed(e, ss[0].ledger, "org", "budget", "2026-09-01")))])
    ensures Steps(e, after, us) && after[0] == rebuilt && after[|us|] == s && s.ops == map[]
    ensures Get(s.counter, DemoKey(e)) == 100 && Sum(Spend(e, s.ledger, DemoKey(e))) == 200
  {
    var a, b := DemoHold("d1", amount), DemoHold("d2", amount);
    var one;
    Begin(e);
    ss, ts, one := ReserveAndPlace(e, [EMPTY], [], EMPTY, "d1", amount, 100);
    assert Listed(e, EMPTY.ledger, "org", "budget", "2026-09-01") == map[];
    rebuilt := one.(counter := one.counter[DemoKey(e) := 0]);
    after, us, s := ReserveAndPlace(e, [rebuilt], [], rebuilt, "d2", amount, 100);
    assert s.ledger == map[RefOf(a) := a, RefOf(b) := b];
    SpendOfTwo(e, RefOf(a), a, RefOf(b), b, DemoKey(e));
  }

  /** Two holds of 1.00 end up under a limit of 1.00. */
  lemma RebuildRaceOversells(kind: Kind)
    returns (ss: seq<Sys>, ts: seq<Step>, rebuilt: Sys, after: seq<Sys>, us: seq<Step>, s: Sys)
    ensures var e := Production(kind, 100);
            && EnvOk(e) && Run(e, ss, ts) && |ts| == 2 && ss[0].ops == ss[2].ops == map[]
            && rebuilt == ss[2].(counter := ss[2].counter[DemoKey(e) :=
                               Wrap64(Sum(Listed(e, ss[0].ledger, "org", "budget", "2026-09-01")))])
            && Steps(e, after, us) && after[0] == rebuilt && after[|us|] == s && s.ops == map[]
            && Get(s.counter, DemoKey(e)) == 100 && Sum(Spend(e, s.ledger, DemoKey(e))) == 200
  {
    ProductionOk(kind, 100);
    Money.CentsRoundTrip(100);
    ss, ts, rebuilt, after, us, s := RaceRun(Production(kind, 100), Money.CentsToStr(100));
  }
}
