/** Reserve, void and reconcile over a counter and a hold ledger
    (internal/budget/reserver.go, internal/budget/reconcile.go). */
module Reserver {
  import opened Base
  import opened Sums
  import opened Holds
  import opened Counter
  import Money
  import Windows

  datatype Budget = Budget(id: string, agents: seq<string>, window: string, limit: string, currency: string)

  datatype Request = Request(
    agentId: string, action: string, amount: string, currency: string,
    targetType: string, targetId: string, jurisdiction: string, evaluatedAt: string)

  datatype Outcome = WithinLimit | Exceeded | Unavailable

  datatype BudgetResult = BudgetResult(outcome: Outcome, spendToDate: string, limit: string, windowKey: string)

  /** How amounts, keys and windows are read and written. The service's own codec is
      Service(); the protocol below does not depend on more than these four functions. */
  datatype Codec = Codec(
    cents: string -> Option<int>, show: int -> string,
    key: (string, string, string) -> string, windowKey: (string, int) -> string)

  function Service(): Codec {
    Codec(s => Money.ToCents(s), c => Money.CentsToStr(c),
          (o: string, b: string, w: string) => CounterKey(o, b, w),
          (w: string, t: int) => Windows.WindowKey(w, t))
  }

  function CentsOf(codec: Codec, h: Hold): int {
    if codec.cents(h.amount).Some? then codec.cents(h.amount).value else 0
  }

  function KeyOf(codec: Codec, h: Hold): string { codec.key(h.orgId, h.budgetId, h.windowKey) }

  /** Which of the calls to the two stores fail; a failing call changes nothing. */
  datatype Faults = Faults(counterDown: bool, placeFails: bool, undoFails: bool)

  /** RFC 3339 parsing is foreign code: any partial function to instants will do. */
  type ParseTime = string -> Option<int>

  /** The instant a reservation counts from: the request's, if it carries a readable one. */
  function When(parse: ParseTime, req: Request, now: int): (t: int)
    ensures parse(req.evaluatedAt) == Some(t) || (parse(req.evaluatedAt) == None && t == now)
  {
    if parse(req.evaluatedAt).Some? then parse(req.evaluatedAt).value else now
  }

  function HoldFor(codec: Codec, org: string, decision: string, req: Request, b: Budget, t: int, ttl: int): Hold {
    Hold(org, decision, req.agentId, b.id, b.window, codec.windowKey(b.window, t), req.amount, req.currency,
         Held, Some(t), Some(t + ttl), None, None)
  }

  /** The ledger row of a reservation: who reserved what against which budget window,
      from when until when; neither captured nor voided. */
  predicate Records(h: Hold, org: string, decision: string, req: Request, b: Budget, windowKey: string, t: int, ttl: int) {
    && h.orgId == org && h.decisionId == decision && h.agentId == req.agentId
    && h.budgetId == b.id && h.window == b.window && h.windowKey == windowKey
    && h.amount == req.amount && h.currency == req.currency
    && h.state == Held && h.createdAt == Some(t) && h.expiresAt == Some(t + ttl)
    && h.capturedAt == None && h.voidedAt == None
  }

  /** Within the limit, under a new decision id: exactly one row is added, with the
      reservation's own fields, and exactly one counter rises, the one that row's release
      will lower, by exactly the cents that release will take off. */
  ghost predicate Placed(codec: Codec, org: string, decision: string, req: Request, b: Budget, windowKey: string,
                         t: int, ttl: int, vals: map<string, int>, vals': map<string, int>, l: Ledger, l': Ledger)
  {
    var r := HoldRef(org, decision);
    && r in l' && l' == l[r := l'[r]] && Records(l'[r], org, decision, req, b, windowKey, t, ttl)
    && KeyOf(codec, l'[r]) == codec.key(org, b.id, windowKey)
    && codec.cents(req.amount) == Some(CentsOf(codec, l'[r]))
    && vals' == vals[KeyOf(codec, l'[r]) := Wrap64(Get(vals, KeyOf(codec, l'[r])) + CentsOf(codec, l'[r]))]
  }

  /** Two instants of one period reach the same counter of a budget, and two periods
      never do: a period has one cap, a new period a fresh one. */
  lemma OneCounterPerPeriod(org: string, b: Budget, s: int, t: int)
    ensures var c := Service();
            c.key(org, b.id, c.windowKey(b.window, s)) == c.key(org, b.id, c.windowKey(b.window, t))
            <==> Windows.SamePeriod(b.window, s, t)
  {
    Windows.WindowKeyIff(b.window, s, t);
    SameKeyIff(org, b.id, Windows.WindowKey(b.window, s), Windows.WindowKey(b.window, t));
  }

  lemma SameKeyIff(org: string, id: string, v: string, w: string)
    ensures CounterKey(org, id, v) == CounterKey(org, id, w) <==> v == w
  {
    var n := |CounterKey(org, id, "")|;
    assert CounterKey(org, id, v)[n..] == v && CounterKey(org, id, w)[n..] == w;
  }

  /** Both amounts are on one counter, and together within its limit. */
  ghost predicate OneCap(vals: map<string, int>, vals': map<string, int>, key: string,
                         a: Option<int>, c: Option<int>, limit: Option<int>)
  {
    && a.Some? && c.Some? && limit.Some?
    && (Sane(Get(vals, key), a.value, limit.value) && 0 <= c.value && limit.value + c.value < TWO_63 ==>
          && Get(vals, key) + a.value + c.value <= limit.value
          && vals' == vals[key := Get(vals, key) + a.value + c.value])
  }

  /** Two counter maps that read the same everywhere. */
  ghost predicate SameCounts(a: map<string, int>, b: map<string, int>) {
    forall k :: Get(a, k) == Get(b, k)
  }

  /** The arithmetic of a reserve stays inside int64 and the counter is within its limit. */
  predicate Sane(prior: int, amount: int, limit: int) {
    0 <= amount && 0 <= prior <= limit && limit + amount < TWO_63
  }

  /** What one Reserve may do to the two stores, for each outcome. */
  ghost predicate Reserved(
    vals: map<string, int>, vals': map<string, int>, l: Ledger, l': Ledger, outcome: Outcome, faults: Faults,
    key: string, amount: Option<int>, limit: Option<int>, h: Hold, now: int)
  {
    var prior := Get(vals, key);
    && (amount.None? || limit.None? || faults.counterDown ==>
          outcome.Unavailable? && vals' == vals && l' == l)
    && (amount.Some? && limit.Some? && !faults.counterDown ==>
          && (outcome.Exceeded? <==> Wrap64(prior + amount.value) > limit.value)
          && (outcome.Exceeded? ==> vals' == vals && l' == l)
          && (outcome.WithinLimit? ==>
                vals' == vals[key := Wrap64(prior + amount.value)] && l' == MemPlace(l, h, now))
          && (outcome.Unavailable? ==>
                && faults.placeFails && l' == l
                && (!faults.undoFails && Sane(prior, amount.value, limit.value) ==> SameCounts(vals, vals'))))
  }

  lemma OneWindow(b: Budget, s: int, t: int)
    requires Windows.SamePeriod(b.window, s, t)
    ensures Service().windowKey(b.window, s) == Service().windowKey(b.window, t)
  {
    Windows.WindowKeyIff(b.window, s, t);
  }

  ghost predicate Raised(vals: map<string, int>, vals': map<string, int>, key: string, a: Option<int>, limit: Option<int>) {
    && a.Some? && limit.Some? && Wrap64(Get(vals, key) + a.value) <= limit.value
    && vals' == vals[key := Wrap64(Get(vals, key) + a.value)]
  }

  lemma ReservedRaises(vals: map<string, int>, vals': map<string, int>, l: Ledger, l': Ledger,
                       key: string, a: Option<int>, limit: Option<int>, h: Hold, now: int)
    requires Reserved(vals, vals', l, l', WithinLimit, Faults(false, false, false), key, a, limit, h, now)
    ensures Raised(vals, vals', key, a, limit)
  {
  }

  lemma TwoRaise(vals: map<string, int>, mid: map<string, int>, vals': map<string, int>, key: string,
                 a: Option<int>, c: Option<int>, limit: Option<int>)
    requires Raised(vals, mid, key, a, limit) && Raised(mid, vals', key, c, limit)
    ensures OneCap(vals, vals', key, a, c, limit)
  {
  }

  /** Voiding the hold that a reserve placed. */
  lemma TakenBack(codec: Codec, org: string, decision: string, req: Request, b: Budget, windowKey: string, t: int, ttl: int,
                  vals: map<string, int>, raised: map<string, int>, l: Ledger, placed: Ledger, later: int)
    requires Placed(codec, org, decision, req, b, windowKey, t, ttl, vals, raised, l, placed)
    ensures var r := HoldRef(org, decision);
            var (after, reply) := MemVoid(placed, r, later);
            && reply.Ok? && reply.value.0.state == Voided && reply.value.0.amount == req.amount
            && after == l[r := reply.value.0] && (reply.value.1 <==> later < t + ttl)
            && KeyOf(codec, reply.value.0) == codec.key(org, b.id, windowKey)
            && codec.cents(reply.value.0.amount) == Some(CentsOf(codec, reply.value.0)) == codec.cents(req.amount)
    ensures var key, amount := codec.key(org, b.id, windowKey), codec.cents(req.amount).value;
            0 <= amount && 0 <= Get(vals, key) && Get(vals, key) + amount < TWO_63 ==>
              && SameCounts(vals, ReleaseStep(raised, key, amount))
              && (SameCounts(vals, raised) <==> amount == 0)
  {
    VoidCases(placed, HoldRef(org, decision), later);
    var key, amount := codec.key(org, b.id, windowKey), codec.cents(req.amount).value;
    assert Get(raised, key) == Wrap64(Get(vals, key) + amount);
  }

  class Reserver {
    const codec: Codec
    const counter: MemCounter
    const holds: MemStore
    const holdTTL: int

    ghost predicate Valid()
      reads this, holds
    {
      holds.Valid()
    }

    constructor (codec: Codec, counter: MemCounter, holds: MemStore, holdTTL: int)
      requires holds.Valid()
      ensures Valid() && this.codec == codec && this.counter == counter && this.holds == holds
      ensures this.holdTTL == if holdTTL <= 0 then 15 * 60_000 else holdTTL
    {
      this.codec := codec;
      this.counter := counter;
      this.holds := holds;
      this.holdTTL := if holdTTL <= 0 then 15 * 60_000 else holdTTL;
    }

    /** The two steps and the undo, once the amounts are parsed. */
    method ReserveCents(key: string, amount: int, limit: int, h: Hold, now: int, faults: Faults)
      returns (outcome: Outcome, prior: int)
      requires Valid() && !faults.counterDown
      modifies counter, holds
      ensures Valid() && prior == Get(old(counter.vals), key)
      ensures outcome.Exceeded? <==> Wrap64(prior + amount) > limit
      ensures outcome.Exceeded? ==> counter.vals == old(counter.vals)
      ensures outcome.WithinLimit? ==>
                && counter.vals == old(counter.vals)[key := Wrap64(prior + amount)]
                && holds.holds == MemPlace(old(holds.holds), h, now)
      ensures !outcome.WithinLimit? ==> holds.holds == old(holds.holds)
      ensures outcome.Unavailable? ==> faults.placeFails
      ensures outcome.Unavailable? && !faults.undoFails && 0 <= amount && 0 <= prior && limit + amount < TWO_63
                && prior <= limit
              ==> SameCounts(old(counter.vals), counter.vals)
    {
      var reserved;
      reserved, prior := counter.Reserve(key, amount, limit);
      if !reserved {
        return Exceeded, prior;
      }
      if faults.placeFails {
        if !faults.undoFails {
          counter.Release(key, amount);
        }
        return Unavailable, prior;
      }
      holds.Place(h, now);
      outcome := WithinLimit;
    }

    /** Within the limit: the counter rose by exactly the amount and the hold is on the
        ledger. Otherwise neither store changed, unless the undo itself was lost. */
    method Reserve(parse: ParseTime, org: string, decision: string, req: Request, b: Budget, now: int, faults: Faults)
      returns (res: BudgetResult)
      requires Valid()
      modifies counter, holds
      ensures Valid()
      ensures res.windowKey == codec.windowKey(b.window, When(parse, req, now))
      ensures Reserved(old(counter.vals), counter.vals, old(holds.holds), holds.holds, res.outcome, faults,
                       codec.key(org, b.id, res.windowKey), codec.cents(req.amount), codec.cents(b.limit),
                       HoldFor(codec, org, decision, req, b, When(parse, req, now), holdTTL), now)
      ensures !res.outcome.Unavailable? ==>
                && res.limit == b.limit
                && res.spendToDate == codec.show(Get(old(counter.vals), codec.key(org, b.id, res.windowKey)))
      ensures res.outcome.WithinLimit? ==>
                if HoldRef(org, decision) in old(holds.holds) then holds.holds == old(holds.holds)
                else Placed(codec, org, decision, req, b, res.windowKey, When(parse, req, now), holdTTL,
                            old(counter.vals), counter.vals, old(holds.holds), holds.holds)
    {
      var t := When(parse, req, now);
      var wk := codec.windowKey(b.window, t);
      var amount, limit := codec.cents(req.amount), codec.cents(b.limit);
      if amount.None? || limit.None? {
        return BudgetResult(Unavailable, "", "", wk);
      }
      var key := codec.key(org, b.id, wk);
      if faults.counterDown {
        return BudgetResult(Unavailable, "", "", wk);
      }
      var h := HoldFor(codec, org, decision, req, b, t, holdTTL);
      var outcome, prior := ReserveCents(key, amount.value, limit.value, h, now, faults);
      if outcome.Unavailable? {
        return BudgetResult(Unavailable, "", "", wk);
      }
      res := BudgetResult(outcome, codec.show(prior), b.limit, wk);
    }

    /** A void lowers the counter by the hold's cents exactly when this call was the one
        that took the hold out of held; every other void leaves the counter alone. */
    method Void(r: HoldRef, now: int, releaseFails: bool) returns (reply: Reply<Hold>)
      requires Valid()
      modifies counter, holds
      ensures Valid()
      ensures var (l, rep) := MemVoid(old(holds.holds), r, now);
              && holds.holds == l
              && (rep.Err? ==> reply == Err(rep.error) && counter.vals == old(counter.vals))
              && (rep.Ok? ==>
                    && reply == Ok(rep.value.0)
                    && counter.vals ==
                       if rep.value.1 && codec.cents(rep.value.0.amount).Some? && !releaseFails
                       then ReleaseStep(old(counter.vals), KeyOf(codec, rep.value.0), CentsOf(codec, rep.value.0))
                       else old(counter.vals))
    {
      var rep := holds.Void(r, now);
      if rep.Err? {
        return Err(rep.error);
      }
      var h, released := rep.value.0, rep.value.1;
      if released {
        var amount := codec.cents(h.amount);
        if amount.Some? && !releaseFails {
          counter.Release(KeyOf(codec, h), amount.value);
        }
      }
      reply := Ok(h);
    }

    /** What a reserve adds a void takes back: without faults, and as long as the void
        comes before the expiry (or nothing was reserved), every counter reads as before;
        after the expiry the in-memory ledger keeps the cents counted. */
    method ReserveThenVoid(parse: ParseTime, org: string, decision: string, req: Request, b: Budget, now: int, later: int)
      returns (res: BudgetResult, reply: Reply<Hold>)
      requires Valid() && HoldRef(org, decision) !in holds.holds
      modifies counter, holds
      ensures Valid()
      ensures !res.outcome.WithinLimit? ==>
                reply == Err(NotFound) && holds.holds == old(holds.holds) && counter.vals == old(counter.vals)
      ensures res.outcome.WithinLimit? ==>
                && reply.Ok? && reply.value.state == Voided && reply.value.amount == req.amount
                && holds.holds == old(holds.holds)[HoldRef(org, decision) := reply.value]
      ensures res.outcome.WithinLimit? && codec.cents(req.amount).Some? && codec.cents(b.limit).Some?
                && Sane(Get(old(counter.vals), codec.key(org, b.id, res.windowKey)),
                        codec.cents(req.amount).value, codec.cents(b.limit).value) ==>
                (SameCounts(old(counter.vals), counter.vals) <==>
                   later < When(parse, req, now) + holdTTL || codec.cents(req.amount) == Some(0))
    {
      res := Reserve(parse, org, decision, req, b, now, Faults(false, false, false));
      ghost var raised, placed := counter.vals, holds.holds;
      reply := Void(HoldRef(org, decision), later, false);
      if res.outcome.WithinLimit? {
        TakenBack(codec, org, decision, req, b, res.windowKey, When(parse, req, now), holdTTL,
                  old(counter.vals), raised, old(holds.holds), placed, later);
      }
    }

    /** Two reserves of one budget in one period, by the service's codec, draw on one cap:
        both go through only if their amounts together fit what the limit still leaves. */
    method ReserveTwice(parse: ParseTime, org: string, first: string, second: string, req: Request, other: Request,
                        b: Budget, now: int, later: int)
      returns (one: BudgetResult, two: BudgetResult)
      requires Valid() && codec == Service()
      requires Windows.SamePeriod(b.window, When(parse, req, now), When(parse, other, later))
      modifies counter, holds
      ensures Valid() && one.windowKey == two.windowKey
      ensures one.outcome.WithinLimit? && two.outcome.WithinLimit? ==>
                OneCap(old(counter.vals), counter.vals, codec.key(org, b.id, one.windowKey),
                       codec.cents(req.amount), codec.cents(other.amount), codec.cents(b.limit))
    {
      OneWindow(b, When(parse, req, now), When(parse, other, later));
      one := Reserve(parse, org, first, req, b, now, Faults(false, false, false));
      ghost var key, raised, placed := codec.key(org, b.id, one.windowKey), counter.vals, holds.holds;
      two := Reserve(parse, org, second, other, b, later, Faults(false, false, false));
      if one.outcome.WithinLimit? && two.outcome.WithinLimit? {
        ReservedRaises(old(counter.vals), raised, old(holds.holds), placed, key, codec.cents(req.amount), codec.cents(b.limit),
                       HoldFor(codec, org, first, req, b, When(parse, req, now), holdTTL), now);
        ReservedRaises(raised, counter.vals, placed, holds.holds, key, codec.cents(other.amount), codec.cents(b.limit),
                       HoldFor(codec, org, second, other, b, When(parse, other, later), holdTTL), later);
        TwoRaise(old(counter.vals), raised, counter.vals, key, codec.cents(req.amount), codec.cents(other.amount),
                 codec.cents(b.limit));
      }
    }

    /** Expires a batch and lowers each expired hold's counter once. */
    method ReleaseExpired(now: int, batch: int) returns (released: nat)
      requires Valid()
      modifies counter, holds
      ensures Valid() && Advances(old(holds.holds), holds.holds)
      ensures exists due: seq<Hold> ::
                && DueBatch(old(holds.holds), now, due) && released == |due| && (batch > 0 ==> |due| <= batch)
                && holds.holds == ExpireRefs(old(holds.holds), Refs(due))
                && counter.vals == ReleaseAll(codec, old(counter.vals), due)
                && (batch <= 0 || |due| < batch ==> forall r :: r in holds.holds ==> !Due(holds.holds[r], now))
    {
      var due := holds.ExpireDue(now, batch);
      for i := 0 to |due|
        invariant Valid()
        invariant holds.holds == ExpireRefs(old(holds.holds), Refs(due))
        invariant counter.vals == ReleaseAll(codec, old(counter.vals), due[..i])
      {
        assert due[..i + 1][..i] == due[..i];
        var amount := codec.cents(due[i].amount);
        if amount.None? {
          continue;
        }
        counter.Release(KeyOf(codec, due[i]), amount.value);
      }
      assert due[..|due|] == due;
      released := |due|;
    }

    /** Sets one window's counter to the exact sum of the holds the ledger lists for it,
        provided the int64 total does not wrap. */
    method RebuildWindow(org: string, budget: string, windowKey: string)
      requires Valid()
      modifies counter
      ensures counter.vals == old(counter.vals)[
                codec.key(org, budget, windowKey) := Wrap64(Sum(ListedCents(codec, holds.holds, org, budget, windowKey)))]
    {
      var active := holds.ListActiveByWindow(org, budget, windowKey);
      var sum := 0;
      for i := 0 to |active|
        invariant counter.vals == old(counter.vals)
        invariant sum == Wrap64(TotalCents(codec, active[..i]))
      {
        assert active[..i + 1][..i] == active[..i];
        WrapSum(TotalCents(codec, active[..i]), CentsOf(codec, active[i]));
        var c := codec.cents(active[i].amount);
        if c.Some? {
          sum := Wrap64(sum + c.value);
        }
      }
      assert active[..|active|] == active;
      TotalIsListed(codec, holds.holds, org, budget, windowKey, active);
      counter.Set(codec.key(org, budget, windowKey), sum);
    }
  }

  function TotalCents(codec: Codec, hs: seq<Hold>): int {
    if hs == [] then 0 else TotalCents(codec, hs[..|hs| - 1]) + CentsOf(codec, hs[|hs| - 1])
  }

  function ReleaseAll(codec: Codec, vals: map<string, int>, due: seq<Hold>): map<string, int> {
    if due == [] then vals
    else
      var before, h := ReleaseAll(codec, vals, due[..|due| - 1]), due[|due| - 1];
      if codec.cents(h.amount).Some? then ReleaseStep(before, KeyOf(codec, h), CentsOf(codec, h)) else before
  }

  function ListedCents(codec: Codec, l: Ledger, org: string, budget: string, windowKey: string): map<HoldRef, int> {
    map r | r in l :: if InWindow(l[r], org, budget, windowKey) then CentsOf(codec, l[r]) else 0
  }

  /** Adding up any duplicate-free listing of the window gives the ledger's sum. */
  lemma TotalIsListed(codec: Codec, l: Ledger, org: string, budget: string, windowKey: string, hs: seq<Hold>)
    requires forall i, j :: 0 <= i < j < |hs| ==> RefOf(hs[i]) != RefOf(hs[j])
    requires WellKeyed(l)
    requires forall h :: h in hs <==> RefOf(h) in l && l[RefOf(h)] == h && InWindow(h, org, budget, windowKey)
    ensures TotalCents(codec, hs) == Sum(ListedCents(codec, l, org, budget, windowKey))
  {
    var all := ListedCents(codec, l, org, budget, windowKey);
    var part := CentsMap(codec, hs);
    TotalIsSum(codec, hs);
    forall r | r in part ensures r in all && all[r] == part[r] {
      var h :| h in hs && RefOf(h) == r && part[r] == CentsOf(codec, h);
    }
    SumSplit(all, part);
    forall r | r in all && InWindow(l[r], org, budget, windowKey) ensures r in part {
      assert l[r] in hs;
    }
    SumZero(all - part.Keys);
  }

  function CentsMap(codec: Codec, hs: seq<Hold>): (m: map<HoldRef, int>)
    ensures forall r :: r in m ==> exists h :: h in hs && RefOf(h) == r && m[r] == CentsOf(codec, h)
    ensures forall h :: h in hs ==> RefOf(h) in m
  {
    if hs == [] then map[]
    else CentsMap(codec, hs[..|hs| - 1])[RefOf(hs[|hs| - 1]) := CentsOf(codec, hs[|hs| - 1])]
  }

  lemma {:induction false} TotalIsSum(codec: Codec, hs: seq<Hold>)
    requires forall i, j :: 0 <= i < j < |hs| ==> RefOf(hs[i]) != RefOf(hs[j])
    ensures TotalCents(codec, hs) == Sum(CentsMap(codec, hs))
  {
    if hs != [] {
      var init, h := hs[..|hs| - 1], hs[|hs| - 1];
      TotalIsSum(codec, init);
      SumUpdate(CentsMap(codec, init), RefOf(h), CentsOf(codec, h));
    }
  }

  lemma {:induction false} SumSplit<K>(all: map<K, int>, part: map<K, int>)
    requires forall k :: k in part ==> k in all && all[k] == part[k]
    ensures Sum(all) == Sum(part) + Sum(all - part.Keys)
    decreases |part|
  {
    if part == map[] {
      assert all - part.Keys == all;
    } else {
      var k :| k in part;
      assert |part - {k}| == |part| - 1 by { assert (part - {k}).Keys == part.Keys - {k}; }
      SumRemove(part, k);
      SumRemove(all, k);
      SumSplit(all - {k}, part - {k});
      assert (all - {k}) - (part - {k}).Keys == all - part.Keys;
    }
  }
}
