/** The two-phase budget protocol as a transition system: every counter call and every
    ledger call of any number of concurrent callers is one atomic step
    (internal/budget/reserver.go, internal/budget/reconcile.go, internal/hold). */
module BudgetProtocol {
  import opened Base
  import opened Sums
  import opened Holds
  import opened Counter

  /** Which ledger is wired: the in-memory one writes an expiry back when it reads. */
  datatype Kind = InMemory | Postgres

  /** An operation between its first and its second step. */
  datatype Op =
    | Reserving(hold: Hold)                  // counter raised, hold not yet placed
    | Releasing(key: string, cents: int)     // counter still to be lowered

  /** counter and ledger are the two stores; the rest is bookkeeping of the run:
      ops      operations in flight, by a caller-chosen number
      drift    cents left on a counter by faults, less cents taken off it by mistake
      released the void and expiry transitions that asked for a release
      settled  holds whose cents no longer belong on their counter */
  datatype Sys = Sys(
    counter: map<string, int>, ledger: Ledger, ops: map<nat, Op>,
    drift: map<string, int>, released: multiset<HoldRef>, settled: set<HoldRef>)

  datatype Step =
    | Reserve(op: nat, hold: Hold)
    | ReserveLost(hold: Hold)                       // applied, but the reply was lost
    | PlaceOk(op: nat, now: int)
    | PlaceErr(op: nat)                             // ledger refused: undo the reserve
    | PlaceLost(op: nat, now: int)                  // placed, reply lost: undone all the same
    | ReleaseOk(op: nat)
    | OpLost(op: nat)                               // caller crashed or release failed
    | Read(ref: HoldRef, now: int)
    | Capture(ref: HoldRef, now: int)
    | Void(ref: HoldRef, now: int, op: nat)
    | VoidExpired(ref: HoldRef, now: int)           // second SQL statement of Void
    | Expire(ref: HoldRef, now: int, op: nat)       // one row of an ExpireDue batch
    | Rebuild(org: string, budget: string, windowKey: string)

  /** The fixed surroundings of a run: the ledger, one limit per counter key, and how a
      hold's window and amount are read. Production is Env(kind, limits, CounterKey,
      Money.ToCents); nothing below depends on more than what is written here. */
  datatype Env = Env(
    kind: Kind, limits: string -> int,
    key: (string, string, string) -> string, cents: string -> Option<int>)

  function KeyOf(e: Env, h: Hold): string { e.key(h.orgId, h.budgetId, h.windowKey) }

  function Cents(e: Env, h: Hold): int { if e.cents(h.amount).Some? then e.cents(h.amount).value else 0 }

  function OpKey(e: Env, o: Op): string { match o case Reserving(h) => KeyOf(e, h) case Releasing(k, _) => k }

  function OpCents(e: Env, o: Op): int { match o case Reserving(h) => Cents(e, h) case Releasing(_, c) => c }

  /** The most a counter may say: its limit, or nothing when the limit reads as negative. */
  function Cap(e: Env, k: string): int { if e.limits(k) < 0 then 0 else e.limits(k) }

  /** A reserve whose arithmetic stays inside int64 (see Counter.ReserveExactIff). */
  predicate InRange(e: Env, h: Hold) { 0 <= Cents(e, h) && Cap(e, KeyOf(e, h)) + Cents(e, h) < TWO_63 }

  /** No operation is in flight on counter k. */
  ghost predicate Quiet(e: Env, s: Sys, k: string) {
    forall op :: op in s.ops ==> OpKey(e, s.ops[op]) != k
  }

  /** No hold of another budget window lands on this window's counter. */
  ghost predicate Unshared(e: Env, l: Ledger, o: string, b: string, w: string) {
    forall r :: r in l && KeyOf(e, l[r]) == e.key(o, b, w) ==> (l[r].orgId, l[r].budgetId, l[r].windowKey) == (o, b, w)
  }

  ghost predicate Enabled(e: Env, s: Sys, t: Step) {
    match t
    case Reserve(op, h) => op !in s.ops && h.state.Held? && e.cents(h.amount).Some?
    case ReserveLost(h) => e.cents(h.amount).Some?
    case PlaceOk(op, _) => op in s.ops && s.ops[op].Reserving?
    case PlaceErr(op) => op in s.ops && s.ops[op].Reserving?
    case PlaceLost(op, _) => op in s.ops && s.ops[op].Reserving?
    case ReleaseOk(op) => op in s.ops && s.ops[op].Releasing?
    case OpLost(op) => op in s.ops
    case Read(_, _) => true
    case Capture(_, _) => true
    case Void(_, _, op) => op !in s.ops
    case VoidExpired(_, _) => e.kind.Postgres?
    case Expire(r, now, op) => op !in s.ops && r in s.ledger && Due(s.ledger[r], now)
    case Rebuild(o, b, w) =>
      Quiet(e, s, e.key(o, b, w)) && Unshared(e, s.ledger, o, b, w)
  }

  function Add(m: map<string, int>, k: string, v: int): map<string, int> { m[k := Get(m, k) + v] }

  /** Hands the release of r's cents to an operation, once per void or expiry. */
  function StartRelease(e: Env, s: Sys, r: HoldRef, next: Hold, op: nat): Sys {
    s.(ledger := s.ledger[r := next],
       ops := s.ops[op := Releasing(KeyOf(e, next), Cents(e, next))],
       released := s.released + multiset{r},
       settled := s.settled + {r})
  }

  function Drop(ops: map<nat, Op>, op: nat): map<nat, Op> { ops - {op} }

  ghost function Apply(e: Env, s: Sys, t: Step): Sys
    requires Enabled(e, s, t)
  {
    match t
    case Reserve(op, h) =>
      var (c, reply) := ReserveStep(s.counter, KeyOf(e, h), Cents(e, h), e.limits(KeyOf(e, h)));
      if reply.reserved then s.(counter := c, ops := s.ops[op := Reserving(h)]) else s
    case ReserveLost(h) =>
      var (c, reply) := ReserveStep(s.counter, KeyOf(e, h), Cents(e, h), e.limits(KeyOf(e, h)));
      if reply.reserved then s.(counter := c, drift := Add(s.drift, KeyOf(e, h), Cents(e, h))) else s
    case PlaceOk(op, now) =>
      var h := s.ops[op].hold;
      if RefOf(h) in s.ledger then
        s.(ops := Drop(s.ops, op), drift := Add(s.drift, KeyOf(e, h), Cents(e, h)))
      else
        s.(ops := Drop(s.ops, op), ledger := MemPlace(s.ledger, h, now))
    case PlaceErr(op) =>
      var h := s.ops[op].hold;
      s.(ops := s.ops[op := Releasing(KeyOf(e, h), Cents(e, h))])
    case PlaceLost(op, now) =>
      var h := s.ops[op].hold;
      var undoing := s.(ops := s.ops[op := Releasing(KeyOf(e, h), Cents(e, h))]);
      if RefOf(h) in s.ledger then undoing
      else undoing.(ledger := MemPlace(s.ledger, h, now), drift := Add(s.drift, KeyOf(e, h), -Cents(e, h)))
    case ReleaseOk(op) =>
      s.(counter := ReleaseStep(s.counter, s.ops[op].key, s.ops[op].cents), ops := Drop(s.ops, op))
    case OpLost(op) =>
      s.(ops := Drop(s.ops, op), drift := Add(s.drift, OpKey(e, s.ops[op]), OpCents(e, s.ops[op])))
    case Read(r, now) =>
      if e.kind.InMemory? then s.(ledger := MemGet(s.ledger, r, now).0) else s
    case Capture(r, now) =>
      if e.kind.InMemory? then s.(ledger := MemCapture(s.ledger, r, now).0)
      else if r in s.ledger && s.ledger[r].state.Held? then
        s.(ledger := s.ledger[r := s.ledger[r].(state := Captured, capturedAt := Some(now))])
      else s
    case Void(r, now, op) =>
      if e.kind.InMemory? then
        var (l, reply) := MemVoid(s.ledger, r, now);
        if reply.Ok? && reply.value.1 then StartRelease(e, s, r, reply.value.0, op) else s.(ledger := l)
      else if r in s.ledger && s.ledger[r].state.Held? then
        StartRelease(e, s, r, s.ledger[r].(state := Voided, voidedAt := Some(now)), op)
      else s
    case VoidExpired(r, now) =>
      if r in s.ledger && s.ledger[r].state.Expired? then
        s.(ledger := s.ledger[r := s.ledger[r].(state := Voided, voidedAt := Some(now))])
      else s
    case Expire(r, now, op) =>
      StartRelease(e, s, r, s.ledger[r].(state := Expired), op)
    case Rebuild(o, b, w) =>
      var k := e.key(o, b, w);
      s.(counter := s.counter[k := Wrap64(Sum(Listed(e, s.ledger, o, b, w)))],
         drift := s.drift[k := 0],
         settled := s.settled + EndedOn(e, s.ledger, k))
  }

  /** A step after which a counter no longer says what the ledger says and no later step
      of the protocol repairs it: a lost reply, a lost operation, or placing a decision id
      the ledger already has. */
  predicate Faulty(s: Sys, t: Step) {
    match t
    case ReserveLost(_) => true
    case PlaceLost(_, _) => true
    case OpLost(_) => true
    case PlaceOk(op, _) => op in s.ops && s.ops[op].Reserving? && RefOf(s.ops[op].hold) in s.ledger
    case _ => false
  }

  // ----- what each hold and operation weighs on counter k -----

  function HoldWeight(e: Env, h: Hold, settled: bool, k: string): int {
    if KeyOf(e, h) == k && (Active(h.state) || !settled) then Cents(e, h) else 0
  }

  function Counted(e: Env, l: Ledger, settled: set<HoldRef>, k: string): map<HoldRef, int> {
    map r | r in l :: HoldWeight(e, l[r], r in settled, k)
  }

  /** The held and captured cents of counter k: the spend the ledger vouches for. */
  function Spend(e: Env, l: Ledger, k: string): map<HoldRef, int> {
    map r | r in l :: if KeyOf(e, l[r]) == k && Active(l[r].state) then Cents(e, l[r]) else 0
  }

  /** Holds that ended without their cents ever being handed to a release. */
  function Leaked(e: Env, l: Ledger, settled: set<HoldRef>, k: string): map<HoldRef, int> {
    map r | r in l :: if KeyOf(e, l[r]) == k && !Active(l[r].state) && r !in settled then Cents(e, l[r]) else 0
  }

  /** What RebuildWindow adds up: the listed holds of one budget window. */
  function Listed(e: Env, l: Ledger, o: string, b: string, w: string): map<HoldRef, int> {
    map r | r in l :: if InWindow(l[r], o, b, w) then Cents(e, l[r]) else 0
  }

  function OpWeight(e: Env, o: Op, k: string): int { if OpKey(e, o) == k then OpCents(e, o) else 0 }

  function InFlight(e: Env, ops: map<nat, Op>, k: string): map<nat, int> {
    map o | o in ops :: OpWeight(e, ops[o], k)
  }

  /** What counter k says beyond the cents held, captured and in flight on it. */
  ghost function Slack(e: Env, s: Sys, k: string): int {
    Get(s.counter, k) - Sum(Spend(e, s.ledger, k)) - Sum(InFlight(e, s.ops, k))
  }

  /** A placed hold whose reply is lost is undone on the counter alone. That is harmless
      when nothing was placed, the decision id being known, or when the counter says at
      least that much too much. */
  ghost predicate HarmlessLoss(e: Env, s: Sys, h: Hold) {
    RefOf(h) in s.ledger || Cents(e, h) <= Slack(e, s, KeyOf(e, h))
  }

  /** The steps that keep the books: reserves within int64, and harmless place losses. */
  ghost predicate Tame(e: Env, s: Sys, t: Step) {
    match t
    case Reserve(_, h) => InRange(e, h)
    case ReserveLost(h) => InRange(e, h)
    case PlaceLost(op, _) => op in s.ops && s.ops[op].Reserving? && HarmlessLoss(e, s, s.ops[op].hold)
    case _ => true
  }

  ghost predicate Balance(e: Env, s: Sys, k: string) {
    Get(s.counter, k) == Sum(Counted(e, s.ledger, s.settled, k)) + Sum(InFlight(e, s.ops, k)) + Get(s.drift, k)
  }

  /** Bookkeeping that does not mention counters. */
  ghost predicate Orderly(e: Env, s: Sys) {
    && WellKeyed(s.ledger)
    && (forall r :: r in s.ledger ==> 0 <= Cents(e, s.ledger[r]) < TWO_63)
    && (forall o :: o in s.ops ==> 0 <= OpCents(e, s.ops[o]) < TWO_63)
    && (forall o :: o in s.ops && s.ops[o].Reserving? ==> s.ops[o].hold.state.Held?)
    && (forall r :: r in s.settled ==> r in s.ledger && !Active(s.ledger[r].state))
    && (forall r :: r in s.released ==> r in s.settled && s.released[r] == 1)
    && (e.kind.Postgres? ==> forall r :: r in s.ledger && !Active(s.ledger[r].state) ==> r in s.settled)
  }

  /** Every counter covers what is spent and owed on it and is within its limit, and
      every cent on it is accounted for. */
  ghost predicate Accounted(e: Env, s: Sys) {
    && (forall k :: 0 <= Slack(e, s, k))
    && (forall k :: Balance(e, s, k))
    && (forall k :: Get(s.counter, k) <= Cap(e, k))
  }

  /** Limits and amounts are int64 values. */
  ghost predicate EnvOk(e: Env) {
    && (forall k :: -TWO_63 <= e.limits(k) < TWO_63)
    && (forall a :: e.cents(a).Some? ==> -TWO_63 <= e.cents(a).value < TWO_63)
  }

  ghost predicate Inv(e: Env, s: Sys) { EnvOk(e) && Orderly(e, s) && Accounted(e, s) }

  // ----- how the sums move -----

  lemma CountedUpdate(e: Env, l: Ledger, st: set<HoldRef>, r: HoldRef, h: Hold, st': set<HoldRef>, k: string)
    requires st' == st || st' == st + {r}
    ensures Sum(Counted(e, l[r := h], st', k)) ==
            Sum(Counted(e, l, st, k)) - (if r in l then HoldWeight(e, l[r], r in st, k) else 0)
            + HoldWeight(e, h, r in st', k)
  {
    assert Counted(e, l[r := h], st', k) == Counted(e, l, st, k)[r := HoldWeight(e, h, r in st', k)];
    SumUpdate(Counted(e, l, st, k), r, HoldWeight(e, h, r in st', k));
  }

  function SpendWeight(e: Env, h: Hold, k: string): int {
    if KeyOf(e, h) == k && Active(h.state) then Cents(e, h) else 0
  }

  lemma SpendUpdate(e: Env, l: Ledger, r: HoldRef, h: Hold, k: string)
    ensures Sum(Spend(e, l[r := h], k)) ==
            Sum(Spend(e, l, k)) - (if r in l then SpendWeight(e, l[r], k) else 0) + SpendWeight(e, h, k)
  {
    assert Spend(e, l[r := h], k) == Spend(e, l, k)[r := SpendWeight(e, h, k)];
    SumUpdate(Spend(e, l, k), r, SpendWeight(e, h, k));
  }

  lemma InFlightUpdate(e: Env, ops: map<nat, Op>, o: nat, op: Op, k: string)
    ensures Sum(InFlight(e, ops[o := op], k)) ==
            Sum(InFlight(e, ops, k)) - (if o in ops then OpWeight(e, ops[o], k) else 0) + OpWeight(e, op, k)
  {
    assert InFlight(e, ops[o := op], k) == InFlight(e, ops, k)[o := OpWeight(e, op, k)];
    SumUpdate(InFlight(e, ops, k), o, OpWeight(e, op, k));
  }

  lemma InFlightDrop(e: Env, ops: map<nat, Op>, o: nat, k: string)
    requires o in ops
    ensures Sum(InFlight(e, Drop(ops, o), k)) == Sum(InFlight(e, ops, k)) - OpWeight(e, ops[o], k)
  {
    assert InFlight(e, Drop(ops, o), k) == InFlight(e, ops, k) - {o};
    SumRemove(InFlight(e, ops, k), o);
  }

  lemma GetAdd(m: map<string, int>, k: string, v: int, j: string)
    ensures Get(Add(m, k, v), j) == Get(m, j) + if j == k then v else 0
  {
  }

  /** Everything owed on a counter is covered by its value. */
  lemma CounterCovers(e: Env, s: Sys, k: string)
    requires Inv(e, s)
    ensures 0 <= Sum(Spend(e, s.ledger, k)) && 0 <= Sum(InFlight(e, s.ops, k))
    ensures Sum(Spend(e, s.ledger, k)) + Sum(InFlight(e, s.ops, k)) <= Get(s.counter, k) <= Cap(e, k)
    ensures forall o :: o in s.ops && OpKey(e, s.ops[o]) == k ==> OpCents(e, s.ops[o]) <= Get(s.counter, k)
  {
    assert 0 <= Slack(e, s, k) && Get(s.counter, k) <= Cap(e, k);
    SumNonNegative(Spend(e, s.ledger, k));
    SumNonNegative(InFlight(e, s.ops, k));
    forall o | o in s.ops && OpKey(e, s.ops[o]) == k ensures OpCents(e, s.ops[o]) <= Get(s.counter, k) {
      SumAtLeast(InFlight(e, s.ops, k), o);
    }
  }

  // ----- each step keeps the invariant -----

  /** The sum a reserve compares with the limit does not wrap. */
  predicate Fits(e: Env, s: Sys, h: Hold) { 0 <= Cents(e, h) && Get(s.counter, KeyOf(e, h)) + Cents(e, h) < TWO_63 }

  /** A reserve that goes through adds exactly its cents to one counter. */
  lemma ReserveAdds(e: Env, s: Sys, h: Hold)
    requires Inv(e, s) && Fits(e, s, h)
    ensures var (c, reply) := ReserveStep(s.counter, KeyOf(e, h), Cents(e, h), e.limits(KeyOf(e, h)));
            && reply.reserved == (Get(s.counter, KeyOf(e, h)) + Cents(e, h) <= e.limits(KeyOf(e, h)))
            && c == if reply.reserved then Add(s.counter, KeyOf(e, h), Cents(e, h)) else s.counter
  {
    CounterCovers(e, s, KeyOf(e, h));
  }

  lemma ReserveOrderly(e: Env, s: Sys, t: Step)
    requires EnvOk(e) && Orderly(e, s) && (t.Reserve? || t.ReserveLost?) && Enabled(e, s, t) && Fits(e, s, t.hold)
    ensures Orderly(e, Apply(e, s, t))
  {
  }

  lemma ReserveBalances(e: Env, s: Sys, t: Step, k: string)
    requires Inv(e, s) && (t.Reserve? || t.ReserveLost?) && Enabled(e, s, t) && Fits(e, s, t.hold)
    ensures var s' := Apply(e, s, t);
            Slack(e, s, k) <= Slack(e, s', k) && Balance(e, s', k) && Get(s'.counter, k) <= Cap(e, k)
  {
    var key, cents := KeyOf(e, t.hold), Cents(e, t.hold);
    assert Balance(e, s, k) && Get(s.counter, k) <= Cap(e, k);
    ReserveAdds(e, s, t.hold);
    GetAdd(s.counter, key, cents, k);
    GetAdd(s.drift, key, cents, k);
    if t.Reserve? { InFlightUpdate(e, s.ops, t.op, Reserving(t.hold), k); }
  }

  lemma ReserveKeeps(e: Env, s: Sys, t: Step)
    requires Inv(e, s) && (t.Reserve? || t.ReserveLost?) && Enabled(e, s, t) && Fits(e, s, t.hold)
    ensures Inv(e, Apply(e, s, t))
  {
    ReserveOrderly(e, s, t);
    var s' := Apply(e, s, t);
    forall k ensures 0 <= Slack(e, s', k) && Balance(e, s', k) && Get(s'.counter, k) <= Cap(e, k) {
      assert 0 <= Slack(e, s, k);
      ReserveBalances(e, s, t, k);
    }
  }

  lemma PlaceFreshOrderly(e: Env, s: Sys, op: nat, h: Hold)
    requires Orderly(e, s) && op in s.ops && s.ops[op].Reserving? && RefOf(h) !in s.ledger
    requires h == s.ops[op].hold.(createdAt := h.createdAt)
    ensures OpKey(e, s.ops[op]) == KeyOf(e, h) && OpCents(e, s.ops[op]) == Cents(e, h) && Active(h.state)
    ensures Orderly(e, s.(ops := Drop(s.ops, op), ledger := s.ledger[RefOf(h) := h]))
  {
  }

  lemma PlaceFreshBalances(e: Env, s: Sys, op: nat, h: Hold, k: string)
    requires Balance(e, s, k) && op in s.ops && RefOf(h) !in s.ledger && Active(h.state)
    requires OpKey(e, s.ops[op]) == KeyOf(e, h) && OpCents(e, s.ops[op]) == Cents(e, h)
    ensures var s' := s.(ops := Drop(s.ops, op), ledger := s.ledger[RefOf(h) := h]);
            Balance(e, s', k) && Slack(e, s', k) == Slack(e, s, k)
  {
    InFlightDrop(e, s.ops, op, k);
    CountedUpdate(e, s.ledger, s.settled, RefOf(h), h, s.settled, k);
    SpendUpdate(e, s.ledger, RefOf(h), h, k);
  }

  lemma PlaceFreshKeeps(e: Env, s: Sys, op: nat, h: Hold)
    requires Inv(e, s) && op in s.ops && s.ops[op].Reserving? && RefOf(h) !in s.ledger
    requires h == s.ops[op].hold.(createdAt := h.createdAt)
    ensures Inv(e, s.(ops := Drop(s.ops, op), ledger := s.ledger[RefOf(h) := h]))
  {
    var s' := s.(ops := Drop(s.ops, op), ledger := s.ledger[RefOf(h) := h]);
    PlaceFreshOrderly(e, s, op, h);
    forall k ensures Balance(e, s', k) && 0 <= Slack(e, s', k) {
      assert Balance(e, s, k) && 0 <= Slack(e, s, k);
      PlaceFreshBalances(e, s, op, h, k);
    }
  }

  lemma PlaceOkKeeps(e: Env, s: Sys, t: Step)
    requires Inv(e, s) && t.PlaceOk? && Enabled(e, s, t)
    ensures Inv(e, Apply(e, s, t))
  {
    var s', h := Apply(e, s, t), s.ops[t.op].hold;
    if RefOf(h) in s.ledger {
      OpLostKeeps(e, s, OpLost(t.op));
      assert s' == Apply(e, s, OpLost(t.op));
    } else {
      PlaceFreshKeeps(e, s, t.op, s'.ledger[RefOf(h)]);
    }
  }

  lemma PlaceErrBalances(e: Env, s: Sys, t: Step, k: string)
    requires Balance(e, s, k) && t.PlaceErr? && Enabled(e, s, t)
    ensures Balance(e, Apply(e, s, t), k) && Slack(e, Apply(e, s, t), k) == Slack(e, s, k)
  {
    var h := s.ops[t.op].hold;
    InFlightUpdate(e, s.ops, t.op, Releasing(KeyOf(e, h), Cents(e, h)), k);
  }

  lemma PlaceErrKeeps(e: Env, s: Sys, t: Step)
    requires Inv(e, s) && t.PlaceErr? && Enabled(e, s, t)
    ensures Inv(e, Apply(e, s, t))
  {
    var s' := Apply(e, s, t);
    assert 0 <= OpCents(e, s.ops[t.op]) < TWO_63;
    forall k ensures Balance(e, s', k) && 0 <= Slack(e, s', k) {
      assert Balance(e, s, k) && 0 <= Slack(e, s, k);
      PlaceErrBalances(e, s, t, k);
    }
  }

  lemma PlacedOrderly(e: Env, s: Sys, h: Hold, drift: map<string, int>)
    requires Orderly(e, s) && RefOf(h) !in s.ledger && 0 <= Cents(e, h) < TWO_63 && Active(h.state)
    ensures Orderly(e, s.(ledger := s.ledger[RefOf(h) := h], drift := drift))
  {
  }

  /** A hold that appears on the ledger while its cents are about to be taken off again. */
  lemma PlacedBalances(e: Env, s: Sys, h: Hold, k: string)
    requires Balance(e, s, k) && RefOf(h) !in s.ledger && Active(h.state)
    ensures var s' := s.(ledger := s.ledger[RefOf(h) := h], drift := Add(s.drift, KeyOf(e, h), -Cents(e, h)));
            Balance(e, s', k) && Slack(e, s', k) == Slack(e, s, k) - if k == KeyOf(e, h) then Cents(e, h) else 0
  {
    GetAdd(s.drift, KeyOf(e, h), -Cents(e, h), k);
    CountedUpdate(e, s.ledger, s.settled, RefOf(h), h, s.settled, k);
    SpendUpdate(e, s.ledger, RefOf(h), h, k);
  }

  lemma PlacedKeepsIff(e: Env, s: Sys, h: Hold)
    requires Inv(e, s) && RefOf(h) !in s.ledger && 0 <= Cents(e, h) < TWO_63 && Active(h.state)
    ensures Inv(e, s.(ledger := s.ledger[RefOf(h) := h], drift := Add(s.drift, KeyOf(e, h), -Cents(e, h))))
            <==> Cents(e, h) <= Slack(e, s, KeyOf(e, h))
  {
    var d := Add(s.drift, KeyOf(e, h), -Cents(e, h));
    var s' := s.(ledger := s.ledger[RefOf(h) := h], drift := d);
    PlacedOrderly(e, s, h, d);
    forall k ensures Balance(e, s', k) && Slack(e, s', k) == Slack(e, s, k) - if k == KeyOf(e, h) then Cents(e, h) else 0 {
      assert Balance(e, s, k);
      PlacedBalances(e, s, h, k);
    }
    assert Slack(e, s', KeyOf(e, h)) == Slack(e, s, KeyOf(e, h)) - Cents(e, h);
    forall k | k != KeyOf(e, h) ensures 0 <= Slack(e, s', k) { assert 0 <= Slack(e, s, k); }
  }

  /** The hold as the ledger writes it. */
  function Dated(h: Hold, now: int): Hold { if h.createdAt == None then h.(createdAt := Some(now)) else h }

  /** A lost place is a failed place, except that the hold is there. */
  lemma PlaceLostShape(e: Env, s: Sys, t: Step)
    requires t.PlaceLost? && Enabled(e, s, t)
    ensures var undoing, h := Apply(e, s, PlaceErr(t.op)), Dated(s.ops[t.op].hold, t.now);
            && undoing.ledger == s.ledger && RefOf(h) == RefOf(s.ops[t.op].hold)
            && Apply(e, s, t) == if RefOf(h) in s.ledger then undoing
                                 else undoing.(ledger := s.ledger[RefOf(h) := h],
                                               drift := Add(s.drift, KeyOf(e, h), -Cents(e, h)))
  {
  }

  lemma FreshLossKeepsIff(e: Env, s: Sys, t: Step, h: Hold)
    requires Inv(e, s) && t.PlaceLost? && Enabled(e, s, t)
    requires h == Dated(s.ops[t.op].hold, t.now) && RefOf(h) !in s.ledger
    ensures Inv(e, Apply(e, s, t)) <==> Cents(e, h) <= Slack(e, s, KeyOf(e, h))
  {
    var undoing := Apply(e, s, PlaceErr(t.op));
    PlaceErrKeeps(e, s, PlaceErr(t.op));
    assert Balance(e, s, KeyOf(e, h)) && 0 <= OpCents(e, s.ops[t.op]) < TWO_63 && h.state.Held?;
    PlaceErrBalances(e, s, PlaceErr(t.op), KeyOf(e, h));
    PlaceLostShape(e, s, t);
    PlacedKeepsIff(e, undoing, h);
  }

  /** The books survive a lost place exactly if the loss is harmless. */
  lemma PlaceLostKeepsIff(e: Env, s: Sys, t: Step)
    requires Inv(e, s) && t.PlaceLost? && Enabled(e, s, t)
    ensures Inv(e, Apply(e, s, t)) <==> HarmlessLoss(e, s, s.ops[t.op].hold)
  {
    PlaceLostShape(e, s, t);
    if RefOf(s.ops[t.op].hold) in s.ledger {
      PlaceErrKeeps(e, s, PlaceErr(t.op));
    } else {
      FreshLossKeepsIff(e, s, t, Dated(s.ops[t.op].hold, t.now));
    }
  }

  /** An operation leaves and its cents leave the counter, or become drift. */
  lemma DropBalances(e: Env, s: Sys, op: nat, counter: map<string, int>, drift: map<string, int>, k: string)
    requires op in s.ops && Balance(e, s, k)
    requires Get(counter, k) - Get(drift, k) == Get(s.counter, k) - Get(s.drift, k) - OpWeight(e, s.ops[op], k)
    ensures var s' := s.(counter := counter, drift := drift, ops := Drop(s.ops, op));
            Balance(e, s', k) && Slack(e, s', k) == Slack(e, s, k) + Get(drift, k) - Get(s.drift, k)
  {
    InFlightDrop(e, s.ops, op, k);
  }

  lemma ReleaseKeeps(e: Env, s: Sys, t: Step)
    requires Inv(e, s) && t.ReleaseOk? && Enabled(e, s, t)
    ensures Inv(e, Apply(e, s, t))
  {
    var key, cents := s.ops[t.op].key, s.ops[t.op].cents;
    assert OpKey(e, s.ops[t.op]) == key && 0 <= OpCents(e, s.ops[t.op]) == cents;
    CounterCovers(e, s, key);
    var c, s' := ReleaseStep(s.counter, key, cents), Apply(e, s, t);
    forall k ensures Get(c, k) == Get(s.counter, k) - OpWeight(e, s.ops[t.op], k) {}
    forall k ensures Balance(e, s', k) && 0 <= Slack(e, s', k) && Get(s'.counter, k) <= Cap(e, k) {
      assert Balance(e, s, k) && 0 <= Slack(e, s, k) && Get(s.counter, k) <= Cap(e, k);
      DropBalances(e, s, t.op, c, s.drift, k);
    }
  }

  lemma OpLostKeeps(e: Env, s: Sys, t: Step)
    requires Inv(e, s) && t.OpLost? && Enabled(e, s, t)
    ensures Inv(e, Apply(e, s, t))
  {
    var key, cents := OpKey(e, s.ops[t.op]), OpCents(e, s.ops[t.op]);
    var d, s' := Add(s.drift, key, cents), Apply(e, s, t);
    forall k ensures 0 <= Slack(e, s', k) && Balance(e, s', k) {
      assert Balance(e, s, k) && 0 <= Slack(e, s, k);
      GetAdd(s.drift, key, cents, k);
      DropBalances(e, s, t.op, s.counter, d, k);
    }
  }

  lemma MoveOrderly(e: Env, s: Sys, r: HoldRef, h: Hold)
    requires Orderly(e, s) && r in s.ledger && RowAdvances(s.ledger[r], h)
    requires Active(s.ledger[r].state) && !Active(h.state) ==> e.kind.InMemory?
    ensures Orderly(e, s.(ledger := s.ledger[r := h]))
    ensures Cents(e, h) == Cents(e, s.ledger[r]) && KeyOf(e, h) == KeyOf(e, s.ledger[r])
    ensures forall k :: HoldWeight(e, h, r in s.settled, k) == HoldWeight(e, s.ledger[r], r in s.settled, k)
  {
  }

  /** Moving a hold along the lifecycle without handing out a release leaves its weight
      where it was: an expiry nobody releases keeps counting. */
  lemma MoveKeeps(e: Env, s: Sys, r: HoldRef, h: Hold)
    requires Inv(e, s) && r in s.ledger && RowAdvances(s.ledger[r], h)
    requires Active(s.ledger[r].state) && !Active(h.state) ==> e.kind.InMemory?
    ensures Inv(e, s.(ledger := s.ledger[r := h]))
  {
    var s' := s.(ledger := s.ledger[r := h]);
    MoveOrderly(e, s, r, h);
    forall k ensures Balance(e, s', k) && 0 <= Slack(e, s', k) {
      assert Balance(e, s, k) && 0 <= Slack(e, s, k) && 0 <= Cents(e, s.ledger[r]);
      CountedUpdate(e, s.ledger, s.settled, r, h, s.settled, k);
      SpendUpdate(e, s.ledger, r, h, k);
    }
  }

  lemma StartReleaseOrderly(e: Env, s: Sys, r: HoldRef, h: Hold, op: nat)
    requires Orderly(e, s) && r in s.ledger && RowAdvances(s.ledger[r], h)
    requires s.ledger[r].state.Held? && !Active(h.state) && op !in s.ops
    ensures Orderly(e, StartRelease(e, s, r, h, op))
  {
    assert Cents(e, h) == Cents(e, s.ledger[r]);
  }

  lemma StartReleaseBalances(e: Env, s: Sys, r: HoldRef, h: Hold, op: nat, k: string)
    requires Inv(e, s) && r in s.ledger && RowAdvances(s.ledger[r], h)
    requires s.ledger[r].state.Held? && !Active(h.state) && op !in s.ops
    ensures var s' := StartRelease(e, s, r, h, op); Balance(e, s', k) && Slack(e, s', k) == Slack(e, s, k)
  {
    var s' := StartRelease(e, s, r, h, op);
    assert Balance(e, s, k) && Cents(e, h) == Cents(e, s.ledger[r]);
    SpendUpdate(e, s.ledger, r, h, k);
    CountedUpdate(e, s.ledger, s.settled, r, h, s'.settled, k);
    InFlightUpdate(e, s.ops, op, Releasing(KeyOf(e, h), Cents(e, h)), k);
  }

  lemma StartReleaseKeeps(e: Env, s: Sys, r: HoldRef, h: Hold, op: nat)
    requires Inv(e, s) && r in s.ledger && RowAdvances(s.ledger[r], h)
    requires s.ledger[r].state.Held? && !Active(h.state) && op !in s.ops
    ensures Inv(e, StartRelease(e, s, r, h, op))
  {
    StartReleaseOrderly(e, s, r, h, op);
    var s' := StartRelease(e, s, r, h, op);
    forall k ensures Balance(e, s', k) && 0 <= Slack(e, s', k) {
      assert 0 <= Slack(e, s, k);
      StartReleaseBalances(e, s, r, h, op, k);
    }
  }

  /** One existing hold moved along the lifecycle and nothing else changed. */
  ghost predicate Moves(e: Env, s: Sys, r: HoldRef, s': Sys) {
    && r in s.ledger && r in s'.ledger && RowAdvances(s.ledger[r], s'.ledger[r])
    && s' == s.(ledger := s.ledger[r := s'.ledger[r]])
    && (Active(s.ledger[r].state) && !Active(s'.ledger[r].state) ==> e.kind.InMemory?)
  }

  /** One held hold ended and its release was handed to operation op. */
  ghost predicate HandsOut(e: Env, s: Sys, r: HoldRef, op: nat, s': Sys) {
    && r in s.ledger && r in s'.ledger && RowAdvances(s.ledger[r], s'.ledger[r])
    && s.ledger[r].state.Held? && !Active(s'.ledger[r].state)
    && s' == StartRelease(e, s, r, s'.ledger[r], op)
  }

  predicate LedgerStep(t: Step) { t.Read? || t.Capture? || t.Void? || t.VoidExpired? || t.Expire? }

  /** Every other step leaves the ledger alone or places one hold. */
  lemma OtherStepLedger(e: Env, s: Sys, t: Step)
    requires Enabled(e, s, t) && !LedgerStep(t)
    ensures var s' := Apply(e, s, t);
            && (t.PlaceOk? || t.PlaceLost? ==> s'.ledger == MemPlace(s.ledger, s.ops[t.op].hold, t.now))
            && (!t.PlaceOk? && !t.PlaceLost? ==> s'.ledger == s.ledger)
            && (!t.Rebuild? ==> s'.settled == s.settled)
  {
  }

  /** Every ledger step does one of three things, and only a void or an expiry of a hold
      that was still held hands out a release. */
  lemma LedgerStepShape(e: Env, s: Sys, t: Step)
    requires LedgerStep(t) && Enabled(e, s, t)
    ensures var s' := Apply(e, s, t);
            || s' == s || Moves(e, s, t.ref, s')
            || ((t.Void? || t.Expire?) && HandsOut(e, s, t.ref, t.op, s'))
  {
    if t.Expire? {
      ExpireShape(e, s, t);
    } else if !t.Void? {
      PlainStepShape(e, s, t);
    } else if e.kind.InMemory? {
      MemVoidShape(e, s, t);
    } else {
      SqlVoidShape(e, s, t);
    }
  }

  lemma PlainStepShape(e: Env, s: Sys, t: Step)
    requires (t.Read? || t.Capture? || t.VoidExpired?) && Enabled(e, s, t)
    ensures Apply(e, s, t) == s || Moves(e, s, t.ref, Apply(e, s, t))
  {
    match t
    case Read(r, now) => ReadShape(e, s, r, now);
    case Capture(r, now) => CaptureShape(e, s, r, now);
    case VoidExpired(r, now) => VoidExpiredShape(e, s, r, now);
  }

  lemma ReadShape(e: Env, s: Sys, r: HoldRef, now: int)
    ensures Apply(e, s, Read(r, now)) == s || Moves(e, s, r, Apply(e, s, Read(r, now)))
  {
  }

  lemma CaptureShape(e: Env, s: Sys, r: HoldRef, now: int)
    ensures Apply(e, s, Capture(r, now)) == s || Moves(e, s, r, Apply(e, s, Capture(r, now)))
  {
  }

  lemma VoidExpiredShape(e: Env, s: Sys, r: HoldRef, now: int)
    requires e.kind.Postgres?
    ensures Apply(e, s, VoidExpired(r, now)) == s || Moves(e, s, r, Apply(e, s, VoidExpired(r, now)))
  {
  }

  lemma ExpireShape(e: Env, s: Sys, t: Step)
    requires t.Expire? && Enabled(e, s, t)
    ensures HandsOut(e, s, t.ref, t.op, Apply(e, s, t))
  {
    assert Apply(e, s, t).ledger[t.ref] == s.ledger[t.ref].(state := Expired);
  }

  lemma SqlVoidShape(e: Env, s: Sys, t: Step)
    requires t.Void? && e.kind.Postgres? && Enabled(e, s, t)
    ensures Apply(e, s, t) == s || HandsOut(e, s, t.ref, t.op, Apply(e, s, t))
  {
    var s' := Apply(e, s, t);
    if s' != s {
      assert s'.ledger[t.ref] == s.ledger[t.ref].(state := Voided, voidedAt := Some(t.now));
    }
  }

  lemma MemVoidShape(e: Env, s: Sys, t: Step)
    requires t.Void? && e.kind.InMemory? && Enabled(e, s, t)
    ensures var s' := Apply(e, s, t);
            s' == s || Moves(e, s, t.ref, s') || HandsOut(e, s, t.ref, t.op, s')
  {
    var s' := Apply(e, s, t);
    if t.ref in s.ledger {
      var (l, reply) := MemVoid(s.ledger, t.ref, t.now);
      MemVoidRow(s.ledger, t.ref, t.now);
      if reply.Ok? && reply.value.1 {
        assert s'.ledger[t.ref] == reply.value.0;
      } else {
        assert s' == s.(ledger := l);
      }
    }
  }

  lemma MemVoidRow(l: Ledger, r: HoldRef, now: int)
    requires r in l
    ensures var (l', reply) := MemVoid(l, r, now);
            && r in l' && l' == l[r := l'[r]] && RowAdvances(l[r], l'[r])
            && (reply.Ok? ==> reply.value.0 == l'[r])
            && (reply.Ok? && reply.value.1 ==> l[r].state.Held? && l'[r].state.Voided?)
  {
  }

  lemma LedgerStepKeeps(e: Env, s: Sys, t: Step)
    requires Inv(e, s) && LedgerStep(t) && Enabled(e, s, t)
    ensures Inv(e, Apply(e, s, t))
  {
    LedgerStepShape(e, s, t);
    var s' := Apply(e, s, t);
    if s' == s {
    } else if Moves(e, s, t.ref, s') {
      MoveKeeps(e, s, t.ref, s'.ledger[t.ref]);
    } else {
      StartReleaseKeeps(e, s, t.ref, s'.ledger[t.ref], t.op);
    }
  }

  lemma SpendIsCountedMinusLeaked(e: Env, l: Ledger, settled: set<HoldRef>, k: string)
    ensures Sum(Counted(e, l, settled, k)) == Sum(Spend(e, l, k)) + Sum(Leaked(e, l, settled, k))
  {
    SumAdd(Counted(e, l, settled, k), Spend(e, l, k), Leaked(e, l, settled, k));
  }

  lemma ListedIsSpend(e: Env, l: Ledger, o: string, b: string, w: string)
    requires Unshared(e, l, o, b, w)
    ensures Listed(e, l, o, b, w) == Spend(e, l, e.key(o, b, w))
  {
  }

  function EndedOn(e: Env, l: Ledger, k: string): set<HoldRef> {
    set r | r in l && KeyOf(e, l[r]) == k && !Active(l[r].state)
  }

  lemma SettleCounted(e: Env, l: Ledger, settled: set<HoldRef>, key: string, k: string)
    ensures Counted(e, l, settled + EndedOn(e, l, key), k) == if k == key then Spend(e, l, k) else Counted(e, l, settled, k)
  {
  }

  /** The listed sum of a quiet window fits its limit, so writing it does not wrap. */
  lemma ListedFits(e: Env, s: Sys, o: string, b: string, w: string)
    requires Inv(e, s) && Unshared(e, s.ledger, o, b, w)
    ensures 0 <= Sum(Listed(e, s.ledger, o, b, w)) <= Cap(e, e.key(o, b, w)) < TWO_63
    ensures Sum(Listed(e, s.ledger, o, b, w)) == Sum(Spend(e, s.ledger, e.key(o, b, w)))
  {
    var k := e.key(o, b, w);
    ListedIsSpend(e, s.ledger, o, b, w);
    CounterCovers(e, s, k);
  }

  lemma RebuildBalances(e: Env, s: Sys, t: Step, k: string)
    requires Inv(e, s) && t.Rebuild? && Enabled(e, s, t)
    ensures var s' := Apply(e, s, t);
            0 <= Slack(e, s', k) && Balance(e, s', k) && Get(s'.counter, k) <= Cap(e, k)
  {
    var key := e.key(t.org, t.budget, t.windowKey);
    ListedFits(e, s, t.org, t.budget, t.windowKey);
    assert Balance(e, s, k) && 0 <= Slack(e, s, k) && Get(s.counter, k) <= Cap(e, k);
    SettleCounted(e, s.ledger, s.settled, key, k);
    if k == key { SumZero(InFlight(e, s.ops, k)); }
  }

  lemma RebuildKeeps(e: Env, s: Sys, t: Step)
    requires Inv(e, s) && t.Rebuild? && Enabled(e, s, t)
    ensures Inv(e, Apply(e, s, t))
  {
    var s' := Apply(e, s, t);
    assert Orderly(e, s');
    forall k ensures 0 <= Slack(e, s', k) && Balance(e, s', k) && Get(s'.counter, k) <= Cap(e, k) {
      RebuildBalances(e, s, t, k);
    }
  }

  lemma StepKeeps(e: Env, s: Sys, t: Step)
    requires Inv(e, s) && Enabled(e, s, t) && Tame(e, s, t)
    ensures Inv(e, Apply(e, s, t))
  {
    match t
    case Reserve(_, h) => assert Get(s.counter, KeyOf(e, h)) <= Cap(e, KeyOf(e, h)); ReserveKeeps(e, s, t);
    case ReserveLost(h) => assert Get(s.counter, KeyOf(e, h)) <= Cap(e, KeyOf(e, h)); ReserveKeeps(e, s, t);
    case PlaceOk(_, _) => PlaceOkKeeps(e, s, t);
    case PlaceErr(_) => PlaceErrKeeps(e, s, t);
    case PlaceLost(_, _) => PlaceLostKeepsIff(e, s, t);
    case ReleaseOk(_) => ReleaseKeeps(e, s, t);
    case OpLost(_) => OpLostKeeps(e, s, t);
    case Rebuild(_, _, _) => RebuildKeeps(e, s, t);
    case _ => LedgerStepKeeps(e, s, t);
  }
}
