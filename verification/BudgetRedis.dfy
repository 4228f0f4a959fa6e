/** The budget protocol over the stores that are wired: the Lua counter with its key
    lifetimes (internal/budget/redis.go) and the reservation ledger. */
module BudgetRedis {
  import opened Base
  import opened Sums
  import opened Holds
  import opened Windows
  import opened BudgetProtocol
  import opened BudgetTheorems
  import RC = RedisCounter

  datatype Stores = Stores(keys: RC.Keys, ledger: Ledger, ops: map<nat, Op>)

  /** A step, the instant at which it reaches the stores, and for a reserve the instant
      that chose the window. */
  datatype Timed = Timed(at: int, seen: int, step: Step)

  /** What of the protocol's state is not the counter. */
  function Bare(x: Stores): Sys { Sys(map[], x.ledger, x.ops, map[], multiset{}, {}) }

  /** The counter call a step makes, if it makes one. */
  ghost function CallOf(e: Env, x: Stores, u: Timed): Option<RC.Call>
    requires Enabled(e, Bare(x), u.step)
  {
    match u.step
    case Reserve(_, h) => Some(RC.Reserve(KeyOf(e, h), Cents(e, h), e.limits(KeyOf(e, h)), u.seen))
    case ReserveLost(h) => Some(RC.Reserve(KeyOf(e, h), Cents(e, h), e.limits(KeyOf(e, h)), u.seen))
    case ReleaseOk(op) => Some(RC.Release(x.ops[op].key, x.ops[op].cents))
    case Rebuild(o, b, w) => Some(RC.Set(e.key(o, b, w), Wrap64(Sum(Listed(e, x.ledger, o, b, w)))))
    case _ => None
  }

  /** Scripts run on the keys; every other step is the protocol's. */
  ghost function RedisApply(e: Env, p: RC.Plan, x: Stores, u: Timed): Stores
    requires Enabled(e, Bare(x), u.step)
  {
    match CallOf(e, x, u)
    case None => x.(ledger := Apply(e, Bare(x), u.step).ledger, ops := Apply(e, Bare(x), u.step).ops)
    case Some(call) =>
      var (keys, replies) := RC.RedisStep(p, x.keys, RC.Event(u.at, call));
      match u.step
      case Reserve(op, h) => x.(keys := keys, ops := if replies[0].reserved then x.ops[op := Reserving(h)] else x.ops)
      case ReleaseOk(op) => x.(keys := keys, ops := Drop(x.ops, op))
      case _ => x.(keys := keys)
  }

  /** The counters live in calendar windows, amounts are exact in Lua, a reserve reaches
      the counter at most a day after its window was chosen, and a rebuild does not write
      a window that has not begun. */
  ghost predicate Scheduled(e: Env, p: RC.Plan, x: Stores, u: Timed)
    requires Enabled(e, Bare(x), u.step)
  {
    match u.step
    case Reserve(_, h) => ReserveScheduled(e, p, h, u)
    case ReserveLost(h) => ReserveScheduled(e, p, h, u)
    case ReleaseOk(op) => Sticky(p.window(x.ops[op].key))
    case Rebuild(o, b, w) =>
      Sticky(p.window(e.key(o, b, w))) && exists t0 :: t0 <= u.at && RC.InPeriod(p, e.key(o, b, w), t0)
    case _ => true
  }

  predicate ReserveScheduled(e: Env, p: RC.Plan, h: Hold, u: Timed) {
    && Sticky(p.window(KeyOf(e, h))) && RC.InPeriod(p, KeyOf(e, h), u.seen) && u.seen <= u.at <= u.seen + DAY_MS
    && 0 <= Cents(e, h) < RC.LUA_EXACT
  }

  /** A lost place is harmless when the decision id is known or the live key says at least
      that much too much. */
  ghost predicate Harmless(e: Env, x: Stores, u: Timed)
    requires Enabled(e, Bare(x), u.step)
  {
    u.step.PlaceLost? ==>
      var h := x.ops[u.step.op].hold;
      var k := KeyOf(e, h);
      || RefOf(h) in x.ledger
      || Sum(Spend(e, x.ledger, k)) + Sum(InFlight(e, x.ops, k)) + Cents(e, h) <= RC.Value(x.keys, k, u.at)
  }

  ghost predicate RedisStepAt(e: Env, p: RC.Plan, xs: seq<Stores>, us: seq<Timed>, i: nat)
    requires |xs| == |us| + 1 && i < |us|
  {
    && Enabled(e, Bare(xs[i]), us[i].step) && xs[i + 1] == RedisApply(e, p, xs[i], us[i])
    && Clock(us, i) <= us[i].at
  }

  /** The clock before step i. */
  function Clock(us: seq<Timed>, i: nat): int
    requires i <= |us|
  {
    if i > 0 then us[i - 1].at else if us == [] then 0 else us[0].at
  }

  /** An execution on one clock, from empty stores. */
  ghost predicate RedisRun(e: Env, p: RC.Plan, xs: seq<Stores>, us: seq<Timed>) {
    && |xs| == |us| + 1 && xs[0] == Stores(map[], map[], map[])
    && forall i: nat :: i < |us| ==> RedisStepAt(e, p, xs, us, i)
  }

  ghost predicate WellRunAt(e: Env, p: RC.Plan, xs: seq<Stores>, us: seq<Timed>, i: nat)
    requires |xs| == |us| + 1 && i < |us| && Enabled(e, Bare(xs[i]), us[i].step)
  {
    Scheduled(e, p, xs[i], us[i]) && Harmless(e, xs[i], us[i])
  }

  /** Limits are exact in Lua as well. */
  ghost predicate LuaLimits(e: Env) { forall k :: e.limits(k) < RC.LUA_EXACT }

  /** One more step. */
  lemma RedisThen(e: Env, p: RC.Plan, xs: seq<Stores>, us: seq<Timed>, u: Timed)
    returns (xs': seq<Stores>, us': seq<Timed>, x': Stores)
    requires RedisRun(e, p, xs, us) && Enabled(e, Bare(xs[|us|]), u.step) && (us != [] ==> us[|us| - 1].at <= u.at)
    ensures x' == RedisApply(e, p, xs[|us|], u) && xs' == xs + [x'] && us' == us + [u] && RedisRun(e, p, xs', us')
  {
    x' := RedisApply(e, p, xs[|us|], u);
    xs', us' := xs + [x'], us + [u];
    forall i: nat | i < |us'| ensures RedisStepAt(e, p, xs', us', i) {
      if i < |us| { assert RedisStepAt(e, p, xs, us, i); }
    }
  }

  // ----- the TTL-free protocol follows along -----

  ghost predicate Coupled(e: Env, p: RC.Plan, x: Stores, s: Sys, now: int) {
    s.ledger == x.ledger && s.ops == x.ops && forall k :: RC.Agree(p, x.keys, s.counter, now, k)
  }

  ghost predicate SameRest(s: Sys, t: Sys) { s.ledger == t.ledger && s.ops == t.ops }

  /** s and t go on alike, and t's counters stay. */
  ghost predicate GoesAlike(e: Env, s: Sys, t: Sys, step: Step)
    requires Enabled(e, s, step) && Enabled(e, t, step)
  {
    SameRest(Apply(e, s, step), Apply(e, t, step)) && Apply(e, t, step).counter == t.counter
  }

  lemma ReleaseStartsAlike(e: Env, s: Sys, t: Sys, r: HoldRef, next: Hold, op: nat)
    requires SameRest(s, t)
    ensures SameRest(StartRelease(e, s, r, next, op), StartRelease(e, t, r, next, op))
    ensures StartRelease(e, t, r, next, op).counter == t.counter
  {
  }

  lemma MemVoidAlike(e: Env, s: Sys, t: Sys, r: HoldRef, now: int, op: nat)
    requires SameRest(s, t) && op !in s.ops && e.kind.InMemory?
    ensures GoesAlike(e, s, t, Void(r, now, op))
  {
    var (l, reply) := MemVoid(s.ledger, r, now);
    if reply.Ok? && reply.value.1 { ReleaseStartsAlike(e, s, t, r, reply.value.0, op); }
  }

  lemma SqlVoidAlike(e: Env, s: Sys, t: Sys, r: HoldRef, now: int, op: nat)
    requires SameRest(s, t) && op !in s.ops && e.kind.Postgres?
    ensures GoesAlike(e, s, t, Void(r, now, op))
  {
    if r in s.ledger { ReleaseStartsAlike(e, s, t, r, s.ledger[r].(state := Voided, voidedAt := Some(now)), op); }
  }

  lemma ExpireAlike(e: Env, s: Sys, t: Sys, r: HoldRef, now: int, op: nat)
    requires SameRest(s, t) && Enabled(e, s, Expire(r, now, op)) && Enabled(e, t, Expire(r, now, op))
    ensures GoesAlike(e, s, t, Expire(r, now, op))
  {
    ReleaseStartsAlike(e, s, t, r, s.ledger[r].(state := Expired), op);
  }

  lemma CaptureAlike(e: Env, s: Sys, t: Sys, r: HoldRef, now: int)
    requires SameRest(s, t)
    ensures GoesAlike(e, s, t, Capture(r, now))
  {
  }

  lemma LookAlike(e: Env, s: Sys, t: Sys, step: Step)
    requires SameRest(s, t) && (step.Read? || step.VoidExpired?) && Enabled(e, s, step) && Enabled(e, t, step)
    ensures GoesAlike(e, s, t, step)
  {
  }

  lemma PlaceAlike(e: Env, s: Sys, t: Sys, step: Step)
    requires SameRest(s, t) && (step.PlaceOk? || step.PlaceErr?) && Enabled(e, s, step) && Enabled(e, t, step)
    ensures GoesAlike(e, s, t, step)
  {
  }

  lemma LossAlike(e: Env, s: Sys, t: Sys, step: Step)
    requires SameRest(s, t) && (step.PlaceLost? || step.OpLost?) && Enabled(e, s, step) && Enabled(e, t, step)
    ensures GoesAlike(e, s, t, step)
  {
  }

  /** A step that makes no counter call treats ledger and operations the same whatever
      the counters say, and leaves them alone. */
  lemma PlainAlike(e: Env, s: Sys, t: Sys, step: Step)
    requires SameRest(s, t) && Enabled(e, s, step)
    requires !step.Reserve? && !step.ReserveLost? && !step.ReleaseOk? && !step.Rebuild?
    ensures Enabled(e, t, step) && GoesAlike(e, s, t, step)
  {
    EnabledAlike(e, s, t, step);
    match step
    case Void(r, now, op) =>
      if e.kind.InMemory? { MemVoidAlike(e, s, t, r, now, op); } else { SqlVoidAlike(e, s, t, r, now, op); }
    case Expire(r, now, op) => ExpireAlike(e, s, t, r, now, op);
    case Capture(r, now) => CaptureAlike(e, s, t, r, now);
    case Read(_, _) => LookAlike(e, s, t, step);
    case VoidExpired(_, _) => LookAlike(e, s, t, step);
    case PlaceLost(_, _) => LossAlike(e, s, t, step);
    case OpLost(_) => LossAlike(e, s, t, step);
    case _ => PlaceAlike(e, s, t, step);
  }

  lemma EnabledAlike(e: Env, s: Sys, t: Sys, step: Step)
    requires SameRest(s, t)
    ensures Enabled(e, s, step) <==> Enabled(e, t, step)
  {
  }

  /** The in-memory counter makes the same call. */
  ghost predicate CallsAlike(e: Env, x: Stores, s: Sys, u: Timed)
    requires SameRest(Bare(x), s) && Enabled(e, s, u.step) && Enabled(e, Bare(x), u.step) && CallOf(e, x, u).Some?
  {
    var (vals, replies) := RC.MemStep(s.counter, RC.Event(u.at, CallOf(e, x, u).value));
    var s' := Apply(e, s, u.step);
    && s'.counter == vals && s'.ledger == s.ledger
    && match u.step
       case Reserve(op, h) => |replies| == 1 && s'.ops == if replies[0].reserved then s.ops[op := Reserving(h)] else s.ops
       case ReleaseOk(op) => s'.ops == Drop(s.ops, op)
       case _ => s'.ops == s.ops
  }

  lemma ReserveAlike(e: Env, x: Stores, s: Sys, u: Timed)
    requires SameRest(Bare(x), s) && Enabled(e, s, u.step) && Enabled(e, Bare(x), u.step) && u.step.Reserve?
    ensures CallsAlike(e, x, s, u)
  {
  }

  lemma OtherCallAlike(e: Env, x: Stores, s: Sys, u: Timed)
    requires SameRest(Bare(x), s) && Enabled(e, s, u.step) && Enabled(e, Bare(x), u.step)
    requires u.step.ReserveLost? || u.step.ReleaseOk? || u.step.Rebuild?
    ensures CallsAlike(e, x, s, u)
  {
  }

  lemma CallAlike(e: Env, x: Stores, s: Sys, u: Timed)
    requires SameRest(Bare(x), s) && Enabled(e, s, u.step) && Enabled(e, Bare(x), u.step) && CallOf(e, x, u).Some?
    ensures CallsAlike(e, x, s, u)
  {
    if u.step.Reserve? { ReserveAlike(e, x, s, u); } else { OtherCallAlike(e, x, s, u); }
  }

  /** What is released or rebuilt is within the limit, so exact in Lua. */
  lemma CallProper(e: Env, p: RC.Plan, x: Stores, s: Sys, u: Timed)
    requires Inv(e, s) && LuaLimits(e) && s.ledger == x.ledger && s.ops == x.ops
    requires Enabled(e, Bare(x), u.step) && Scheduled(e, p, x, u) && CallOf(e, x, u).Some?
    ensures RC.Proper(p, RC.Event(u.at, CallOf(e, x, u).value))
  {
    match u.step
    case ReleaseOk(op) =>
      assert 0 <= OpCents(e, s.ops[op]) && OpKey(e, s.ops[op]) == s.ops[op].key;
      CounterCovers(e, s, s.ops[op].key);
      assert e.limits(s.ops[op].key) < RC.LUA_EXACT;
    case Rebuild(o, b, w) =>
      EnabledAlike(e, Bare(x), s, u.step);
      ListedFits(e, s, o, b, w);
      assert e.limits(e.key(o, b, w)) < RC.LUA_EXACT;
    case Reserve(_, h) => assert e.limits(KeyOf(e, h)) < RC.LUA_EXACT;
    case ReserveLost(h) => assert e.limits(KeyOf(e, h)) < RC.LUA_EXACT;
  }

  lemma CallCoupled(e: Env, p: RC.Plan, x: Stores, s: Sys, now: int, u: Timed)
    requires Inv(e, s) && LuaLimits(e) && Coupled(e, p, x, s, now) && now <= u.at
    requires Enabled(e, Bare(x), u.step) && Enabled(e, s, u.step) && Scheduled(e, p, x, u) && CallOf(e, x, u).Some?
    ensures Coupled(e, p, RedisApply(e, p, x, u), Apply(e, s, u.step), u.at)
  {
    var ev := RC.Event(u.at, CallOf(e, x, u).value);
    CallAlike(e, x, s, u);
    CallProper(e, p, x, s, u);
    var keys, vals := RC.RedisStep(p, x.keys, ev).0, RC.MemStep(s.counter, ev).0;
    forall k ensures RC.Agree(p, keys, vals, u.at, k) && RC.RedisStep(p, x.keys, ev).1 == RC.MemStep(s.counter, ev).1 {
      RC.AgreeLater(p, x.keys, s.counter, now, u.at, k);
      RC.AgreeLater(p, x.keys, s.counter, now, u.at, ev.call.key);
      RC.StepAgrees(p, x.keys, s.counter, ev, k);
    }
    assert RC.Agree(p, keys, vals, u.at, "");
  }

  lemma StepCoupled(e: Env, p: RC.Plan, x: Stores, s: Sys, now: int, u: Timed)
    requires Inv(e, s) && LuaLimits(e) && Coupled(e, p, x, s, now) && now <= u.at
    requires Enabled(e, Bare(x), u.step) && Scheduled(e, p, x, u)
    ensures Enabled(e, s, u.step) && Coupled(e, p, RedisApply(e, p, x, u), Apply(e, s, u.step), u.at)
  {
    EnabledAlike(e, Bare(x), s, u.step);
    if CallOf(e, x, u).Some? {
      CallCoupled(e, p, x, s, now, u);
    } else {
      PlainAlike(e, Bare(x), s, u.step);
      forall k ensures RC.Agree(p, x.keys, s.counter, u.at, k) { RC.AgreeLater(p, x.keys, s.counter, now, u.at, k); }
    }
  }

  lemma StepTame(e: Env, p: RC.Plan, x: Stores, s: Sys, now: int, u: Timed)
    requires Inv(e, s) && LuaLimits(e) && Coupled(e, p, x, s, now) && now <= u.at
    requires Enabled(e, Bare(x), u.step) && Scheduled(e, p, x, u) && Harmless(e, x, u)
    ensures Tame(e, s, u.step)
  {
    match u.step
    case Reserve(_, h) => assert e.limits(KeyOf(e, h)) < RC.LUA_EXACT;
    case ReserveLost(h) => assert e.limits(KeyOf(e, h)) < RC.LUA_EXACT;
    case PlaceLost(op, _) =>
      var k := KeyOf(e, s.ops[op].hold);
      RC.AgreeLater(p, x.keys, s.counter, now, u.at, k);
      assert RC.Agree(p, x.keys, s.counter, u.at, k);
    case _ =>
  }

  lemma FollowedNext(e: Env, p: RC.Plan, xs: seq<Stores>, us: seq<Timed>, i: nat, s: Sys)
    requires Inv(e, s) && LuaLimits(e) && |xs| == |us| + 1 && i < |us| && Coupled(e, p, xs[i], s, Clock(us, i))
    requires RedisStepAt(e, p, xs, us, i) && WellRunAt(e, p, xs, us, i)
    ensures Enabled(e, s, us[i].step) && Tame(e, s, us[i].step)
    ensures Coupled(e, p, xs[i + 1], Apply(e, s, us[i].step), Clock(us, i + 1))
  {
    StepTame(e, p, xs[i], s, Clock(us, i), us[i]);
    StepCoupled(e, p, xs[i], s, Clock(us, i), us[i]);
  }

  /** Every well-run execution over the wired stores is followed, ledger and operations
      alike, by a tame run of the TTL-free protocol. */
  lemma {:induction false} Followed(e: Env, p: RC.Plan, xs: seq<Stores>, us: seq<Timed>, i: nat)
    returns (ss: seq<Sys>, ts: seq<Step>)
    requires EnvOk(e) && LuaLimits(e) && RedisRun(e, p, xs, us) && i < |xs|
    requires forall n: nat :: n < i ==> RedisStepAt(e, p, xs, us, n) && WellRunAt(e, p, xs, us, n)
    ensures Run(e, ss, ts) && |ts| == i && TameRun(e, ss, ts, i) && Coupled(e, p, xs[i], ss[i], Clock(us, i))
  {
    if i == 0 {
      ss, ts := [EMPTY], [];
    } else {
      ss, ts := Followed(e, p, xs, us, i - 1);
      RunInvariant(e, ss, ts, i - 1);
      assert RedisStepAt(e, p, xs, us, i - 1);
      FollowedNext(e, p, xs, us, i - 1, ss[i - 1]);
      var s';
      ss, ts, s' := TameThen(e, ss, ts, us[i - 1].step);
    }
  }

  /** No oversell for the wired stores: over calendar windows, with amounts and limits
      exact in Lua and calls at most a day late, what is held and captured never exceeds
      the limit; and as long as the window can still be reserved, its live key says at
      least that much. */
  lemma NoOversellRedis(e: Env, p: RC.Plan, xs: seq<Stores>, us: seq<Timed>, i: nat, k: string)
    requires EnvOk(e) && LuaLimits(e) && RedisRun(e, p, xs, us) && i < |xs|
    requires forall n: nat :: n < i ==> RedisStepAt(e, p, xs, us, n) && WellRunAt(e, p, xs, us, n)
    ensures Sum(Spend(e, xs[i].ledger, k)) <= Cap(e, k)
    ensures forall t :: Clock(us, i) <= t && RC.Reservable(p, k, t) ==>
              Sum(Spend(e, xs[i].ledger, k)) <= RC.Value(xs[i].keys, k, t) <= Cap(e, k)
  {
    var ss, ts := Followed(e, p, xs, us, i);
    NoOversell(e, ss, ts, i, k);
    assert RC.Agree(p, xs[i].keys, ss[i].counter, Clock(us, i), k);
    forall t | Clock(us, i) <= t && RC.Reservable(p, k, t) ensures RC.Value(xs[i].keys, k, t) == Get(ss[i].counter, k) {
      RC.AgreeLater(p, xs[i].keys, ss[i].counter, Clock(us, i), t, k);
    }
  }
}
