/** The TTL-bearing counter of the Lua scripts (internal/budget/redis.go), and its
    agreement with the TTL-free in-memory counter on calendar windows. Amounts and
    limits are taken below 2^53, where Lua's numbers are exact. */
module RedisCounter {
  import opened Base
  import opened Windows
  import opened Counter

  const LUA_EXACT := 0x20_0000_0000_0000

  /** A key is gone from its expiry on; None never expires. */
  datatype Entry = Entry(value: int, expiry: Option<int>)

  type Keys = map<string, Entry>

  predicate Live(m: Keys, k: string, now: int) {
    k in m && (m[k].expiry.None? || now < m[k].expiry.value)
  }

  function Value(m: Keys, k: string, now: int): int { if Live(m, k, now) then m[k].value else 0 }

  function ReserveScript(m: Keys, k: string, amt: int, lim: int, ttl: int, sticky: bool, now: int): (Keys, ReserveReply) {
    var cur := Value(m, k, now);
    if cur + amt > lim then (m, ReserveReply(false, cur))
    else
      var existed := Live(m, k, now);
      var expiry := if !sticky || !existed then Some(now + ttl) else m[k].expiry;
      (m[k := Entry(cur + amt, expiry)], ReserveReply(true, cur))
  }

  function ReleaseScript(m: Keys, k: string, amt: int, now: int): Keys {
    if !Live(m, k, now) then m
    else m[k := m[k].(value := if m[k].value - amt < 0 then 0 else m[k].value - amt)]
  }

  /** A granted reserve sets the key's lifetime anew when the window rolls or the key is
      new, and leaves it alone otherwise; a refused one changes nothing. */
  lemma ReserveLifetime(m: Keys, k: string, amt: int, lim: int, ttl: int, sticky: bool, now: int)
    requires 0 < ttl
    ensures var (m', reply) := ReserveScript(m, k, amt, lim, ttl, sticky, now);
            var prior := if k in m && (m[k].expiry == None || now < m[k].expiry.value) then m[k].value else 0;
            && reply.prior == prior && (reply.reserved <==> prior + amt <= lim)
            && (!reply.reserved ==> m' == m)
            && (reply.reserved ==>
                  && k in m' && m' == m[k := m'[k]] && m'[k].value == prior + amt
                  && m'[k].expiry == if sticky && Live(m, k, now) then m[k].expiry else Some(now + ttl))
  {
  }

  /** So a rolling budget forgets its spend thirty days after the last reserve, and not
      before: the key counts for exactly that long. */
  lemma RollingLifetime(m: Keys, k: string, amt: int, lim: int, now: int, t: int)
    requires now <= t && ReserveScript(m, k, amt, lim, WindowTTL("rolling"), Sticky("rolling"), now).1.reserved
    ensures var (m', reply) := ReserveScript(m, k, amt, lim, WindowTTL("rolling"), Sticky("rolling"), now);
            Value(m', k, t) == if t < now + 30 * 24 * 60 * 60 * 1000 then reply.prior + amt else 0
  {
  }

  class Redis {
    var keys: Keys

    /** Runs reserveScript; the existence test comes before the increment, so a sticky
        counter's lifetime is fixed by the reserve that created it. */
    method Reserve(k: string, amt: int, lim: int, ttl: int, sticky: bool, now: int) returns (reply: ReserveReply)
      modifies this
      ensures (keys, reply) == ReserveScript(old(keys), k, amt, lim, ttl, sticky, now)
    {
      var cur := Value(keys, k, now);
      if cur + amt > lim {
        return ReserveReply(false, cur);
      }
      var existed := Live(keys, k, now);
      var kept := if existed then keys[k].expiry else None;
      keys := keys[k := Entry(cur + amt, kept)];
      if !sticky || !existed {
        keys := keys[k := keys[k].(expiry := Some(now + ttl))];
      }
      reply := ReserveReply(true, cur);
      assert keys == old(keys)[k := keys[k]];
    }

    method Release(k: string, amt: int, now: int)
      modifies this
      ensures keys == ReleaseScript(old(keys), k, amt, now)
    {
      if !Live(keys, k, now) {
        return;
      }
      var nv := keys[k].value - amt;
      if nv < 0 {
        nv := 0;
      }
      keys := keys[k := keys[k].(value := nv)];
    }

    method Set(k: string, cents: int, ttl: int, now: int)
      modifies this
      ensures keys == old(keys)[k := Entry(cents, Some(now + ttl))]
    {
      keys := keys[k := Entry(cents, Some(now + ttl))];
    }
  }

  datatype Call =
    | Reserve(key: string, amount: int, limit: int, seen: int)    // seen: the instant that chose the window
    | Release(key: string, amount: int)
    | Set(key: string, cents: int)

  datatype Event = Event(at: int, call: Call)

  /** For each counter key, the budget window it belongs to. */
  datatype Plan = Plan(window: string -> string, period: string -> string)

  predicate InPeriod(p: Plan, k: string, t: int) { WindowKey(p.window(k), t) == p.period(k) }

  /** An instant at which a reserve of k's window may reach the counter: the caller read
      the clock inside the window, up to a day before. */
  ghost predicate Reservable(p: Plan, k: string, t: int) { exists t0 :: t0 <= t <= t0 + DAY_MS && InPeriod(p, k, t0) }

  /** Calls as the service makes them on one shared clock: a reserve hits the window of
      the instant its caller read, at most a day before the script runs, and a rebuild
      does not write a window that has not begun. */
  ghost predicate Proper(p: Plan, ev: Event) {
    match ev.call
    case Reserve(k, a, l, seen) =>
      Sticky(p.window(k)) && InPeriod(p, k, seen) && seen <= ev.at <= seen + DAY_MS && 0 <= a < LUA_EXACT && l < LUA_EXACT
    case Release(k, a) => Sticky(p.window(k)) && 0 <= a < LUA_EXACT
    case Set(k, c) => Sticky(p.window(k)) && 0 <= c < LUA_EXACT && exists t0 :: t0 <= ev.at && InPeriod(p, k, t0)
  }

  function RedisStep(p: Plan, m: Keys, ev: Event): (Keys, seq<ReserveReply>) {
    match ev.call
    case Reserve(k, a, l, _) =>
      var (m', r) := ReserveScript(m, k, a, l, WindowTTL(p.window(k)), Sticky(p.window(k)), ev.at);
      (m', [r])
    case Release(k, a) => (ReleaseScript(m, k, a, ev.at), [])
    case Set(k, c) => (m[k := Entry(c, Some(ev.at + WindowTTL(p.window(k))))], [])
  }

  function MemStep(vals: map<string, int>, ev: Event): (map<string, int>, seq<ReserveReply>) {
    match ev.call
    case Reserve(k, a, l, _) => var (v, r) := ReserveStep(vals, k, a, l); (v, [r])
    case Release(k, a) => (ReleaseStep(vals, k, a), [])
    case Set(k, c) => (vals[k := c], [])
  }

  function RedisReplies(p: Plan, m: Keys, evs: seq<Event>): seq<ReserveReply>
    decreases |evs|
  {
    if evs == [] then [] else RedisStep(p, m, evs[0]).1 + RedisReplies(p, RedisStep(p, m, evs[0]).0, evs[1..])
  }

  function MemReplies(vals: map<string, int>, evs: seq<Event>): seq<ReserveReply>
    decreases |evs|
  {
    if evs == [] then [] else MemStep(vals, evs[0]).1 + MemReplies(MemStep(vals, evs[0]).0, evs[1..])
  }

  /** At time now: a live key holds the in-memory value and outlives every instant at
      which its window can still be reserved; a missing one counts as 0 unless its
      window is over. */
  ghost predicate Agree(p: Plan, m: Keys, vals: map<string, int>, now: int, k: string) {
    && 0 <= Get(vals, k) < LUA_EXACT
    && (Live(m, k, now) ==>
          && m[k].value == Get(vals, k)
          && forall t :: now <= t && Reservable(p, k, t) ==> Live(m, k, t))
    && (!Live(m, k, now) ==> Get(vals, k) == 0 || forall t :: now <= t ==> !Reservable(p, k, t))
  }

  lemma AgreeLater(p: Plan, m: Keys, vals: map<string, int>, now: int, later: int, k: string)
    requires Agree(p, m, vals, now, k) && now <= later
    ensures Agree(p, m, vals, later, k)
  {
  }

  /** A lifetime counted from an instant inside or after the window covers the window. */
  lemma LifetimeCovers(p: Plan, k: string, t0: int, at: int, t: int)
    requires Sticky(p.window(k)) && t0 <= at <= t && InPeriod(p, k, t0) && Reservable(p, k, t)
    ensures t < at + WindowTTL(p.window(k))
  {
    var t1 :| t1 <= t <= t1 + DAY_MS && InPeriod(p, k, t1);
    SameWindowWithinTTL(p.window(k), t0, t1);
  }

  lemma RepliesAgree(p: Plan, m: Keys, vals: map<string, int>, ev: Event)
    requires Proper(p, ev) && Agree(p, m, vals, ev.at, ev.call.key)
    ensures RedisStep(p, m, ev).1 == MemStep(vals, ev).1
    ensures ev.call.Reserve? ==> Value(m, ev.call.key, ev.at) == Get(vals, ev.call.key)
  {
    if ev.call.Reserve? { assert InPeriod(p, ev.call.key, ev.call.seen) && Reservable(p, ev.call.key, ev.at); }
  }

  lemma StepAgrees(p: Plan, m: Keys, vals: map<string, int>, ev: Event, k: string)
    requires Proper(p, ev) && Agree(p, m, vals, ev.at, k) && Agree(p, m, vals, ev.at, ev.call.key)
    ensures RedisStep(p, m, ev).1 == MemStep(vals, ev).1
    ensures Agree(p, RedisStep(p, m, ev).0, MemStep(vals, ev).0, ev.at, k)
  {
    RepliesAgree(p, m, vals, ev);
    if ev.call.key == k && !ev.call.Release? {
      var t0 :| t0 <= ev.at && InPeriod(p, k, t0);
      forall t | ev.at <= t && Reservable(p, k, t) ensures t < ev.at + WindowTTL(p.window(k)) {
        LifetimeCovers(p, k, t0, ev.at, t);
      }
    }
  }

  predicate Ordered(now: int, evs: seq<Event>)
    decreases |evs|
  {
    evs == [] || (now <= evs[0].at && Ordered(evs[0].at, evs[1..]))
  }

  /** The TTL is invisible: over every sequence of calls on calendar windows the Lua
      counter gives exactly the in-memory counter's reserve answers. */
  lemma {:induction false} RedisRefinesMem(p: Plan, m: Keys, vals: map<string, int>, now: int, evs: seq<Event>)
    requires Ordered(now, evs) && (forall ev :: ev in evs ==> Proper(p, ev))
    requires forall k :: Agree(p, m, vals, now, k)
    ensures RedisReplies(p, m, evs) == MemReplies(vals, evs)
    decreases |evs|
  {
    if evs != [] {
      var ev := evs[0];
      var m', vals' := RedisStep(p, m, ev).0, MemStep(vals, ev).0;
      forall k ensures Agree(p, m', vals', ev.at, k) && RedisStep(p, m, ev).1 == MemStep(vals, ev).1 {
        AgreeLater(p, m, vals, now, ev.at, k);
        AgreeLater(p, m, vals, now, ev.at, ev.call.key);
        StepAgrees(p, m, vals, ev, k);
      }
      assert Agree(p, m', vals', ev.at, "");
      RedisRefinesMem(p, m', vals', ev.at, evs[1..]);
    }
  }

  lemma RedisRefinesMemFromEmpty(p: Plan, now: int, evs: seq<Event>)
    requires Ordered(now, evs) && (forall ev :: ev in evs ==> Proper(p, ev))
    ensures RedisReplies(p, map[], evs) == MemReplies(map[], evs)
  {
    RedisRefinesMem(p, map[], map[], now, evs);
  }
}
