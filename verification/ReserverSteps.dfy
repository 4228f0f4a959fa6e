/** The sequential Reserver and reconciler methods are runs of the concurrent protocol:
    what they do to the two stores is what their protocol steps do back to back. */
module ReserverSteps {
  import opened Base
  import opened Sums
  import opened Holds
  import opened Counter
  import opened BudgetProtocol
  import opened BudgetTheorems
  import R = Reserver

  /** A reserve that ends within the limit is Reserve then PlaceOk. */
  lemma ReserveIsTwoSteps(e: Env, s: Sys, op: nat, h: Hold, now: int, vals': map<string, int>, l': Ledger, f: R.Faults)
    requires op !in s.ops && h.state.Held? && e.cents(h.amount).Some?
    requires R.Reserved(s.counter, vals', s.ledger, l', R.WithinLimit, f, KeyOf(e, h), e.cents(h.amount),
                        Some(e.limits(KeyOf(e, h))), h, now)
    ensures Enabled(e, s, Reserve(op, h))
    ensures var s1 := Apply(e, s, Reserve(op, h));
            && Enabled(e, s1, PlaceOk(op, now))
            && var s2 := Apply(e, s1, PlaceOk(op, now));
               s2.counter == vals' && s2.ledger == l' && s2.ops == s.ops
  {
    var s1 := Apply(e, s, Reserve(op, h));
    var s2 := Apply(e, s1, PlaceOk(op, now));
    assert Drop(s1.ops, op) == s.ops;
  }

  /** A reserve refused by the cap is a Reserve step that changes nothing. */
  lemma ExceededIsNoStep(e: Env, s: Sys, op: nat, h: Hold, now: int, vals': map<string, int>, l': Ledger, f: R.Faults)
    requires op !in s.ops && h.state.Held? && e.cents(h.amount).Some? && !f.counterDown
    requires R.Reserved(s.counter, vals', s.ledger, l', R.Exceeded, f, KeyOf(e, h), e.cents(h.amount),
                        Some(e.limits(KeyOf(e, h))), h, now)
    ensures Apply(e, s, Reserve(op, h)) == s && vals' == s.counter && l' == s.ledger
  {
  }

  /** A reserve whose place fails and whose undo gets through is Reserve, PlaceErr,
      ReleaseOk: both stores read as the method leaves them, as if nothing happened. */
  lemma UndoIsThreeSteps(e: Env, s: Sys, op: nat, h: Hold, now: int, vals': map<string, int>, l': Ledger, f: R.Faults)
    requires Inv(e, s) && op !in s.ops && h.state.Held? && e.cents(h.amount).Some? && InRange(e, h)
    requires !f.counterDown && !f.undoFails
    requires R.Reserved(s.counter, vals', s.ledger, l', R.Unavailable, f, KeyOf(e, h), e.cents(h.amount),
                        Some(e.limits(KeyOf(e, h))), h, now)
    ensures var s1 := Apply(e, s, Reserve(op, h));
            && Enabled(e, s1, PlaceErr(op))
            && var s2 := Apply(e, s1, PlaceErr(op));
            && Enabled(e, s2, ReleaseOk(op))
            && var s3 := Apply(e, s2, ReleaseOk(op));
            && R.SameCounts(vals', s3.counter) && R.SameCounts(s.counter, s3.counter)
            && s3.ledger == l' == s.ledger && s3.ops == s.ops
  {
    var k := KeyOf(e, h);
    assert Get(s.counter, k) <= Cap(e, k);
    ReserveAdds(e, s, h);
    CounterCovers(e, s, k);
    UndoReads(e, s, op, h);
  }

  lemma UndoReads(e: Env, s: Sys, op: nat, h: Hold)
    requires Inv(e, s) && op !in s.ops && h.state.Held? && e.cents(h.amount).Some? && InRange(e, h)
    requires Get(s.counter, KeyOf(e, h)) + Cents(e, h) <= e.limits(KeyOf(e, h))
    ensures var s1 := Apply(e, s, Reserve(op, h));
            && Enabled(e, s1, PlaceErr(op))
            && var s2 := Apply(e, s1, PlaceErr(op));
            && Enabled(e, s2, ReleaseOk(op))
            && var s3 := Apply(e, s2, ReleaseOk(op));
            && R.SameCounts(s.counter, s3.counter) && s3.ledger == s.ledger && s3.ops == s.ops
  {
    ReserveAdds(e, s, h);
    CounterCovers(e, s, KeyOf(e, h));
    var s1 := Apply(e, s, Reserve(op, h));
    var s2 := Apply(e, s1, PlaceErr(op));
    assert Drop(s2.ops, op) == s.ops;
  }

  /** A void is the Void step, followed by ReleaseOk exactly when it took the hold out
      of held. */
  lemma VoidIsSteps(e: Env, s: Sys, r: HoldRef, now: int, op: nat)
    requires Inv(e, s) && e.kind.InMemory? && op !in s.ops
    ensures var (l, reply) := MemVoid(s.ledger, r, now);
            var s1 := Apply(e, s, Void(r, now, op));
            && s1.ledger == l
            && (if reply.Ok? && reply.value.1 then
                  && Enabled(e, s1, ReleaseOk(op))
                  && var s2 := Apply(e, s1, ReleaseOk(op));
                     s2.ops == s.ops && s2.ledger == l
                     && s2.counter == ReleaseStep(s.counter, KeyOf(e, reply.value.0), Cents(e, reply.value.0))
                else s1.counter == s.counter && s1.ops == s.ops)
  {
    var (l, reply) := MemVoid(s.ledger, r, now);
    VoidStep(e, s, r, now, op);
    if reply.Ok? && reply.value.1 { ReleaseStepOf(e, s, r, reply.value.0, op); }
  }

  lemma VoidStep(e: Env, s: Sys, r: HoldRef, now: int, op: nat)
    requires e.kind.InMemory? && op !in s.ops
    ensures var (l, reply) := MemVoid(s.ledger, r, now);
            && Apply(e, s, Void(r, now, op)) ==
               (if reply.Ok? && reply.value.1 then StartRelease(e, s, r, reply.value.0, op) else s.(ledger := l))
            && (reply.Ok? && reply.value.1 ==> l == s.ledger[r := reply.value.0])
  {
    if r in s.ledger { MemVoidRow(s.ledger, r, now); }
  }

  lemma ReleaseStepOf(e: Env, s: Sys, r: HoldRef, h: Hold, op: nat)
    requires op !in s.ops
    ensures var s1 := StartRelease(e, s, r, h, op);
            && Enabled(e, s1, ReleaseOk(op))
            && var s2 := Apply(e, s1, ReleaseOk(op));
               s2.ops == s.ops && s2.ledger == s1.ledger && s2.counter == ReleaseStep(s.counter, KeyOf(e, h), Cents(e, h))
  {
    assert Drop(StartRelease(e, s, r, h, op).ops, op) == s.ops;
  }

  // ----- the reconciler -----

  /** The protocol's surroundings as a reserver's codec reads them. */
  function EnvOf(codec: R.Codec, kind: Kind, limits: string -> int): Env { Env(kind, limits, codec.key, codec.cents) }

  lemma BatchPrefix(l: Ledger, now: int, due: seq<Hold>, m: nat)
    requires WellKeyed(l) && DueBatch(l, now, due) && 0 < m <= |due|
    ensures var r := RefOf(due[m - 1]);
            && DueBatch(l, now, due[..m - 1]) && r in l && Due(l[r], now) && r !in Refs(due[..m - 1])
            && due[m - 1] == l[r].(state := Expired) && due[..m] == due[..m - 1] + [due[m - 1]]
  {
  }

  /** Expire and ReleaseOk, for one hold. */
  lemma ExpireAndRelease(e: Env, s: Sys, h: Hold, now: int, op: nat, row: Hold)
    requires RefOf(h) in s.ledger && s.ledger[RefOf(h)] == row && Due(row, now) && h == row.(state := Expired) && op !in s.ops
    ensures Enabled(e, s, Expire(RefOf(h), now, op))
    ensures var s1 := Apply(e, s, Expire(RefOf(h), now, op));
            && Enabled(e, s1, ReleaseOk(op))
            && var s2 := Apply(e, s1, ReleaseOk(op));
               s2.ledger == s.ledger[RefOf(h) := h] && s2.ops == s.ops
               && s2.counter == ReleaseStep(s.counter, KeyOf(e, h), Cents(e, h))
  {
    ReleaseStepOf(e, s, RefOf(h), h, op);
  }

  /** The counters after the first n releases of the batch. */
  lemma ReleaseAllNext(codec: R.Codec, e: Env, vals: map<string, int>, due: seq<Hold>, n: nat)
    requires e == EnvOf(codec, e.kind, e.limits) && 0 < n <= |due| && e.cents(due[n - 1].amount).Some?
    ensures R.ReleaseAll(codec, vals, due[..n]) ==
            ReleaseStep(R.ReleaseAll(codec, vals, due[..n - 1]), KeyOf(e, due[n - 1]), Cents(e, due[n - 1]))
  {
    assert due[..n][..n - 1] == due[..n - 1];
  }

  /** The first m holds of a batch: the ledger and the counters as ExpireDue and the
      releases leave them, one Expire and one ReleaseOk per hold. */
  lemma {:induction false} ReleaseBatch(codec: R.Codec, e: Env, s: Sys, now: int, due: seq<Hold>, op: nat, m: nat)
    returns (ss: seq<Sys>, ts: seq<Step>)
    requires e == EnvOf(codec, e.kind, e.limits) && WellKeyed(s.ledger) && DueBatch(s.ledger, now, due)
    requires op !in s.ops && m <= |due| && forall h :: h in due ==> e.cents(h.amount).Some?
    ensures Steps(e, ss, ts) && ss[0] == s
    ensures var s' := ss[|ts|];
            && s'.ledger == ExpireRefs(s.ledger, Refs(due[..m])) && s'.ops == s.ops
            && s'.counter == R.ReleaseAll(codec, s.counter, due[..m])
  {
    if m == 0 {
      ss, ts := [s], [];
      assert due[..0] == [] && ExpireRefs(s.ledger, Refs([])) == s.ledger;
    } else {
      ss, ts := ReleaseBatch(codec, e, s, now, due, op, m - 1);
      var mid, h := ss[|ts|], due[m - 1];
      assert h in due;
      BatchPrefix(s.ledger, now, due, m);
      DueBatchSnoc(s.ledger, now, due[..m - 1], RefOf(h));
      ReleaseAllNext(codec, e, s.counter, due, m);
      ExpireAndRelease(e, mid, h, now, op, s.ledger[RefOf(h)]);
      var s1, s2;
      ss, ts, s1 := Then(e, ss, ts, Expire(RefOf(h), now, op));
      ss, ts, s2 := Then(e, ss, ts, ReleaseOk(op));
    }
  }

  /** Expiring a batch and releasing it has the effect of a run that expires and releases
      its holds one after the other. */
  lemma ReleaseExpiredIsSteps(codec: R.Codec, e: Env, s: Sys, now: int, due: seq<Hold>, op: nat)
    returns (ss: seq<Sys>, ts: seq<Step>)
    requires e == EnvOf(codec, e.kind, e.limits) && WellKeyed(s.ledger) && DueBatch(s.ledger, now, due)
    requires op !in s.ops && forall h :: h in due ==> e.cents(h.amount).Some?
    ensures Steps(e, ss, ts) && ss[0] == s
    ensures var s' := ss[|ts|];
            && s'.ledger == ExpireRefs(s.ledger, Refs(due)) && s'.ops == s.ops
            && s'.counter == R.ReleaseAll(codec, s.counter, due)
  {
    ss, ts := ReleaseBatch(codec, e, s, now, due, op, |due|);
    assert due[..|due|] == due;
  }

  /** A rebuild that nothing interrupts, on a quiet window, is the Rebuild step. */
  lemma RebuildIsStep(codec: R.Codec, e: Env, s: Sys, o: string, b: string, w: string)
    requires e == EnvOf(codec, e.kind, e.limits) && Enabled(e, s, Rebuild(o, b, w))
    ensures var s' := Apply(e, s, Rebuild(o, b, w));
            && s'.counter == s.counter[codec.key(o, b, w) := Wrap64(Sum(R.ListedCents(codec, s.ledger, o, b, w)))]
            && s'.ledger == s.ledger && s'.ops == s.ops
  {
    assert R.ListedCents(codec, s.ledger, o, b, w) == Listed(e, s.ledger, o, b, w);
  }
}
