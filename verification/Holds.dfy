/** The reservation ledger and its in-memory store (internal/hold/hold.go). */
module Holds {
  import opened Base

  datatype State = Held | Captured | Voided | Expired

  datatype HoldRef = HoldRef(org: string, decision: string)

  /** Instants are optional: None is Go's zero time. */
  datatype Hold = Hold(
    orgId: string, decisionId: string, agentId: string,
    budgetId: string, window: string, windowKey: string,
    amount: string, currency: string, state: State,
    createdAt: Option<int>, expiresAt: Option<int>, capturedAt: Option<int>, voidedAt: Option<int>)

  type Ledger = map<HoldRef, Hold>

  datatype Failure = NotFound | Conflict(from: State)
  datatype Reply<+T> = Ok(value: T) | Err(error: Failure)

  function RefOf(h: Hold): HoldRef { HoldRef(h.orgId, h.decisionId) }

  predicate Active(s: State) { s.Held? || s.Captured? }

  /** A held hold whose expiry is at or before now. */
  predicate Due(h: Hold, now: int) {
    h.state.Held? && h.expiresAt.Some? && h.expiresAt.value <= now
  }

  /** The hold as seen at now: a due hold reads as expired. */
  function Effective(h: Hold, now: int): Hold {
    if Due(h, now) then h.(state := Expired) else h
  }

  predicate WellKeyed(l: Ledger) { forall r :: r in l ==> RefOf(l[r]) == r }

  /** The arrows of the lifecycle: nothing leads back to held, captured is final. */
  predicate Follows(a: State, b: State) {
    a == b || a.Held? || (a.Expired? && b.Voided?)
  }

  predicate SameReservation(a: Hold, b: Hold) {
    b == a.(state := b.state, capturedAt := b.capturedAt, voidedAt := b.voidedAt)
  }

  predicate RowAdvances(a: Hold, b: Hold) {
    SameReservation(a, b) && Follows(a.state, b.state)
  }

  lemma RowAdvancesTransitive(a: Hold, b: Hold, c: Hold)
    requires RowAdvances(a, b) && RowAdvances(b, c)
    ensures RowAdvances(a, c)
  {
  }

  /** What any number of ledger operations by anyone may do: rows are added, never
      removed, and each existing row only moves along the lifecycle. */
  ghost predicate Advances(l: Ledger, l': Ledger) {
    forall r :: r in l ==> r in l' && RowAdvances(l[r], l'[r])
  }

  lemma AdvancesTransitive(a: Ledger, b: Ledger, c: Ledger)
    requires Advances(a, b) && Advances(b, c)
    ensures Advances(a, c)
  {
    forall r | r in a ensures r in c && RowAdvances(a[r], c[r]) {
      RowAdvancesTransitive(a[r], b[r], c[r]);
    }
  }

  lemma {:induction false} AdvancesAlong(ls: seq<Ledger>, i: nat, j: nat)
    requires i <= j < |ls| && forall n :: 0 <= n < |ls| - 1 ==> Advances(ls[n], ls[n + 1])
    ensures Advances(ls[i], ls[j])
    decreases j
  {
    if i < j {
      AdvancesAlong(ls, i, j - 1);
      assert Advances(ls[j - 1], ls[j - 1 + 1]);
      AdvancesTransitive(ls[i], ls[j - 1], ls[j]);
    }
  }

  lemma AdvanceOne(l: Ledger, r: HoldRef, h: Hold)
    requires r in l ==> RowAdvances(l[r], h)
    ensures Advances(l, l[r := h])
  {
  }

  // ----- the in-memory ledger's operations on values -----

  function MemPlace(l: Ledger, h: Hold, now: int): Ledger {
    if RefOf(h) in l then l
    else l[RefOf(h) := if h.createdAt == None then h.(createdAt := Some(now)) else h]
  }

  /** Reading through the in-memory store writes the expiry back. */
  function MemGet(l: Ledger, r: HoldRef, now: int): (Ledger, Reply<Hold>) {
    if r !in l then (l, Err(NotFound))
    else (l[r := Effective(l[r], now)], Ok(Effective(l[r], now)))
  }

  function MemCapture(l: Ledger, r: HoldRef, now: int): (Ledger, Reply<Hold>) {
    if r !in l then (l, Err(NotFound))
    else
      var h := Effective(l[r], now);
      match h.state
      case Held => var c := h.(state := Captured, capturedAt := Some(now)); (l[r := c], Ok(c))
      case Captured => (l[r := h], Ok(h))
      case _ => (l[r := h], Err(Conflict(h.state)))
  }

  function MemVoid(l: Ledger, r: HoldRef, now: int): (Ledger, Reply<(Hold, bool)>) {
    if r !in l then (l, Err(NotFound))
    else
      var h := Effective(l[r], now);
      var v := h.(state := Voided, voidedAt := Some(now));
      match h.state
      case Held => (l[r := v], Ok((v, true)))
      case Expired => (l[r := v], Ok((v, false)))
      case Voided => (l[r := h], Ok((h, false)))
      case Captured => (l[r := h], Err(Conflict(Captured)))
  }

  // ----- what each operation means, state by state -----

  /** Only a held hold with an expiry at or before now is due; a captured one never is. */
  lemma DueIff(h: Hold, now: int)
    ensures Due(h, now) <==> h.state == Held && exists t :: h.expiresAt == Some(t) && t <= now
    ensures h.state == Captured ==> !Due(h, now) && Effective(h, now) == h
  {
    if h.expiresAt.Some? { assert h.expiresAt == Some(h.expiresAt.value); }
  }

  /** What a payment that succeeds leaves behind. */
  ghost predicate CaptureMeans(l: Ledger, r: HoldRef, now: int, l': Ledger, reply: Reply<Hold>) {
    if r !in l then l' == l && reply == Err(NotFound)
    else
      var h := l[r];
      && (h.state == Held && !Due(h, now) ==>
            reply == Ok(h.(state := Captured, capturedAt := Some(now))) && l' == l[r := reply.value])
      && (h.state == Captured ==> reply == Ok(h) && l' == l)
      && (h.state == Voided ==> reply == Err(Conflict(Voided)) && l' == l)
      && (h.state == Expired ==> reply == Err(Conflict(Expired)) && l' == l)
      && (Due(h, now) ==> reply == Err(Conflict(Expired)) && l' == l[r := h.(state := Expired)])
  }

  /** What giving a hold up leaves behind, and who gets to release its cents. */
  ghost predicate VoidMeans(l: Ledger, r: HoldRef, now: int, l': Ledger, reply: Reply<(Hold, bool)>) {
    if r !in l then l' == l && reply == Err(NotFound)
    else
      var h := l[r];
      var voided := h.(state := Voided, voidedAt := Some(now));
      && (h.state == Held && !Due(h, now) ==> reply == Ok((voided, true)) && l' == l[r := voided])
      && (h.state == Expired || Due(h, now) ==> reply == Ok((voided, false)) && l' == l[r := voided])
      && (h.state == Voided ==> reply == Ok((h, false)) && l' == l)
      && (h.state == Captured ==> reply == Err(Conflict(Captured)) && l' == l)
  }

  lemma CaptureCases(l: Ledger, r: HoldRef, now: int)
    ensures var (l', reply) := MemCapture(l, r, now); CaptureMeans(l, r, now, l', reply)
  {
    if r in l { assert l[r := l[r]] == l; }
  }

  lemma VoidCases(l: Ledger, r: HoldRef, now: int)
    ensures var (l', reply) := MemVoid(l, r, now); VoidMeans(l, r, now, l', reply)
  {
    if r in l { assert l[r := l[r]] == l; }
  }

  /** A capture sticks: whatever is captured again, voided, read or expired later, the
      hold stays as the capture left it. */
  lemma CaptureSticks(l: Ledger, r: HoldRef, now: int, later: int)
    requires r in l && l[r].state == Held && !Due(l[r], now)
    ensures var l' := MemCapture(l, r, now).0;
            && r in l' && l'[r] == l[r].(state := Captured, capturedAt := Some(now))
            && MemCapture(l', r, later) == (l', Ok(l'[r])) && MemVoid(l', r, later) == (l', Err(Conflict(Captured)))
            && MemGet(l', r, later) == (l', Ok(l'[r])) && !Due(l'[r], later)
  {
    var l' := MemCapture(l, r, now).0;
    assert l'[r := l'[r]] == l';
  }

  /** Placing writes the hold once, with its creation time, and never over another. */
  lemma PlaceMeans(l: Ledger, h: Hold, now: int)
    ensures RefOf(h) == HoldRef(h.orgId, h.decisionId)
    ensures HoldRef(h.orgId, h.decisionId) in l ==> MemPlace(l, h, now) == l
    ensures HoldRef(h.orgId, h.decisionId) !in l ==>
              MemPlace(l, h, now) ==
              l[HoldRef(h.orgId, h.decisionId) := h.(createdAt := Some(if h.createdAt.Some? then h.createdAt.value else now))]
  {
  }

  ghost function Refs(s: seq<Hold>): set<HoldRef> { set h | h in s :: RefOf(h) }

  lemma RefsSnoc(s: seq<Hold>, h: Hold)
    ensures Refs(s + [h]) == Refs(s) + {RefOf(h)}
  {
    assert (s + [h])[|s|] == h;
  }

  ghost function ExpireRefs(l: Ledger, refs: set<HoldRef>): Ledger {
    map r | r in l :: if r in refs then l[r].(state := Expired) else l[r]
  }

  /** out lists distinct due holds of l, each already marked expired. */
  ghost predicate DueBatch(l: Ledger, now: int, out: seq<Hold>) {
    && (forall i :: 0 <= i < |out| ==>
          RefOf(out[i]) in l && Due(l[RefOf(out[i])], now) && out[i] == l[RefOf(out[i])].(state := Expired))
    && (forall i, j :: 0 <= i < j < |out| ==> RefOf(out[i]) != RefOf(out[j]))
  }

  lemma DueBatchAdvances(l: Ledger, now: int, out: seq<Hold>)
    requires WellKeyed(l) && DueBatch(l, now, out)
    ensures WellKeyed(ExpireRefs(l, Refs(out))) && Advances(l, ExpireRefs(l, Refs(out)))
  {
    forall r | r in Refs(out) ensures r in l && Due(l[r], now) {
      var h :| h in out && RefOf(h) == r;
    }
  }

  /** Every due hold outside todo is among refs. */
  ghost predicate Swept(l: Ledger, now: int, todo: set<HoldRef>, refs: set<HoldRef>) {
    forall r :: r in l && r !in todo && Due(l[r], now) ==> r in refs
  }

  lemma DueBatchSnoc(l: Ledger, now: int, out: seq<Hold>, r: HoldRef)
    requires WellKeyed(l) && DueBatch(l, now, out) && r in l && Due(l[r], now) && r !in Refs(out)
    ensures var next := out + [l[r].(state := Expired)];
            DueBatch(l, now, next) && Refs(next) == Refs(out) + {r}
            && ExpireRefs(l, Refs(next)) == ExpireRefs(l, Refs(out))[r := l[r].(state := Expired)]
  {
    RefsSnoc(out, l[r].(state := Expired));
    forall i | 0 <= i < |out| ensures RefOf(out[i]) != r { assert out[i] in out; }
  }

  class MemStore {
    var holds: Ledger

    ghost predicate Valid()
      reads this
    {
      WellKeyed(holds)
    }

    constructor ()
      ensures Valid() && holds == map[]
    {
      holds := map[];
    }

    method Place(h: Hold, now: int)
      requires Valid()
      modifies this
      ensures Valid() && holds == MemPlace(old(holds), h, now)
    {
      if RefOf(h) in holds {
        return;
      }
      var cp := h;
      if cp.createdAt == None {
        cp := cp.(createdAt := Some(now));
      }
      holds := holds[RefOf(h) := cp];
    }

    /** Looks the hold up and writes its expiry back before anything else happens. */
    method Resolve(r: HoldRef, now: int) returns (found: bool)
      requires Valid()
      modifies this
      ensures Valid() && found == (r in old(holds)) && holds == MemGet(old(holds), r, now).0
    {
      if r !in holds {
        return false;
      }
      if Due(holds[r], now) {
        holds := holds[r := holds[r].(state := Expired)];
      }
      found := true;
    }

    method Capture(r: HoldRef, now: int) returns (reply: Reply<Hold>)
      requires Valid()
      modifies this
      ensures Valid() && (holds, reply) == MemCapture(old(holds), r, now)
      ensures CaptureMeans(old(holds), r, now, holds, reply) && Advances(old(holds), holds)
    {
      CaptureCases(holds, r, now);
      var found := Resolve(r, now);
      if !found {
        return Err(NotFound);
      }
      match holds[r].state {
        case Held =>
          holds := holds[r := holds[r].(state := Captured, capturedAt := Some(now))];
        case Captured =>
        case Voided =>
          return Err(Conflict(Voided));
        case Expired =>
          return Err(Conflict(Expired));
      }
      reply := Ok(holds[r]);
      assert holds == old(holds)[r := holds[r]];
    }

    method Void(r: HoldRef, now: int) returns (reply: Reply<(Hold, bool)>)
      requires Valid()
      modifies this
      ensures Valid() && (holds, reply) == MemVoid(old(holds), r, now)
      ensures VoidMeans(old(holds), r, now, holds, reply) && Advances(old(holds), holds)
    {
      VoidCases(holds, r, now);
      var found := Resolve(r, now);
      if !found {
        return Err(NotFound);
      }
      var released := false;
      match holds[r].state {
        case Held =>
          holds := holds[r := holds[r].(state := Voided, voidedAt := Some(now))];
          released := true;
        case Voided =>
        case Expired =>
          holds := holds[r := holds[r].(state := Voided, voidedAt := Some(now))];
        case Captured =>
          return Err(Conflict(Captured));
      }
      reply := Ok((holds[r], released));
      assert holds == old(holds)[r := holds[r]];
    }

    method GetHold(r: HoldRef, now: int) returns (reply: Reply<Hold>)
      requires Valid()
      modifies this
      ensures Valid() && (holds, reply) == MemGet(old(holds), r, now)
    {
      var found := Resolve(r, now);
      reply := if found then Ok(holds[r]) else Err(NotFound);
    }

    /** Expires up to limit due holds (every due hold when limit is not positive) and
        returns exactly the holds this call changed, each once. */
    method ExpireDue(now: int, limit: int) returns (out: seq<Hold>)
      requires Valid()
      modifies this
      ensures Valid() && Advances(old(holds), holds)
      ensures DueBatch(old(holds), now, out) && holds == ExpireRefs(old(holds), Refs(out))
      ensures limit > 0 ==> |out| <= limit
      ensures limit <= 0 || |out| < limit ==> forall r :: r in holds ==> !Due(holds[r], now)
    {
      out := [];
      var todo := holds.Keys;
      ghost var l := holds;
      while todo != {}
        invariant todo <= l.Keys && Refs(out) !! todo
        invariant DueBatch(l, now, out) && holds == ExpireRefs(l, Refs(out))
        invariant limit > 0 ==> |out| <= limit
        invariant Swept(l, now, todo, Refs(out))
        decreases todo
      {
        if limit > 0 && |out| >= limit {
          break;
        }
        var r :| r in todo;
        todo := todo - {r};
        if Due(holds[r], now) {
          DueBatchSnoc(l, now, out, r);
          holds := holds[r := holds[r].(state := Expired)];
          out := out + [holds[r]];
        }
      }
      DueBatchAdvances(l, now, out);
    }

    /** The held and captured holds of one budget window, each once, in any order. */
    method ListActiveByWindow(org: string, budget: string, windowKey: string) returns (out: seq<Hold>)
      requires Valid()
      ensures forall i, j :: 0 <= i < j < |out| ==> RefOf(out[i]) != RefOf(out[j])
      ensures forall h :: h in out <==> RefOf(h) in holds && holds[RefOf(h)] == h && InWindow(h, org, budget, windowKey)
    {
      out := [];
      var todo := holds.Keys;
      while todo != {}
        invariant todo <= holds.Keys
        invariant forall i, j :: 0 <= i < j < |out| ==> RefOf(out[i]) != RefOf(out[j])
        invariant forall h :: h in out <==>
                    RefOf(h) in holds && RefOf(h) !in todo && holds[RefOf(h)] == h && InWindow(h, org, budget, windowKey)
        decreases todo
      {
        var r :| r in todo;
        todo := todo - {r};
        if InWindow(holds[r], org, budget, windowKey) {
          out := out + [holds[r]];
        }
      }
    }
  }

  predicate InWindow(h: Hold, org: string, budget: string, windowKey: string) {
    h.orgId == org && h.budgetId == budget && h.windowKey == windowKey && Active(h.state)
  }

  /** The in-memory store files a hold under org + "|" + decision id; for decision ids
      without '|' (ULIDs have none) that string determines the pair. */
  lemma MemKeyInjective(a: HoldRef, b: HoldRef)
    requires '|' !in a.decision && '|' !in b.decision
    requires a.org + "|" + a.decision == b.org + "|" + b.decision
    ensures a == b
  {
    var s, t := a.org + "|" + a.decision, b.org + "|" + b.decision;
    assert forall j :: |a.org| < j < |s| ==> s[j] == a.decision[j - |a.org| - 1];
    assert forall j :: |b.org| < j < |t| ==> t[j] == b.decision[j - |b.org| - 1];
    assert s[|a.org|] == '|' && t[|b.org|] == '|';
    assert a.org == s[..|a.org|] && b.org == t[..|b.org|];
    assert a.decision == s[|a.org| + 1..] && b.decision == t[|b.org| + 1..];
  }
}
