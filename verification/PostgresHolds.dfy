/** The SQL ledger (internal/hold/postgres.go): each statement is one atomic step, and
    any number of other sessions' steps may run between two statements. */
module PostgresHolds {
  import opened Base
  import opened Holds

  /** Who took a row out of held: a statement of this session, or somebody else. */
  datatype Exit = Mine(to: State) | Others

  type Exits = map<HoldRef, Exit>

  /** From a to b rows left held; exactly those in mine by this session's statements. A
      row leaves held once, so none of mine was in a. */
  ghost predicate Extends(a: Exits, b: Exits, mine: map<HoldRef, State>) {
    && (forall q :: q in a ==> q in b && b[q] == a[q])
    && (forall q :: q in b && q !in a ==> b[q] == if q in mine then Mine(mine[q]) else Others)
    && (forall q :: q in mine ==> q !in a && q in b)
  }

  /** What any stretch of statements keeps, from ledger l and record a to l' and b: rows
      only advance, and whoever takes a row out of held is on record, this session's own
      statements as given in mine. */
  ghost predicate Since(l: Ledger, a: Exits, l': Ledger, b: Exits, mine: map<HoldRef, State>) {
    && Advances(l, l') && Extends(a, b, mine) && Recorded(l', b)
    && forall r :: r in l && l[r].state.Held? && !l'[r].state.Held? ==> r in b
  }

  /** Recorded exits are of rows that did leave held. */
  ghost predicate Recorded(l: Ledger, b: Exits) { forall r :: r in b ==> r in l && !l[r].state.Held? }

  /** Two stretches, at most one of which this session contributed an exit to. */
  lemma SinceThen(l: Ledger, a: Exits, l': Ledger, b: Exits, l'': Ledger, c: Exits,
                  m: map<HoldRef, State>, n: map<HoldRef, State>)
    requires Since(l, a, l', b, m) && Since(l', b, l'', c, n) && (m == map[] || n == map[])
    ensures Since(l, a, l'', c, if m == map[] then n else m)
  {
    AdvancesTransitive(l, l', l'');
  }

  lemma SinceNothing(l: Ledger, a: Exits)
    requires Recorded(l, a)
    ensures Since(l, a, l, a, map[])
  {
  }

  /** One statement of this session moves row r, which it found in state from. */
  lemma SinceUpdate(l: Ledger, a: Exits, r: HoldRef, next: Hold)
    requires Recorded(l, a) && r in l && RowAdvances(l[r], next) && !next.state.Held?
    ensures l[r].state.Held? ==> Since(l, a, l[r := next], a[r := Mine(next.state)], map[r := next.state])
    ensures !l[r].state.Held? ==> Since(l, a, l[r := next], a, map[])
  {
    AdvanceOne(l, r, next);
  }

  class PostgresStore {
    var rows: Ledger
    ghost var exits: Exits

    ghost predicate Valid()
      reads this
    {
      Recorded(rows, exits)
    }

    /** Other sessions run: all that is known afterwards is that rows only advanced, and
        that none of it was this session's doing. */
    method Interfere()
      requires Valid()
      modifies this
      ensures Since(old(rows), old(exits), rows, exits, map[])
    {
      SinceNothing(rows, exits);
    }

    /** SELECT one row. Expiry is applied to the copy returned, never written back. */
    method GetHold(r: HoldRef) returns (reply: Reply<Hold>)
      requires Valid()
      modifies this
      ensures Since(old(rows), old(exits), rows, exits, map[])
      ensures reply == Err(NotFound) <==> r !in rows
      ensures reply.Err? ==> reply.error.NotFound?
      ensures reply.Ok? ==> (reply.value == rows[r] || ReadsExpired(rows[r], reply.value))
    {
      Interfere();
      if r !in rows {
        return Err(NotFound);
      }
      var now: int := *;
      reply := Ok(Effective(rows[r], now));
    }

    /** Others run, then UPDATE ... WHERE state = from: this statement changes the row
        exactly if it still is in that state, and reports whether it did. */
    method UpdateIf(r: HoldRef, from: State, to: State) returns (affected: bool)
      requires Valid() && to in {Captured, Voided} && (from.Held? || (from.Expired? && to.Voided?))
      modifies this
      ensures Since(old(rows), old(exits), rows, exits, if affected && from.Held? then map[r := to] else map[])
      ensures affected ==> r in rows && rows[r].state == to
                           && (if to.Captured? then rows[r].capturedAt.Some? else rows[r].voidedAt.Some?)
      ensures affected && r in old(rows) ==> Follows(old(rows)[r].state, from)
      ensures !affected ==> r !in rows || rows[r].state != from
    {
      Interfere();
      affected := r in rows && rows[r].state == from;
      if affected {
        ghost var mid, seen := rows, exits;
        var now: int := *;
        var next := if to.Captured? then rows[r].(state := to, capturedAt := Some(now))
                    else rows[r].(state := to, voidedAt := Some(now));
        SinceUpdate(rows, exits, r, next);
        rows := rows[r := next];
        if from.Held? {
          exits := exits[r := Mine(to)];
        }
        SinceThen(old(rows), old(exits), mid, seen, rows, exits, map[], if from.Held? then map[r := to] else map[]);
      }
    }

    /** Whatever the other sessions do, a capture retries at most once, and never when
        the hold had already left held; success means the row is captured. */
    method Capture(r: HoldRef) returns (reply: Reply<Hold>, retries: nat)
      requires Valid()
      modifies this
      ensures || Since(old(rows), old(exits), rows, exits, map[])
              || Since(old(rows), old(exits), rows, exits, map[r := Captured])
      ensures retries <= 1 && (r in old(rows) && !old(rows)[r].state.Held? ==> retries == 0)
      ensures reply == Err(NotFound) <==> r !in rows
      ensures reply.Ok? ==> reply.value == rows[r] && rows[r].state.Captured?
      ensures reply.Err? && reply.error.Conflict? ==> Refuses(rows[r], reply.error.from)
      decreases if r in rows && !rows[r].state.Held? then 0 else 1
    {
      retries := 0;
      reply := GetHold(r);
      if reply.Err? {
        return;
      }
      match reply.value.state {
        case Captured => return;
        case Voided => reply := Err(Conflict(Voided)); return;
        case Expired => reply := Err(Conflict(Expired)); return;
        case Held =>
      }
      ghost var read, readExits := rows, exits;
      var affected := UpdateIf(r, Held, Captured);
      SinceThen(old(rows), old(exits), read, readExits, rows, exits, map[], if affected then map[r := Captured] else map[]);
      ghost var tried, triedExits := rows, exits;
      if !affected {
        var again;
        reply, again := Capture(r);
        retries := again + 1;
        SinceThen(old(rows), old(exits), tried, triedExits, rows, exits, map[], map[]);
      } else {
        reply := GetHold(r);
        SinceThen(old(rows), old(exits), tried, triedExits, rows, exits, map[r := Captured], map[]);
      }
    }

    /** Voiding a hold that reads as expired releases nothing and takes nothing out of
        held. If only the copy had expired the row still says held, the statement matches
        nothing, and it stays. */
    method VoidExpired(r: HoldRef) returns (reply: Reply<(Hold, bool)>)
      requires Valid() && r in rows && (rows[r].state.Expired? || (rows[r].state.Held? && rows[r].expiresAt.Some?))
      modifies this
      ensures Since(old(rows), old(exits), rows, exits, map[])
      ensures reply.Ok? && !reply.value.1 && r in rows
      ensures reply.value.0 == rows[r] || ReadsExpired(rows[r], reply.value.0)
      ensures old(rows)[r].state.Expired? ==> rows[r].state.Voided?
    {
      var _ := UpdateIf(r, Expired, Voided);
      ghost var mid, seen := rows, exits;
      var out := GetHold(r);
      SinceThen(old(rows), old(exits), mid, seen, rows, exits, map[], map[]);
      reply := Ok((out.value, false));
    }

    /** A void retries at most once. It reports released exactly when its own statement
        took the row out of held, which no row leaves twice: of all calls of all sessions
        on one hold at most one can. */
    method Void(r: HoldRef) returns (reply: Reply<(Hold, bool)>, retries: nat)
      requires Valid()
      modifies this
      ensures Since(old(rows), old(exits), rows, exits, if reply.Ok? && reply.value.1 then map[r := Voided] else map[])
      ensures retries <= 1 && (r in old(rows) && !old(rows)[r].state.Held? ==> retries == 0)
      ensures reply == Err(NotFound) <==> r !in rows
      ensures reply.Ok? && reply.value.1 ==>
                rows[r].state.Voided? && (r in old(rows) ==> old(rows)[r].state.Held?)
      ensures reply.Ok? ==> reply.value.0 == rows[r] || ReadsExpired(rows[r], reply.value.0)
      ensures reply.Ok? && r in old(rows) && !old(rows)[r].state.Held? ==> rows[r].state.Voided?
      ensures reply.Err? && reply.error.Conflict? ==> reply.error.from.Captured? && rows[r].state.Captured?
      decreases if r in rows && !rows[r].state.Held? then 0 else 1
    {
      retries := 0;
      var got := GetHold(r);
      if got.Err? {
        return Err(got.error), 0;
      }
      ghost var read, readExits := rows, exits;
      match got.value.state {
        case Voided => return Ok((got.value, false)), 0;
        case Expired =>
          reply := VoidExpired(r);
          SinceThen(old(rows), old(exits), read, readExits, rows, exits, map[], map[]);
          return;
        case Captured => return Err(Conflict(Captured)), 0;
        case Held =>
      }
      var affected := UpdateIf(r, Held, Voided);
      SinceThen(old(rows), old(exits), read, readExits, rows, exits, map[], if affected then map[r := Voided] else map[]);
      ghost var tried, triedExits := rows, exits;
      if !affected {
        var again;
        reply, again := Void(r);
        retries := again + 1;
        SinceThen(old(rows), old(exits), tried, triedExits, rows, exits, map[],
                  if reply.Ok? && reply.value.1 then map[r := Voided] else map[]);
      } else {
        var done := GetHold(r);
        SinceThen(old(rows), old(exits), tried, triedExits, rows, exits, map[r := Voided], map[]);
        reply := Ok((done.value, true));
      }
    }
  }

  /** The copy of a held row that reads as expired because its expiry has passed. */
  predicate ReadsExpired(row: Hold, copy: Hold) {
    row.state.Held? && row.expiresAt.Some? && copy == row.(state := Expired)
  }

  /** A conflict names the row's state, or expired for a held row past its expiry. */
  predicate Refuses(row: Hold, from: State) {
    || (from.Voided? && row.state.Voided?)
    || (from.Expired? && (row.state.Expired? || (row.state.Held? && row.expiresAt.Some?)))
  }
}
