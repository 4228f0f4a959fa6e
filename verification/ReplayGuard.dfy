/** Request freshness (internal/auth/auth.go, memory.go): the clock-skew check, the
    nonce store, and what they guarantee together. Times are in nanoseconds. */
module ReplayGuard {
  import opened Base
  import Money

  const SECOND := 1_000_000_000

  // The skew check.

  /** Go's time subtraction saturates at the ends of the 64-bit duration. */
  function Sub(t: int, u: int): int {
    var d := t - u;
    if d < -TWO_63 then -TWO_63 else if d >= TWO_63 then TWO_63 - 1 else d
  }

  predicate SkewOk(now: int, ts: int, maxSkew: int) {
    var skew := Sub(now, ts);
    (if skew < 0 then Wrap64(-skew) else skew) <= maxSkew
  }

  function Abs(x: int): int { if x < 0 then -x else x }

  /** The check means what it says for timestamps less than 2^63 nanoseconds ahead of
      the clock; beyond that the negated duration wraps and the check passes. (A skew
      configured at the very end of the duration range lets everything pass.) */
  lemma SkewCheckIff(now: int, ts: int, maxSkew: int)
    requires -TWO_63 <= maxSkew < TWO_63
    ensures SkewOk(now, ts, maxSkew) <==>
            Abs(now - ts) <= maxSkew || ts - now >= TWO_63 || maxSkew == TWO_63 - 1
  {
    assert Wrap64(TWO_63) == -TWO_63;
  }

  // The nonce store.

  function Composite(key: string, nonce: string): string { key + "\0" + nonce }

  lemma CompositeInjective(k: string, n: string, k': string, n': string)
    requires '\0' !in k && '\0' !in k' && Composite(k, n) == Composite(k', n')
    ensures k == k' && n == n'
  {
    var c := Composite(k, n);
    assert c[|k|] == '\0' && c[|k'|] == '\0';
    forall i | 0 <= i < |k| ensures c[i] != '\0' { assert c[i] == k[i]; }
    forall i | 0 <= i < |k'| ensures c[i] != '\0' { assert c[i] == k'[i]; }
    assert |k| == |k'|;
    assert k == c[..|k|] && n == c[|k| + 1..] && n' == c[|k'| + 1..];
  }

  /** An entry counts while its expiry lies strictly after now. */
  predicate Known(seen: map<string, int>, k: string, now: int) { k in seen && seen[k] > now }

  class MemNonceStore {
    var seen: map<string, int>

    constructor ()
      ensures seen == map[]
    {
      seen := map[];
    }

    method Remember(key: string, nonce: string, ttl: int, now: int) returns (isNew: bool)
      modifies this
      ensures isNew <==> !Known(old(seen), Composite(key, nonce), now)
      ensures seen == if isNew then old(seen)[Composite(key, nonce) := now + ttl] else old(seen)
    {
      var k := Composite(key, nonce);
      if k in seen && seen[k] > now {
        return false;
      }
      seen := seen[k := now + ttl];
      isNew := true;
    }

    /** Serves whole runs: attempts that pass the skew check reach the store in order. */
    method Serve(l: Limits, es: seq<Attempt>) returns (accepted: seq<bool>)
      requires seen == map[]
      modifies this
      ensures seen == SeenAfter(l, es)
      ensures |accepted| == |es| && forall i: nat :: i < |es| ==> (accepted[i] <==> AcceptedAt(l, es, i))
    {
      accepted := [];
      assert es[..0] == [];
      for n := 0 to |es|
        invariant seen == SeenAfter(l, es[..n]) && |accepted| == n
        invariant forall i: nat :: i < n ==> (accepted[i] <==> AcceptedAt(l, es, i))
      {
        SeenStep(l, es, n);
        var ok := SkewOk(es[n].checkedAt, es[n].ts, l.maxSkew);
        if ok {
          ok := Remember(es[n].key, es[n].nonce, l.nonceTTL, es[n].recordedAt);
        }
        accepted := accepted + [ok];
      }
      assert es[..|es|] == es;
    }
  }

  // The authenticator.

  datatype KeyStatus = Active | Revoked | Inactive

  /** What the key store says about the presented key; a record matches when the
      presented key hashes to it. */
  datatype Lookup = Missing | StoreDown | Corrupt | Record(keyId: string, matches: bool, status: KeyStatus)

  /** The headers; None is a missing or malformed bearer key, and macOk says whether the
      presented signature is hex and equals the expected MAC. */
  datatype Request = Request(key: Option<string>, timestamp: string, nonce: string, signature: string, macOk: bool)

  datatype Outcome = Accepted(keyId: string) | Unauthorized | Forbidden | Unavailable | Replayed

  datatype Limits = Limits(maxSkew: int, nonceTTL: int)

  predicate Signed(l: Limits, req: Request, now: int) {
    && req.timestamp != "" && req.signature != "" && 8 <= |req.nonce| <= 128
    && Money.ParseInt(req.timestamp).Some?
    && SkewOk(now, Money.ParseInt(req.timestamp).value * SECOND, l.maxSkew)
    && req.macOk
  }

  /** What a signature check that passes says of the request: all three headers, a nonce
      of 8 to 128 characters, the right MAC, and a whole number of seconds that lies within
      the skew of the clock, or so far ahead of it that the check wraps. */
  lemma SignedIff(l: Limits, req: Request, now: int)
    requires -TWO_63 <= l.maxSkew < TWO_63
    ensures Signed(l, req, now) <==>
            && req.macOk && req.signature != "" && 8 <= |req.nonce| <= 128
            && exists seconds :: Money.ParseInt(req.timestamp) == Some(seconds)
                 && var ts := seconds * 1_000_000_000;
                    Abs(now - ts) <= l.maxSkew || ts - now >= TWO_63 || l.maxSkew == TWO_63 - 1
  {
    if Money.ParseInt(req.timestamp).Some? {
      var seconds := Money.ParseInt(req.timestamp).value;
      SkewCheckIff(now, seconds * SECOND, l.maxSkew);
      assert Money.ParseInt(req.timestamp) == Some(seconds);
    }
  }

  predicate Cleared(l: Limits, req: Request, rec: Lookup, now: int) {
    req.key.Some? && rec.Record? && rec.matches && rec.status.Active? && Signed(l, req, now)
  }

  /** The nonce lifetime is raised to twice the skew, in int64 arithmetic, if it is
      configured lower. */
  function Floored(cfg: Limits): Limits {
    var floor := Wrap64(2 * cfg.maxSkew);
    if cfg.nonceTTL < floor then Limits(cfg.maxSkew, floor) else cfg
  }

  /** Whatever lifetime is configured, the guard makes it at least twice the skew exactly
      for skews below 2^62 nanoseconds, some 146 years. */
  lemma FloorHoldsIff(maxSkew: int)
    requires 0 <= maxSkew < TWO_63
    ensures (forall ttl :: -TWO_63 <= ttl < TWO_63 ==> Floored(Limits(maxSkew, ttl)).nonceTTL >= 2 * maxSkew)
        <==> 2 * maxSkew < TWO_63
  {
    if 2 * maxSkew >= TWO_63 { assert Floored(Limits(maxSkew, 0)).nonceTTL < 2 * maxSkew; }
  }

  class Authenticator {
    const nonces: MemNonceStore
    const limits: Limits

    constructor (nonces: MemNonceStore, cfg: Limits)
      ensures this.nonces == nonces && limits == Floored(cfg)
    {
      var ttl := cfg.nonceTTL;
      if ttl < Wrap64(2 * cfg.maxSkew) {
        ttl := Wrap64(2 * cfg.maxSkew);
      }
      this.nonces, limits := nonces, Limits(cfg.maxSkew, ttl);
    }

    /** checkedAt and recordedAt are the two clock readings. A nonce is used up exactly by
        an accepted request: whatever fails before, or is a replay, changes nothing. */
    method Authenticate(req: Request, rec: Lookup, checkedAt: int, recordedAt: int, nonceStoreUp: bool)
      returns (o: Outcome)
      modifies nonces
      ensures o.Accepted? <==> Cleared(limits, req, rec, checkedAt) && nonceStoreUp
                               && !Known(old(nonces.seen), Composite(rec.keyId, req.nonce), recordedAt)
      ensures o.Accepted? ==> o.keyId == rec.keyId
                              && nonces.seen == old(nonces.seen)[Composite(rec.keyId, req.nonce) := recordedAt + limits.nonceTTL]
      ensures !o.Accepted? ==> nonces.seen == old(nonces.seen)
      ensures o.Replayed? <==> Cleared(limits, req, rec, checkedAt) && nonceStoreUp
                               && Known(old(nonces.seen), Composite(rec.keyId, req.nonce), recordedAt)
      ensures o.Unavailable? <==>
                req.key.Some? && (rec.StoreDown? || rec.Corrupt? || (Cleared(limits, req, rec, checkedAt) && !nonceStoreUp))
      ensures o.Unauthorized? <==>
                req.key.None? || rec.Missing? || (rec.Record? && !rec.matches)
                || (rec.Record? && rec.status.Active? && !Signed(limits, req, checkedAt))
      ensures o.Forbidden? <==> req.key.Some? && rec.Record? && rec.matches && !rec.status.Active?
      ensures o.Accepted? ==> req.key.Some? && rec.matches && rec.status == Active && req.macOk && 8 <= |req.nonce| <= 128
    {
      if req.key.None? {
        return Unauthorized;
      }
      match rec {
        case Missing => return Unauthorized;
        case StoreDown => return Unavailable;
        case Corrupt => return Unavailable;
        case Record(_, _, _) =>
      }
      if !rec.matches {
        return Unauthorized;
      }
      if !rec.status.Active? {
        return Forbidden;
      }
      if !Signed(limits, req, checkedAt) {
        return Unauthorized;
      }
      if !nonceStoreUp {
        return Unavailable;
      }
      var isNew := nonces.Remember(rec.keyId, req.nonce, limits.nonceTTL, recordedAt);
      o := if isNew then Accepted(rec.keyId) else Replayed;
    }
  }

  /** Durations, none of them negative. */
  predicate Sensible(l: Limits) { 0 <= l.maxSkew < TWO_63 && 0 <= l.nonceTTL < TWO_63 }

  // Whole runs. Attempts are listed in the order in which they reach the nonce store.

  datatype Attempt = Attempt(key: string, nonce: string, ts: int, checkedAt: int, recordedAt: int)

  function KeyOf(a: Attempt): string { Composite(a.key, a.nonce) }

  function SeenAfter(l: Limits, es: seq<Attempt>): map<string, int> {
    if es == [] then map[]
    else
      var n := |es| - 1;
      var before := SeenAfter(l, es[..n]);
      if SkewOk(es[n].checkedAt, es[n].ts, l.maxSkew) && !Known(before, KeyOf(es[n]), es[n].recordedAt)
      then before[KeyOf(es[n]) := es[n].recordedAt + l.nonceTTL] else before
  }

  predicate AcceptedAt(l: Limits, es: seq<Attempt>, i: nat)
    requires i < |es|
  {
    SkewOk(es[i].checkedAt, es[i].ts, l.maxSkew) && !Known(SeenAfter(l, es[..i]), KeyOf(es[i]), es[i].recordedAt)
  }

  /** The same request, accepted at i and again at j. */
  predicate AcceptedTwice(l: Limits, es: seq<Attempt>, i: nat, j: nat) {
    && i < j < |es| && es[i].key == es[j].key && es[i].nonce == es[j].nonce && es[i].ts == es[j].ts
    && AcceptedAt(l, es, i) && AcceptedAt(l, es, j)
  }

  /** At most d passes between the two clock readings of an attempt. Readings of
      different attempts need not be ordered. */
  ghost predicate Timely(es: seq<Attempt>, d: int) {
    forall a :: a in es ==> a.checkedAt <= a.recordedAt <= a.checkedAt + d
  }

  /** Every timestamp lies less than b ahead of the clock that checks it. */
  ghost predicate AheadBy(es: seq<Attempt>, b: int) { forall a :: a in es ==> a.ts - a.checkedAt < b }

  lemma SeenStep(l: Limits, es: seq<Attempt>, n: nat)
    requires n < |es|
    ensures var before := SeenAfter(l, es[..n]);
            SeenAfter(l, es[..n + 1]) ==
            if AcceptedAt(l, es, n) then before[KeyOf(es[n]) := es[n].recordedAt + l.nonceTTL] else before
  {
    assert es[..n + 1][..n] == es[..n];
  }

  /** An accepted nonce is remembered at least until its own lifetime ends. */
  lemma {:induction false} Remembered(l: Limits, es: seq<Attempt>, i: nat, n: nat)
    requires l.nonceTTL >= 0 && i < n <= |es| && AcceptedAt(l, es, i)
    ensures var seen := SeenAfter(l, es[..n]); KeyOf(es[i]) in seen && seen[KeyOf(es[i])] >= es[i].recordedAt + l.nonceTTL
    decreases n
  {
    SeenStep(l, es, n - 1);
    if i < n - 1 { Remembered(l, es, i, n - 1); }
  }

  /** Two acceptances of one request are at least the nonce lifetime apart. If the first
      timestamp was within 2^63 of its clock, both checks meant what they say, so they are
      at most twice the skew and one delay apart. */
  lemma Apart(l: Limits, es: seq<Attempt>, d: int, i: nat, j: nat)
    requires Sensible(l) && 2 * l.maxSkew <= l.nonceTTL && d <= l.nonceTTL && Timely(es, d) && AcceptedTwice(l, es, i, j)
    ensures es[i].recordedAt + l.nonceTTL <= es[j].recordedAt
    ensures es[i].ts - es[i].checkedAt < TWO_63 ==>
              es[i].ts - l.maxSkew <= es[i].recordedAt && es[j].recordedAt <= es[i].ts + l.maxSkew + d
  {
    Remembered(l, es, i, j);
    assert es[i] in es && es[j] in es;
    SkewCheckIff(es[i].checkedAt, es[i].ts, l.maxSkew);
    SkewCheckIff(es[j].checkedAt, es[j].ts, l.maxSkew);
  }

  /** With a lifetime above twice the skew plus the delay, whatever is accepted twice
      carried a timestamp 2^63 nanoseconds ahead, where the skew check passes anything. */
  lemma ReplayIsFarAhead(l: Limits, es: seq<Attempt>, d: int, i: nat, j: nat)
    requires Sensible(l) && 0 <= d && l.nonceTTL > 2 * l.maxSkew + d && Timely(es, d) && AcceptedTwice(l, es, i, j)
    ensures es[i].ts - es[i].checkedAt >= TWO_63
  {
    Apart(l, es, d, i, j);
  }

  /** No run accepts a request twice exactly if the nonce lifetime exceeds twice the skew
      plus the delay and no timestamp lies 2^63 nanoseconds ahead of the clock. */
  lemma NoReplayIff(l: Limits, d: int, b: int)
    requires Sensible(l) && d >= 0 && b > l.maxSkew
    ensures (forall es, i, j :: Timely(es, d) && AheadBy(es, b) ==> !AcceptedTwice(l, es, i, j))
        <==> l.nonceTTL > 2 * l.maxSkew + d && b <= TWO_63
  {
    if l.nonceTTL <= 2 * l.maxSkew + d {
      var es := TwoAttempts(l, d);
      assert Timely(es, d) && AheadBy(es, b) && AcceptedTwice(l, es, 0, 1);
    } else if b > TWO_63 {
      var es := FarThenAgain(l, TWO_63, 0);
      assert Timely(es, d) && AheadBy(es, b) && AcceptedTwice(l, es, 0, 1);
    } else {
      forall es, i, j | Timely(es, d) && AheadBy(es, b) ensures !AcceptedTwice(l, es, i, j) {
        if AcceptedTwice(l, es, i, j) { assert es[i] in es; ReplayIsFarAhead(l, es, d, i, j); }
      }
    }
  }

  /** One request, first as early and then as late as the skew allows. */
  lemma TwoAttempts(l: Limits, d: int) returns (es: seq<Attempt>)
    requires Sensible(l) && l.nonceTTL <= 2 * l.maxSkew + d && d >= 0
    ensures Timely(es, d) && AheadBy(es, l.maxSkew + 1) && AcceptedTwice(l, es, 0, 1)
  {
    var s := l.maxSkew;
    es := [Attempt("key", "nonce-01", 0, -s, -s), Attempt("key", "nonce-01", 0, s, s + d)];
    SkewCheckIff(-s, 0, s);
    SkewCheckIff(s, 0, s);
    assert es[..0] == [];
    SeenStep(l, es, 0);
    assert es[..0 + 1] == es[..1];
  }

  /** One request, first 2^63 nanoseconds or more ahead of the clock, then anywhere the
      check passes once its nonce has lapsed. */
  lemma FarThenAgain(l: Limits, first: int, second: int) returns (es: seq<Attempt>)
    requires Sensible(l) && first >= TWO_63 && first - second >= l.nonceTTL
    requires second >= TWO_63 || Abs(second) <= l.maxSkew
    ensures es == [Attempt("key", "nonce-01", first, 0, 0), Attempt("key", "nonce-01", first, first - second, first - second)]
    ensures AcceptedTwice(l, es, 0, 1)
  {
    es := [Attempt("key", "nonce-01", first, 0, 0), Attempt("key", "nonce-01", first, first - second, first - second)];
    SkewCheckIff(0, first, l.maxSkew);
    SkewCheckIff(first - second, first, l.maxSkew);
    assert es[..0] == [];
    SeenStep(l, es, 0);
    assert es[..0 + 1] == es[..1];
  }

  /** Whatever the skew and the lifetime, there is an int64 number of seconds such that a
      request stamped with it is accepted now and again as soon as its nonce lapses. */
  lemma FarAheadReplays(l: Limits) returns (seconds: int, es: seq<Attempt>)
    requires Sensible(l)
    ensures 0 <= seconds < TWO_63 && Timely(es, 0) && AcceptedTwice(l, es, 0, 1)
    ensures es[0].ts == seconds * SECOND && es[0].checkedAt == 0 && es[1].checkedAt == l.nonceTTL
  {
    seconds := (l.nonceTTL + TWO_63) / SECOND + 1;
    es := FarThenAgain(l, seconds * SECOND, seconds * SECOND - l.nonceTTL);
  }

  /** With the floor that New installs and no delay, the only gap short of such timestamps
      is a single instant: first seen at timestamp - maxSkew, again at timestamp + maxSkew. */
  lemma FloorLeavesOneInstant(l: Limits, es: seq<Attempt>, i: nat, j: nat)
    requires Sensible(l) && l.nonceTTL == 2 * l.maxSkew && Timely(es, 0) && AcceptedTwice(l, es, i, j)
    ensures || es[i].ts - es[i].checkedAt >= TWO_63
            || (es[i].recordedAt == es[i].ts - l.maxSkew && es[j].recordedAt == es[j].ts + l.maxSkew)
  {
    Apart(l, es, 0, i, j);
  }

  /** No false alarms: an attempt that passes the skew check and whose nonce that key has
      not used before is accepted. */
  lemma {:induction false} NewNonceAccepted(l: Limits, es: seq<Attempt>, j: nat)
    requires j < |es| && SkewOk(es[j].checkedAt, es[j].ts, l.maxSkew)
    requires forall a :: a in es ==> '\0' !in a.key
    requires forall i: nat :: i < j && AcceptedAt(l, es, i) ==> es[i].key != es[j].key || es[i].nonce != es[j].nonce
    ensures AcceptedAt(l, es, j)
  {
    NotSeen(l, es, j, j);
  }

  lemma {:induction false} NotSeen(l: Limits, es: seq<Attempt>, j: nat, n: nat)
    requires n <= j < |es| && forall a :: a in es ==> '\0' !in a.key
    requires forall i: nat :: i < j && AcceptedAt(l, es, i) ==> es[i].key != es[j].key || es[i].nonce != es[j].nonce
    ensures KeyOf(es[j]) !in SeenAfter(l, es[..n])
  {
    if n > 0 {
      NotSeen(l, es, j, n - 1);
      SeenStep(l, es, n - 1);
      assert es[n - 1] in es && es[j] in es;
      if AcceptedAt(l, es, n - 1) && KeyOf(es[n - 1]) == KeyOf(es[j]) {
        CompositeInjective(es[n - 1].key, es[n - 1].nonce, es[j].key, es[j].nonce);
      }
    }
  }
}
