/** The atomic budget accumulator (internal/budget/counter.go) and its keys. */
module Counter {
  import opened Base

  datatype ReserveReply = ReserveReply(reserved: bool, prior: int)

  /** One atomic check-and-add in int64 arithmetic; both the mutex-guarded map and the
      Lua script are this step. */
  function ReserveStep(vals: map<string, int>, key: string, amount: int, limit: int): (map<string, int>, ReserveReply) {
    var prior := Get(vals, key);
    var next := Wrap64(prior + amount);
    if next > limit then (vals, ReserveReply(false, prior))
    else (vals[key := next], ReserveReply(true, prior))
  }

  /** Decrement floored at zero. */
  function ReleaseStep(vals: map<string, int>, key: string, amount: int): map<string, int> {
    var v := Wrap64(Get(vals, key) - amount);
    vals[key := if v < 0 then 0 else v]
  }

  /** For instance. */
  lemma CounterKeyText()
    ensures CounterKey("acme", "travel", "2026-03") == "budget:acme:travel:2026-03"
  {
    assert "budget:" + "acme" + ":" + "travel" + ":" + "2026-03" == "budget:acme:travel:2026-03";
  }

  /** A reserve is exact for every prior value in [0, limit] precisely when the amount
      is non-negative and limit + amount stays below 2^63. */
  lemma ReserveExactIff(key: string, amount: int, limit: int)
    requires 0 <= limit < TWO_63 && -TWO_63 <= amount < TWO_63
    ensures (forall prior :: 0 <= prior <= limit ==> ReserveExactAt(key, prior, amount, limit))
        <==> 0 <= amount && limit + amount < TWO_63
  {
    if amount < 0 { assert !ReserveExactAt(key, 0, amount, limit); }
    else if limit + amount >= TWO_63 { assert !ReserveExactAt(key, limit, amount, limit); }
  }

  /** The amount is added iff the exact sum fits, and the counter stays in [0, limit]. */
  predicate ReserveExactAt(key: string, prior: int, amount: int, limit: int) {
    var (vals, reply) := ReserveStep(map[key := prior], key, amount, limit);
    && reply == ReserveReply(prior + amount <= limit, prior)
    && Get(vals, key) == (if prior + amount <= limit then prior + amount else prior)
    && 0 <= Get(vals, key) <= limit
  }

  class MemCounter {
    var vals: map<string, int>

    constructor ()
      ensures vals == map[]
    {
      vals := map[];
    }

    method Reserve(key: string, amount: int, limit: int) returns (reserved: bool, prior: int)
      modifies this
      ensures (vals, ReserveReply(reserved, prior)) == ReserveStep(old(vals), key, amount, limit)
    {
      prior := Get(vals, key);
      if Wrap64(prior + amount) > limit {
        return false, prior;
      }
      vals := vals[key := Wrap64(prior + amount)];
      reserved := true;
    }

    method Release(key: string, amount: int)
      modifies this
      ensures vals == ReleaseStep(old(vals), key, amount)
    {
      var v := Wrap64(Get(vals, key) - amount);
      if v < 0 {
        v := 0;
      }
      vals := vals[key := v];
    }

    method Set(key: string, cents: int)
      modifies this
      ensures vals == old(vals)[key := cents]
    {
      vals := vals[key := cents];
    }
  }

  function CounterKey(org: string, budget: string, windowKey: string): string {
    "budget:" + org + ":" + budget + ":" + windowKey
  }

  /** Two different budget windows share a counter only through a ':' inside an id:
      the key of (o, b, w) is also some other triple's key iff one part contains ':'. */
  lemma CounterKeyCollidesIff(o: string, b: string, w: string)
    ensures (exists o', b', w' :: (o', b', w') != (o, b, w) && CounterKey(o', b', w') == CounterKey(o, b, w))
        <==> ':' in o || ':' in b || ':' in w
  {
    if ':' in o {
      SplitFirstColon(o, b, w);
    } else if ':' in b {
      SplitSecondColon(o, b, w);
    } else if ':' in w {
      SplitThirdColon(o, b, w);
    } else {
      forall o', b', w' | CounterKey(o', b', w') == CounterKey(o, b, w) ensures (o', b', w') == (o, b, w) {
        CounterKeyInjective(o, b, w, o', b', w');
      }
    }
  }

  lemma SplitFirstColon(o: string, b: string, w: string)
    requires ':' in o
    ensures exists o', b' :: o' != o && CounterKey(o', b', w) == CounterKey(o, b, w)
  {
    var i :| 0 <= i < |o| && o[i] == ':';
    var o', b' := o[..i], o[i + 1..] + ":" + b;
    assert o == o' + ":" + o[i + 1..];
    assert CounterKey(o', b', w) == CounterKey(o, b, w);
  }

  lemma SplitSecondColon(o: string, b: string, w: string)
    requires ':' in b
    ensures exists o', b' :: b' != b && CounterKey(o', b', w) == CounterKey(o, b, w)
  {
    var i :| 0 <= i < |b| && b[i] == ':';
    var o', b' := o + ":" + b[..i], b[i + 1..];
    assert b == b[..i] + ":" + b';
    assert CounterKey(o', b', w) == CounterKey(o, b, w);
  }

  lemma SplitThirdColon(o: string, b: string, w: string)
    requires ':' in w
    ensures exists b', w' :: w' != w && CounterKey(o, b', w') == CounterKey(o, b, w)
  {
    var i :| 0 <= i < |w| && w[i] == ':';
    var b', w' := b + ":" + w[..i], w[i + 1..];
    assert w == w[..i] + ":" + w';
    assert CounterKey(o, b', w') == CounterKey(o, b, w);
  }

  lemma CounterKeyInjective(o: string, b: string, w: string, o': string, b': string, w': string)
    requires ':' !in o && ':' !in b && ':' !in w
    requires CounterKey(o', b', w') == CounterKey(o, b, w)
    ensures (o', b', w') == (o, b, w)
  {
    var t, t' := b + ":" + w, b' + ":" + w';
    assert CounterKey(o, b, w) == "budget:" + (o + ":" + t);
    assert CounterKey(o', b', w') == "budget:" + (o' + ":" + t');
    assert ("budget:" + (o + ":" + t))[7..] == o + ":" + t;
    assert ("budget:" + (o' + ":" + t'))[7..] == o' + ":" + t';
    ColonsAcross(o, t);
    ColonsAcross(b, w);
    ColonsAcross(o', t');
    ColonsAcross(b', w');
    SplitAtColon(o, t, o', t');
    SplitAtColon(b, w, b', w');
  }

  function Colons(s: string): nat { multiset(s)[':'] }

  lemma ColonsAcross(a: string, x: string)
    ensures Colons(a + ":" + x) == Colons(a) + 1 + Colons(x)
    ensures Colons(a) == 0 <==> ':' !in a
    ensures Colons(x) == 0 <==> ':' !in x
  {
  }

  lemma SplitAtColon(a: string, x: string, a': string, x': string)
    requires ':' !in a && ':' !in a' && a + ":" + x == a' + ":" + x'
    ensures a == a' && x == x'
  {
    var s, s' := a + ":" + x, a' + ":" + x';
    assert forall j :: 0 <= j < |a| ==> s[j] == a[j];
    assert forall j :: 0 <= j < |a'| ==> s'[j] == a'[j];
    assert s[|a|] == ':' && s'[|a'|] == ':';
    assert a == s[..|a|] && a' == s'[..|a'|];
    assert x == s[|a| + 1..] && x' == s'[|a'| + 1..];
  }
}
