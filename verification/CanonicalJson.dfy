/** RFC 8785 canonical JSON for signed decisions (sdks/ts/src/canonical.ts). */
module CanonicalJson {
  import opened JsonText
  import Utf8

  const COMMA: Unit := 0x2c
  const COLON: Unit := 0x3a
  const OPEN_LIST: Unit := 0x5b
  const CLOSE_LIST: Unit := 0x5d
  const OPEN_OBJECT: Unit := 0x7b
  const CLOSE_OBJECT: Unit := 0x7d

  const NULL: Str := [0x6e, 0x75, 0x6c, 0x6c]
  const TRUE: Str := [0x74, 0x72, 0x75, 0x65]
  const FALSE: Str := [0x66, 0x61, 0x6c, 0x73, 0x65]

  /** The integers JavaScript's numbers hold exactly. */
  type SafeInt = n: int | -SAFE < n < SAFE

  /** A JavaScript value. Unsupported is anything jcs throws on: undefined, functions,
      symbols, big integers, numbers that are not integers. */
  datatype Value =
    | Null
    | Bool(b: bool)
    | Num(n: SafeInt)
    | Text(s: Str)
    | List(items: seq<Value>)
    | Object(members: map<Str, Value>)
    | Unsupported(truthy: bool)

  predicate Supported(v: Value)
    decreases v
  {
    match v
    case List(items) => forall i :: 0 <= i < |items| ==> Supported(items[i])
    case Object(members) => forall k :: k in members ==> Supported(members[k])
    case Unsupported(_) => false
    case _ => true
  }

  // The order of member names: by UTF-16 code unit.

  predicate AtMost(a: Str, b: Str)
    decreases |a|
  {
    a == [] || (b != [] && (a[0] < b[0] || (a[0] == b[0] && AtMost(a[1..], b[1..]))))
  }

  lemma {:induction false} AtMostTotal(a: Str, b: Str)
    ensures AtMost(a, b) || AtMost(b, a)
    decreases |a|
  {
    if a != [] && b != [] { AtMostTotal(a[1..], b[1..]); }
  }

  lemma {:induction false} AtMostTransitive(a: Str, b: Str, c: Str)
    requires AtMost(a, b) && AtMost(b, c)
    ensures AtMost(a, c)
    decreases |a|
  {
    if a != [] && a[0] == b[0] == c[0] { AtMostTransitive(a[1..], b[1..], c[1..]); }
  }

  lemma {:induction false} AtMostAntisymmetric(a: Str, b: Str)
    requires AtMost(a, b) && AtMost(b, a)
    ensures a == b
    decreases |a|
  {
    if a != [] {
      AtMostAntisymmetric(a[1..], b[1..]);
      assert a == [a[0]] + a[1..] && b == [b[0]] + b[1..];
    }
  }

  predicate IsLeast(k: Str, keys: set<Str>) { k in keys && forall j | j in keys :: AtMost(k, j) }

  lemma {:induction false} LeastExists(keys: set<Str>)
    requires keys != {}
    ensures exists k :: IsLeast(k, keys)
    decreases |keys|
  {
    var k :| k in keys;
    AtMostTotal(k, k);
    if keys == {k} {
      assert IsLeast(k, keys);
    } else {
      LeastExists(keys - {k});
      var m :| IsLeast(m, keys - {k});
      AtMostTotal(k, m);
      forall j | j in keys - {k} && AtMost(k, m) ensures AtMost(k, j) { AtMostTransitive(k, m, j); }
      assert IsLeast(if AtMost(k, m) then k else m, keys);
    }
  }

  lemma LeastUnique(keys: set<Str>)
    ensures forall j, k :: IsLeast(j, keys) && IsLeast(k, keys) ==> j == k
  {
    forall j, k | IsLeast(j, keys) && IsLeast(k, keys) ensures j == k { AtMostAntisymmetric(j, k); }
  }

  ghost predicate Ascending(ks: seq<Str>) { forall i, j :: 0 <= i < j < |ks| ==> AtMost(ks[i], ks[j]) && ks[i] != ks[j] }

  /** Object.keys(obj).sort(). */
  function SortedKeys(keys: set<Str>): (ks: seq<Str>)
    ensures (forall k :: k in ks <==> k in keys) && Ascending(ks)
    decreases |keys|
  {
    if keys == {} then []
    else
      LeastExists(keys);
      LeastUnique(keys);
      var k :| IsLeast(k, keys);
      [k] + SortedKeys(keys - {k})
  }

  /** Whatever order the members were inserted in, sorting their names gives this list. */
  lemma {:induction false} SortIsCanonical(keys: set<Str>, ks: seq<Str>)
    requires Ascending(ks) && forall k :: k in ks <==> k in keys
    ensures ks == SortedKeys(keys)
    decreases |ks|
  {
    if ks == [] {
      assert forall k :: k in keys ==> k in ks;
    } else {
      var k := ks[0];
      AtMostTotal(k, k);
      forall j | j in keys ensures AtMost(k, j) {
        var i :| 0 <= i < |ks| && ks[i] == j;
      }
      assert IsLeast(k, keys);
      LeastUnique(keys);
      forall j ensures j in ks[1..] <==> j in keys - {k} {
        assert ks == [k] + ks[1..];
      }
      SortIsCanonical(keys - {k}, ks[1..]);
      assert ks == [k] + ks[1..];
    }
  }

  // The canonical text.

  /** What jcs returns; it throws on a value that is not supported. */
  function Jcs(v: Value): Str
    requires Supported(v)
    decreases v, 1, 0
  {
    match v
    case Null => NULL
    case Bool(b) => if b then TRUE else FALSE
    case Num(n) => Decimal(n)
    case Text(s) => Quote(s)
    case List(items) => [OPEN_LIST] + (if items == [] then [] else JoinItems(v, 0)) + [CLOSE_LIST]
    case Object(members) =>
      [OPEN_OBJECT] + (if members == map[] then [] else JoinMembers(v, SortedKeys(members.Keys))) + [CLOSE_OBJECT]
  }

  function JoinItems(v: Value, i: nat): Str
    requires v.List? && Supported(v) && i < |v.items|
    decreases v, 0, |v.items| - i
  {
    if i == |v.items| - 1 then Jcs(v.items[i]) else Jcs(v.items[i]) + ([COMMA] + JoinItems(v, i + 1))
  }

  function JoinMembers(v: Value, keys: seq<Str>): Str
    requires v.Object? && Supported(v) && keys != [] && forall k :: k in keys ==> k in v.members
    decreases v, 0, |keys|
  {
    var k := keys[0];
    var member := Quote(k) + ([COLON] + Jcs(v.members[k]));
    if |keys| == 1 then member else member + ([COMMA] + JoinMembers(v, keys[1..]))
  }

  // A reader.

  function ReadValue(t: Str): (p: Parsed<Value>)
    ensures p.Got? ==> |p.rest| < |t|
    decreases |t|, 0
  {
    if t == [] then Fail
    else if NULL <= t then Got(Null, t[4..])
    else if TRUE <= t then Got(Bool(true), t[4..])
    else if FALSE <= t then Got(Bool(false), t[5..])
    else if t[0] == QUOTE then (match ReadQuoted(t) case Fail => Fail case Got(s, rest) => Got(Text(s), rest))
    else if t[0] == OPEN_LIST then
      if |t| > 1 && t[1] == CLOSE_LIST then Got(List([]), t[2..])
      else (match ReadItems(t[1..]) case Fail => Fail case Got(vs, rest) => Got(List(vs), rest))
    else if t[0] == OPEN_OBJECT then
      if |t| > 1 && t[1] == CLOSE_OBJECT then Got(Object(map[]), t[2..])
      else (match ReadMembers(t[1..]) case Fail => Fail case Got(ms, rest) => Got(Object(ms), rest))
    else
      match ReadNumber(t)
      case Fail => Fail
      case Got(n, rest) => if -SAFE < n < SAFE then Got(Num(n), rest) else Fail
  }

  function ReadItems(t: Str): (p: Parsed<seq<Value>>)
    ensures p.Got? ==> |p.rest| < |t|
    decreases |t|, 1
  {
    match ReadValue(t)
    case Fail => Fail
    case Got(v, more) =>
      if more == [] then Fail
      else if more[0] == CLOSE_LIST then Got([v], more[1..])
      else if more[0] != COMMA then Fail
      else (match ReadItems(more[1..]) case Fail => Fail case Got(vs, rest) => Got([v] + vs, rest))
  }

  function ReadMembers(t: Str): (p: Parsed<map<Str, Value>>)
    ensures p.Got? ==> |p.rest| < |t|
    decreases |t|, 1
  {
    match ReadQuoted(t)
    case Fail => Fail
    case Got(k, colon) =>
      if colon == [] || colon[0] != COLON then Fail
      else
        match ReadValue(colon[1..])
        case Fail => Fail
        case Got(v, more) =>
          if more == [] then Fail
          else if more[0] == CLOSE_OBJECT then Got(map[k := v], more[1..])
          else if more[0] != COMMA then Fail
          else (match ReadMembers(more[1..]) case Fail => Fail case Got(ms, rest) => Got(ms[k := v], rest))
  }

  // Reading back what was written.

  /** What may follow a value inside a document. */
  predicate Follows(rest: Str) { rest == [] || rest[0] == COMMA || rest[0] == CLOSE_LIST || rest[0] == CLOSE_OBJECT }

  predicate Scalar(v: Value) { v.Null? || v.Bool? || v.Num? || v.Text? }

  lemma LiteralsRead(t: Str, rest: Str)
    ensures t == NULL + rest ==> ReadValue(t) == Got(Null, rest)
    ensures t == TRUE + rest ==> ReadValue(t) == Got(Bool(true), rest)
    ensures t == FALSE + rest ==> ReadValue(t) == Got(Bool(false), rest)
  {
    if t == NULL + rest { assert t[4..] == rest; }
    if t == TRUE + rest { assert t[0] == TRUE[0] != NULL[0] && t[4..] == rest; }
    if t == FALSE + rest { assert t[0] == FALSE[0] != NULL[0] && FALSE[0] != TRUE[0] && t[5..] == rest; }
  }

  lemma ScalarRoundTrip(v: Value, t: Str, rest: Str)
    requires Supported(v) && Scalar(v) && Follows(rest) && t == Jcs(v) + rest
    ensures ReadValue(t) == Got(v, rest)
  {
    match v
    case Null => LiteralsRead(t, rest);
    case Bool(b) => LiteralsRead(t, rest);
    case Num(n) => NumberRoundTrip(n, t, rest); NumberStart(n);
    case Text(s) => QuotedRoundTrip(s, rest);
  }

  lemma NumberStart(n: int)
    ensures Decimal(n) != [] && (Decimal(n)[0] == MINUS || IsDigit(Decimal(n)[0]))
  {
  }

  /** A value never starts like the end of a list or an object. */
  lemma ValueStart(v: Value)
    requires Supported(v)
    ensures Jcs(v) != [] && Jcs(v)[0] != CLOSE_LIST && Jcs(v)[0] != CLOSE_OBJECT
  {
    if v.Num? { NumberStart(v.n); }
  }

  lemma ListStep(t: Str, vs: seq<Value>, rest: Str)
    requires |t| > 1 && t[0] == OPEN_LIST && t[1] != CLOSE_LIST && ReadItems(t[1..]) == Got(vs, rest)
    ensures ReadValue(t) == Got(List(vs), rest)
  {
  }

  lemma ObjectStep(t: Str, ms: map<Str, Value>, rest: Str)
    requires |t| > 1 && t[0] == OPEN_OBJECT && t[1] != CLOSE_OBJECT && ReadMembers(t[1..]) == Got(ms, rest)
    ensures ReadValue(t) == Got(Object(ms), rest)
  {
  }

  lemma EmptyRead(t: Str, rest: Str)
    ensures t == [OPEN_LIST, CLOSE_LIST] + rest ==> ReadValue(t) == Got(List([]), rest)
    ensures t == [OPEN_OBJECT, CLOSE_OBJECT] + rest ==> ReadValue(t) == Got(Object(map[]), rest)
  {
    if t == [OPEN_LIST, CLOSE_LIST] + rest { assert t[2..] == rest; }
    if t == [OPEN_OBJECT, CLOSE_OBJECT] + rest { assert t[2..] == rest; }
  }

  /** The reader recovers every value, exactly and completely, from its canonical text,
      whatever follows it in a document. */
  lemma {:induction false} RoundTrip(v: Value, t: Str, rest: Str)
    requires Supported(v) && Follows(rest) && t == Jcs(v) + rest
    ensures ReadValue(t) == Got(v, rest)
    decreases v, 1, 0
  {
    if Scalar(v) {
      ScalarRoundTrip(v, t, rest);
    } else if v.List? {
      ListRoundTrip(v, t, rest);
    } else {
      ObjectRoundTrip(v, t, rest);
    }
  }

  lemma {:induction false} ListRoundTrip(v: Value, t: Str, rest: Str)
    requires v.List? && Supported(v) && t == Jcs(v) + rest
    ensures ReadValue(t) == Got(v, rest)
    decreases v, 0, |v.items| + 1
  {
    if v.items == [] {
      EmptyRead(t, rest);
    } else {
      var body := JoinItems(v, 0) + ([CLOSE_LIST] + rest);
      Bracketed(OPEN_LIST, JoinItems(v, 0), CLOSE_LIST, rest);
      ItemsStart(v, 0);
      ItemsRoundTrip(v, 0, body, rest);
      ListStep(t, v.items, rest);
    }
  }

  lemma ItemsStart(v: Value, i: nat)
    requires v.List? && Supported(v) && i < |v.items|
    ensures JoinItems(v, i) != [] && JoinItems(v, i)[0] != CLOSE_LIST
  {
    ValueStart(v.items[i]);
  }

  lemma Regroup(a: Str, u: Unit, b: Str, c: Str)
    ensures a + ([u] + b) + c == a + ([u] + (b + c))
  {
  }

  lemma ItemsLast(t: Str, v: Value, rest: Str)
    requires ReadValue(t) == Got(v, [CLOSE_LIST] + rest)
    ensures ReadItems(t) == Got([v], rest)
  {
    assert ([CLOSE_LIST] + rest)[1..] == rest;
  }

  lemma ItemsMore(t: Str, v: Value, more: Str, vs: seq<Value>, rest: Str)
    requires ReadValue(t) == Got(v, [COMMA] + more) && ReadItems(more) == Got(vs, rest)
    ensures ReadItems(t) == Got([v] + vs, rest)
  {
    assert ([COMMA] + more)[1..] == more;
  }

  lemma {:induction false} ItemsRoundTrip(v: Value, i: nat, t: Str, rest: Str)
    requires v.List? && Supported(v) && i < |v.items| && t == JoinItems(v, i) + ([CLOSE_LIST] + rest)
    ensures ReadItems(t) == Got(v.items[i..], rest)
    decreases v, 0, |v.items| - i
  {
    var end, item := [CLOSE_LIST] + rest, v.items[i];
    SuffixFrom(v.items, i);
    if i == |v.items| - 1 {
      RoundTrip(item, t, end);
      ItemsLast(t, item, rest);
    } else {
      var more := JoinItems(v, i + 1) + end;
      JoinItemsMore(v, i, end);
      RoundTrip(item, t, [COMMA] + more);
      ItemsRoundTrip(v, i + 1, more, rest);
      ItemsMore(t, item, more, v.items[i + 1..], rest);
    }
  }

  lemma SuffixFrom(items: seq<Value>, i: nat)
    requires i < |items|
    ensures items[i..] == [items[i]] + items[i + 1..] && (i == |items| - 1 ==> items[i..] == [items[i]])
  {
  }

  lemma JoinItemsMore(v: Value, i: nat, end: Str)
    requires v.List? && Supported(v) && i < |v.items| - 1
    ensures JoinItems(v, i) + end == Jcs(v.items[i]) + ([COMMA] + (JoinItems(v, i + 1) + end))
  {
    Regroup(Jcs(v.items[i]), COMMA, JoinItems(v, i + 1), end);
  }

  lemma {:induction false} ObjectRoundTrip(v: Value, t: Str, rest: Str)
    requires v.Object? && Supported(v) && t == Jcs(v) + rest
    ensures ReadValue(t) == Got(v, rest)
    decreases v, 0, |v.members| + 1
  {
    if v.members == map[] {
      EmptyRead(t, rest);
    } else {
      var keys := SortedKeys(v.members.Keys);
      var body := JoinMembers(v, keys) + ([CLOSE_OBJECT] + rest);
      Bracketed(OPEN_OBJECT, JoinMembers(v, keys), CLOSE_OBJECT, rest);
      MembersStart(v, keys);
      SortedKeysLength(v.members.Keys);
      MembersRoundTrip(v, keys, body, rest);
      RestrictAll(v.members, keys);
      ObjectStep(t, v.members, rest);
    }
  }

  lemma {:induction false} SortedKeysLength(keys: set<Str>)
    ensures |SortedKeys(keys)| == |keys|
    decreases |keys|
  {
    if keys != {} {
      var ks := SortedKeys(keys);
      assert ks[0] in keys;
      SortedKeysLength(keys - {ks[0]});
      assert ks == [ks[0]] + SortedKeys(keys - {ks[0]});
    }
  }

  lemma Bracketed(open: Unit, inner: Str, close: Unit, rest: Str)
    ensures var t := [open] + inner + [close] + rest; t[0] == open && t[1..] == inner + ([close] + rest)
  {
  }

  lemma RestrictAll(m: map<Str, Value>, keys: seq<Str>)
    requires forall k :: k in keys <==> k in m.Keys
    ensures Restrict(m, keys) == m
  {
  }

  lemma MembersStart(v: Value, keys: seq<Str>)
    requires v.Object? && Supported(v) && keys != [] && forall k :: k in keys ==> k in v.members
    ensures JoinMembers(v, keys) != [] && JoinMembers(v, keys)[0] == QUOTE
  {
  }

  function Restrict(m: map<Str, Value>, keys: seq<Str>): map<Str, Value> { map k | k in m && k in keys :: m[k] }

  lemma MemberRead(t: Str, k: Str, v: Value, more: Str)
    requires Supported(v) && t == Quote(k) + ([COLON] + (Jcs(v) + more)) && ReadValue(Jcs(v) + more) == Got(v, more) && more != []
    ensures more[0] == CLOSE_OBJECT ==> ReadMembers(t) == Got(map[k := v], more[1..])
    ensures more[0] == COMMA ==>
              ReadMembers(t) == match ReadMembers(more[1..]) case Fail => Fail case Got(ms, rest) => Got(ms[k := v], rest)
  {
    var colon := [COLON] + (Jcs(v) + more);
    QuotedRoundTrip(k, colon);
    assert colon[1..] == Jcs(v) + more;
    MembersStep(t, k, colon, v, more);
  }

  lemma MembersStep(t: Str, k: Str, colon: Str, v: Value, more: Str)
    requires ReadQuoted(t) == Got(k, colon) && colon != [] && colon[0] == COLON
    requires ReadValue(colon[1..]) == Got(v, more) && more != []
    ensures more[0] == CLOSE_OBJECT ==> ReadMembers(t) == Got(map[k := v], more[1..])
    ensures more[0] == COMMA ==>
              ReadMembers(t) == match ReadMembers(more[1..]) case Fail => Fail case Got(ms, rest) => Got(ms[k := v], rest)
  {
  }

  lemma {:induction false} MembersRoundTrip(v: Value, keys: seq<Str>, t: Str, rest: Str)
    requires v.Object? && Supported(v) && keys != [] && forall k :: k in keys ==> k in v.members
    requires t == JoinMembers(v, keys) + ([CLOSE_OBJECT] + rest)
    ensures ReadMembers(t) == Got(Restrict(v.members, keys), rest)
    decreases v, 0, |keys|
  {
    var end, k := [CLOSE_OBJECT] + rest, keys[0];
    var x := v.members[k];
    if |keys| == 1 {
      RoundTrip(x, Jcs(x) + end, end);
      Regroup(Quote(k), COLON, Jcs(x), end);
      MemberRead(t, k, x, end);
      RestrictOne(v.members, keys);
    } else {
      var body := JoinMembers(v, keys[1..]) + end;
      RoundTrip(x, Jcs(x) + ([COMMA] + body), [COMMA] + body);
      MembersRoundTrip(v, keys[1..], body, rest);
      RegroupMember(Quote(k), Jcs(x), JoinMembers(v, keys[1..]), end);
      MemberRead(t, k, x, [COMMA] + body);
      RestrictOne(v.members, keys);
    }
  }

  lemma RegroupMember(k: Str, x: Str, more: Str, end: Str)
    ensures k + ([COLON] + x) + ([COMMA] + more) + end == k + ([COLON] + (x + ([COMMA] + (more + end))))
  {
  }

  lemma RestrictOne(m: map<Str, Value>, keys: seq<Str>)
    requires keys != [] && forall k :: k in keys ==> k in m
    ensures Restrict(m, keys) == Restrict(m, keys[1..])[keys[0] := m[keys[0]]]
  {
  }

  /** Unique decodability: two values have the same canonical text exactly if they are
      the same value, objects being compared without regard to member order. */
  lemma CanonicalIff(v: Value, w: Value)
    requires Supported(v) && Supported(w)
    ensures Jcs(v) == Jcs(w) <==> v == w
  {
    RoundTrip(v, Jcs(v) + [], []);
    RoundTrip(w, Jcs(w) + [], []);
  }

  // The text is well-formed UTF-16, whatever strings the value holds.

  lemma EscapedUnitWellFormed(u: Unit)
    ensures Utf8.WellFormed(EscapeUnit(u))
  {
    if EscapeUnit(u) != [u] { Utf8.AsciiWellFormed(EscapeUnit(u)); } else { assert EscapeUnit(u)[1..] == []; }
  }

  lemma {:induction false} EscapedWellFormed(s: Str)
    ensures Utf8.WellFormed(Escape(s))
    decreases |s|
  {
    if s == [] {
    } else if |s| > 1 && High(s[0]) && Low(s[1]) {
      EscapedWellFormed(s[2..]);
      assert ([s[0], s[1]] + Escape(s[2..]))[2..] == Escape(s[2..]);
    } else {
      EscapedWellFormed(s[1..]);
      EscapedUnitWellFormed(s[0]);
      Utf8.WellFormedConcat(EscapeUnit(s[0]), Escape(s[1..]));
    }
  }

  lemma Wrapped(a: Str, t: Str, b: Str)
    requires Utf8.Ascii(a) && Utf8.WellFormed(t) && Utf8.Ascii(b)
    ensures Utf8.WellFormed(a + t + b)
  {
    Utf8.AsciiWellFormed(a);
    Utf8.AsciiWellFormed(b);
    Utf8.WellFormedConcat(a, t);
    Utf8.WellFormedConcat(a + t, b);
  }

  lemma QuotedWellFormed(s: Str)
    ensures Utf8.WellFormed(Quote(s))
  {
    EscapedWellFormed(s);
    Wrapped([QUOTE], Escape(s), [QUOTE]);
  }

  lemma {:induction false} DigitsAscii(n: nat)
    ensures Utf8.Ascii(DecimalNat(n))
    decreases n
  {
    if n >= 10 { DigitsAscii(n / 10); }
  }

  lemma Joined(a: Str, u: Unit, b: Str)
    requires Utf8.WellFormed(a) && u < 0x80 && Utf8.WellFormed(b)
    ensures Utf8.WellFormed(a + ([u] + b))
  {
    Utf8.AsciiWellFormed([u]);
    Utf8.WellFormedConcat([u], b);
    Utf8.WellFormedConcat(a, [u] + b);
  }

  lemma {:induction false} JcsWellFormed(v: Value)
    requires Supported(v)
    ensures Utf8.WellFormed(Jcs(v))
    decreases v, 1, 0
  {
    match v
    case Null => Utf8.AsciiWellFormed(NULL);
    case Bool(b) => Utf8.AsciiWellFormed(TRUE); Utf8.AsciiWellFormed(FALSE);
    case Num(n) => DigitsAscii(if n < 0 then -n else n); Utf8.AsciiWellFormed(Decimal(n));
    case Text(s) => QuotedWellFormed(s);
    case List(items) =>
      if items != [] { ItemsWellFormed(v, 0); }
      Wrapped([OPEN_LIST], if items == [] then [] else JoinItems(v, 0), [CLOSE_LIST]);
    case Object(members) =>
      if members != map[] { SortedKeysLength(members.Keys); MembersWellFormed(v, SortedKeys(members.Keys)); }
      Wrapped([OPEN_OBJECT], if members == map[] then [] else JoinMembers(v, SortedKeys(members.Keys)), [CLOSE_OBJECT]);
  }

  lemma {:induction false} ItemsWellFormed(v: Value, i: nat)
    requires v.List? && Supported(v) && i < |v.items|
    ensures Utf8.WellFormed(JoinItems(v, i))
    decreases v, 0, |v.items| - i
  {
    JcsWellFormed(v.items[i]);
    if i < |v.items| - 1 {
      ItemsWellFormed(v, i + 1);
      Joined(Jcs(v.items[i]), COMMA, JoinItems(v, i + 1));
    }
  }

  lemma {:induction false} MembersWellFormed(v: Value, keys: seq<Str>)
    requires v.Object? && Supported(v) && keys != [] && forall k :: k in keys ==> k in v.members
    ensures Utf8.WellFormed(JoinMembers(v, keys))
    decreases v, 0, |keys|
  {
    var k := keys[0];
    JcsWellFormed(v.members[k]);
    QuotedWellFormed(k);
    Joined(Quote(k), COLON, Jcs(v.members[k]));
    if |keys| > 1 {
      MembersWellFormed(v, keys[1..]);
      Joined(Quote(k) + ([COLON] + Jcs(v.members[k])), COMMA, JoinMembers(v, keys[1..]));
    }
  }

  /** The bytes of the canonical text determine the value, too. */
  lemma CanonicalBytesIff(v: Value, w: Value)
    requires Supported(v) && Supported(w)
    ensures Utf8.Encode(Jcs(v)) == Utf8.Encode(Jcs(w)) <==> v == w
  {
    JcsWellFormed(v);
    JcsWellFormed(w);
    if Utf8.Encode(Jcs(v)) == Utf8.Encode(Jcs(w)) { Utf8.EncodeInjective(Jcs(v), Jcs(w)); }
    CanonicalIff(v, w);
  }

  // What a decision's signature covers.

  predicate IsAscii(s: string) { forall i :: 0 <= i < |s| ==> s[i] as int < 128 }

  function Ascii(s: string): Str
    requires IsAscii(s)
  {
    seq(|s|, i requires 0 <= i < |s| => s[i] as int)
  }

  const SHADOW := Ascii("shadow")

  /** The punctuation and the three words of JSON. */
  lemma JsonTokens()
    ensures [OPEN_LIST, CLOSE_LIST, OPEN_OBJECT, CLOSE_OBJECT, COMMA, COLON, QUOTE] == Ascii("[]{},:\"")
    ensures NULL == Ascii("null") && TRUE == Ascii("true") && FALSE == Ascii("false")
  {
  }

  const DECISION_ID := Ascii("decision_id")
  const VERDICT := Ascii("verdict")
  const POLICY_VERSION_HASH := Ascii("policy_version_hash")
  const EXPLANATION := Ascii("explanation")
  const OBLIGATIONS := Ascii("obligations")
  const EVALUATED_AT := Ascii("evaluated_at")

  const SIGNED_FIELDS := [DECISION_ID, VERDICT, POLICY_VERSION_HASH, EXPLANATION, OBLIGATIONS, EVALUATED_AT, SHADOW]

  /** Boolean(v): false for null, false, 0 and "". */
  function Truthy(v: Value): bool {
    match v
    case Null => false
    case Bool(b) => b
    case Num(n) => n != 0
    case Text(s) => s != []
    case Unsupported(truthy) => truthy
    case _ => true
  }

  /** Among the values of JSON, exactly null, false, zero and the empty string are false. */
  lemma FalsyAre(v: Value)
    ensures !v.Unsupported? ==> (!Truthy(v) <==> v in {Null, Bool(false), Num(0), Text([])})
  {
  }

  /** An absent shadow flag reads as false. */
  function ShadowOf(d: map<Str, Value>, shadow: Str): bool { shadow in d && Truthy(d[shadow]) }

  /** The signed part of a decision: the listed fields it has, and the flag. */
  function Signed(d: map<Str, Value>, fields: seq<Str>, shadow: Str): map<Str, Value> {
    map f | f in fields && (f == shadow || f in d) :: if f == shadow then Bool(ShadowOf(d, shadow)) else d[f]
  }

  /** Copies the signed fields one by one. */
  method SelectSigned(d: map<Str, Value>, fields: seq<Str>, shadow: Str) returns (signed: map<Str, Value>)
    ensures signed == Signed(d, fields, shadow)
  {
    signed := map[];
    for i := 0 to |fields|
      invariant signed == Signed(d, fields[..i], shadow)
    {
      assert fields[..i + 1] == fields[..i] + [fields[i]];
      if fields[i] == shadow {
        signed := signed[shadow := Bool(if shadow in d then Truthy(d[shadow]) else false)];
      } else if fields[i] in d {
        signed := signed[fields[i] := d[fields[i]]];
      }
    }
    assert fields[..|fields|] == fields;
  }

  datatype Message = Throws | Bytes(bytes: Utf8.Bytes)

  function MessageOf(d: map<Str, Value>, fields: seq<Str>, shadow: Str): Message {
    var signed := Object(Signed(d, fields, shadow));
    if Supported(signed) then Bytes(Utf8.Encode(Jcs(signed))) else Throws
  }

  function SigningMessage(d: map<Str, Value>): Message { MessageOf(d, SIGNED_FIELDS, SHADOW) }

  method DecisionSigningBytes(d: map<Str, Value>) returns (m: Message)
    ensures m == SigningMessage(d)
  {
    var signed := SelectSigned(d, SIGNED_FIELDS, SHADOW);
    m := if Supported(Object(signed)) then Bytes(Utf8.Encode(Jcs(Object(signed)))) else Throws;
  }

  /** The two decisions have the same listed fields, and the same flag. */
  ghost predicate SignedFieldsAgree(d: map<Str, Value>, e: map<Str, Value>, fields: seq<Str>, shadow: Str) {
    && (forall f :: f in fields && f != shadow ==> (f in d <==> f in e) && (f in d ==> d[f] == e[f]))
    && ShadowOf(d, shadow) == ShadowOf(e, shadow)
  }

  lemma SignedEqualIff(d: map<Str, Value>, e: map<Str, Value>, fields: seq<Str>, shadow: Str)
    requires shadow in fields
    ensures Signed(d, fields, shadow) == Signed(e, fields, shadow) <==> SignedFieldsAgree(d, e, fields, shadow)
  {
    var a, b := Signed(d, fields, shadow), Signed(e, fields, shadow);
    if a == b {
      assert a[shadow] == b[shadow];
      forall f | f in fields && f != shadow ensures (f in d <==> f in e) && (f in d ==> d[f] == e[f]) {
        assert f in a <==> f in b;
        if f in d { assert a[f] == b[f]; }
      }
    }
  }

  /** Under any field list with the flag in it, two decisions give the same bytes exactly
      if every listed field agrees; fields outside the list do not matter. */
  lemma MessagesAgreeIff(d: map<Str, Value>, e: map<Str, Value>, fields: seq<Str>, shadow: Str)
    requires shadow in fields && MessageOf(d, fields, shadow).Bytes? && MessageOf(e, fields, shadow).Bytes?
    ensures MessageOf(d, fields, shadow) == MessageOf(e, fields, shadow) <==> SignedFieldsAgree(d, e, fields, shadow)
  {
    CanonicalBytesIff(Object(Signed(d, fields, shadow)), Object(Signed(e, fields, shadow)));
    SignedEqualIff(d, e, fields, shadow);
  }

  /** Two decisions give the same signing bytes exactly if every signed field agrees, an
      absent shadow flag being read as false. */
  lemma SigningBytesAgreeIff(d: map<Str, Value>, e: map<Str, Value>)
    requires SigningMessage(d).Bytes? && SigningMessage(e).Bytes?
    ensures SigningMessage(d) == SigningMessage(e) <==> SignedFieldsAgree(d, e, SIGNED_FIELDS, SHADOW)
  {
    assert SIGNED_FIELDS[6] == SHADOW;
    MessagesAgreeIff(d, e, SIGNED_FIELDS, SHADOW);
  }

  /** Changing a listed field changes the message. */
  lemma FieldShows(d: map<Str, Value>, f: Str, v: Value, fields: seq<Str>, shadow: Str)
    requires shadow in fields && f in fields && f != shadow && (f in d ==> d[f] != v)
    requires MessageOf(d, fields, shadow).Bytes? && MessageOf(d[f := v], fields, shadow).Bytes?
    ensures MessageOf(d, fields, shadow) != MessageOf(d[f := v], fields, shadow)
  {
    MessagesAgreeIff(d, d[f := v], fields, shadow);
    assert f in d[f := v];
  }

  /** Changing any other field does not. */
  lemma FieldHidden(d: map<Str, Value>, f: Str, v: Value, fields: seq<Str>, shadow: Str)
    requires f !in fields && f != shadow
    ensures MessageOf(d, fields, shadow) == MessageOf(d[f := v], fields, shadow)
  {
    assert Signed(d, fields, shadow) == Signed(d[f := v], fields, shadow);
  }

  lemma DecidedIsSigned(name: string)
    requires IsAscii(name)
    requires name in {"decision_id", "verdict", "policy_version_hash", "explanation", "obligations", "evaluated_at"}
    ensures Ascii(name) in SIGNED_FIELDS && Ascii(name) != SHADOW
  {
    assert |SHADOW| == 6 && |Ascii(name)| == |name|;
    assert SIGNED_FIELDS[0] == Ascii("decision_id") && SIGNED_FIELDS[1] == Ascii("verdict");
    assert SIGNED_FIELDS[2] == Ascii("policy_version_hash") && SIGNED_FIELDS[3] == Ascii("explanation");
    assert SIGNED_FIELDS[4] == Ascii("obligations") && SIGNED_FIELDS[5] == Ascii("evaluated_at");
  }

  /** Changing what was decided, by which policy, why, on which conditions or when changes
      the signing bytes. */
  lemma ChangeShows(d: map<Str, Value>, name: string, v: Value)
    requires IsAscii(name) && (Ascii(name) in d ==> d[Ascii(name)] != v)
    requires name in {"decision_id", "verdict", "policy_version_hash", "explanation", "obligations", "evaluated_at"}
    requires SigningMessage(d).Bytes? && SigningMessage(d[Ascii(name) := v]).Bytes?
    ensures SigningMessage(d) != SigningMessage(d[Ascii(name) := v])
  {
    DecidedIsSigned(name);
    assert SIGNED_FIELDS[6] == SHADOW;
    FieldShows(d, Ascii(name), v, SIGNED_FIELDS, SHADOW);
  }

  lemma FlagShows(d: map<Str, Value>, e: map<Str, Value>, fields: seq<Str>, shadow: Str)
    requires shadow in fields && ShadowOf(d, shadow) != ShadowOf(e, shadow)
    requires MessageOf(d, fields, shadow).Bytes? && MessageOf(e, fields, shadow).Bytes?
    ensures MessageOf(d, fields, shadow) != MessageOf(e, fields, shadow)
  {
    MessagesAgreeIff(d, e, fields, shadow);
  }

  lemma ShadowIsSigned(name: string)
    requires name == "shadow"
    ensures Ascii(name) == SHADOW && SHADOW in SIGNED_FIELDS
  {
    assert SHADOW == SIGNED_FIELDS[6];
  }

  /** So does turning the shadow flag over. */
  lemma ShadowShows(d: map<Str, Value>, e: map<Str, Value>, name: string)
    requires name == "shadow" && ShadowOf(d, Ascii(name)) != ShadowOf(e, Ascii(name))
    requires SigningMessage(d).Bytes? && SigningMessage(e).Bytes?
    ensures SigningMessage(d) != SigningMessage(e)
  {
    ShadowIsSigned(name);
    FlagShows(d, e, SIGNED_FIELDS, SHADOW);
  }

  lemma AttachedIsUnsigned(name: string)
    requires IsAscii(name) && name in {"latency_ms", "signature", "record_hash", "signature_verified"}
    ensures Ascii(name) !in SIGNED_FIELDS && Ascii(name) != SHADOW
  {
    assert |DECISION_ID| == |EXPLANATION| == |OBLIGATIONS| == 11 && |VERDICT| == 7 && |POLICY_VERSION_HASH| == 19;
    assert |EVALUATED_AT| == 12 && |SHADOW| == 6 && |Ascii(name)| == |name|;
    assert DECISION_ID[0] == 'd' as int && EXPLANATION[0] == 'e' as int && OBLIGATIONS[0] == 'o' as int;
    assert Ascii(name)[0] == name[0] as int;
  }

  /** Changing what is measured or attached afterwards does not. */
  lemma ChangeHidden(d: map<Str, Value>, name: string, v: Value)
    requires IsAscii(name) && name in {"latency_ms", "signature", "record_hash", "signature_verified"}
    ensures SigningMessage(d) == SigningMessage(d[Ascii(name) := v])
  {
    AttachedIsUnsigned(name);
    FieldHidden(d, Ascii(name), v, SIGNED_FIELDS, SHADOW);
  }
}
