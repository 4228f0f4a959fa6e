/** The lexical half of canonical JSON (sdks/ts/src/canonical.ts): string quoting as
    JSON.stringify does it, integers, and the order of UTF-16 code units, each with the
    reader that undoes it. */
module JsonText {

  /** A UTF-16 code unit, and JavaScript's strings. */
  type Unit = u: nat | u < 0x1_0000
  type Str = seq<Unit>

  const QUOTE: Unit := 0x22
  const BACKSLASH: Unit := 0x5c
  const MINUS: Unit := 0x2d
  const ZERO: Unit := 0x30

  datatype Parsed<T> = Fail | Got(value: T, rest: Str)

  // Quoted strings.

  predicate High(u: Unit) { 0xd800 <= u < 0xdc00 }

  predicate Low(u: Unit) { 0xdc00 <= u < 0xe000 }

  function HexUnit(n: nat): Unit
    requires n < 16
  {
    if n < 10 then 0x30 + n else 0x61 + n - 10
  }

  function HexValue(u: Unit): int { if 0x30 <= u <= 0x39 then u - 0x30 else if 0x61 <= u <= 0x66 then u - 0x61 + 10 else -1 }

  /** The letter of a two-character escape. */
  function ShortEscape(u: Unit): int {
    if u == QUOTE || u == BACKSLASH then u
    else if u == 0x08 then 0x62
    else if u == 0x0c then 0x66
    else if u == 0x0a then 0x6e
    else if u == 0x0d then 0x72
    else if u == 0x09 then 0x74
    else -1
  }

  function EscapeUnit(u: Unit): Str {
    if ShortEscape(u) >= 0 then [BACKSLASH, ShortEscape(u)]
    else if u < 0x20 || High(u) || Low(u)
    then [BACKSLASH, 0x75, HexUnit(u / 0x1000), HexUnit(u / 0x100 % 16), HexUnit(u / 16 % 16), HexUnit(u % 16)]
    else [u]
  }

  /** A surrogate pair is kept, a surrogate on its own is escaped. */
  function Escape(s: Str): Str
    decreases |s|
  {
    if s == [] then []
    else if |s| > 1 && High(s[0]) && Low(s[1]) then [s[0], s[1]] + Escape(s[2..])
    else EscapeUnit(s[0]) + Escape(s[1..])
  }

  function Quote(s: Str): Str { [QUOTE] + Escape(s) + [QUOTE] }

  /** Printable characters stand for themselves, seven characters have a two-character
      escape, and only the other controls and lone surrogates are written in hex: what is
      longest is never used where something shorter will do. */
  lemma EscapeLength(u: Unit)
    ensures |EscapeUnit(u)| ==
            if u in {0x08, 0x09, 0x0a, 0x0c, 0x0d, 0x22, 0x5c} then 2
            else if u <= 0x1f || 0xd800 <= u <= 0xdfff then 6 else 1
    ensures |EscapeUnit(u)| == 1 ==> EscapeUnit(u) == [u]
    ensures |EscapeUnit(u)| == 6 ==> EscapeUnit(u)[0] == '\\' as int && EscapeUnit(u)[1] == 'u' as int
  {
  }

  lemma ShortEscapesAre()
    ensures EscapeUnit(0x08) == ['\\' as int, 'b' as int] && EscapeUnit(0x09) == ['\\' as int, 't' as int]
    ensures EscapeUnit(0x0a) == ['\\' as int, 'n' as int] && EscapeUnit(0x0c) == ['\\' as int, 'f' as int]
    ensures EscapeUnit(0x0d) == ['\\' as int, 'r' as int]
    ensures EscapeUnit('"' as int) == ['\\' as int, '"' as int] && EscapeUnit('\\' as int) == ['\\' as int, '\\' as int]
  {
  }

  /** The unit a two-character escape stands for. */
  function ShortUnit(letter: Unit): int {
    if letter == QUOTE || letter == BACKSLASH then letter
    else if letter == 0x62 then 0x08
    else if letter == 0x66 then 0x0c
    else if letter == 0x6e then 0x0a
    else if letter == 0x72 then 0x0d
    else if letter == 0x74 then 0x09
    else -1
  }

  function ReadHex(t: Str): Parsed<Unit> {
    if |t| < 4 || HexValue(t[0]) < 0 || HexValue(t[1]) < 0 || HexValue(t[2]) < 0 || HexValue(t[3]) < 0 then Fail
    else Got(HexValue(t[0]) * 0x1000 + HexValue(t[1]) * 0x100 + HexValue(t[2]) * 16 + HexValue(t[3]), t[4..])
  }

  function ReadUnit(t: Str): (p: Parsed<Unit>)
    ensures p.Got? ==> |p.rest| < |t|
  {
    if t == [] || t[0] == QUOTE then Fail
    else if t[0] != BACKSLASH then Got(t[0], t[1..])
    else if |t| == 1 then Fail
    else if ShortUnit(t[1]) >= 0 then Got(ShortUnit(t[1]), t[2..])
    else if t[1] == 0x75 then ReadHex(t[2..])
    else Fail
  }

  /** Reads up to and including the closing quote. */
  function ReadBody(t: Str): (p: Parsed<Str>)
    ensures p.Got? ==> |p.rest| < |t|
    decreases |t|
  {
    if t != [] && t[0] == QUOTE then Got([], t[1..])
    else
      match ReadUnit(t)
      case Fail => Fail
      case Got(u, more) =>
        match ReadBody(more)
        case Fail => Fail
        case Got(s, rest) => Got([u] + s, rest)
  }

  function ReadQuoted(t: Str): (p: Parsed<Str>)
    ensures p.Got? ==> |p.rest| < |t|
  {
    if t == [] || t[0] != QUOTE then Fail else ReadBody(t[1..])
  }

  lemma HexRoundTrip(u: Unit, rest: Str)
    ensures ReadHex([HexUnit(u / 0x1000), HexUnit(u / 0x100 % 16), HexUnit(u / 16 % 16), HexUnit(u % 16)] + rest) == Got(u, rest)
  {
    var t := [HexUnit(u / 0x1000), HexUnit(u / 0x100 % 16), HexUnit(u / 16 % 16), HexUnit(u % 16)] + rest;
    HexDigitRoundTrip(u / 0x1000);
    HexDigitRoundTrip(u / 0x100 % 16);
    HexDigitRoundTrip(u / 16 % 16);
    HexDigitRoundTrip(u % 16);
    FourDigits(u);
    assert t[4..] == rest;
  }

  lemma HexDigitRoundTrip(n: nat)
    requires n < 16
    ensures HexValue(HexUnit(n)) == n
  {
  }

  lemma FourDigits(u: nat)
    requires u < 0x1_0000
    ensures u == u / 0x1000 * 0x1000 + u / 0x100 % 16 * 0x100 + u / 16 % 16 * 16 + u % 16
  {
    var a, b := u / 16, u / 0x100;
    assert a == b * 16 + a % 16;
    assert b == u / 0x1000 * 16 + b % 16;
  }

  lemma UnitRoundTrip(u: Unit, rest: Str)
    ensures ReadUnit(EscapeUnit(u) + rest) == Got(u, rest)
  {
    var t := EscapeUnit(u) + rest;
    if ShortEscape(u) >= 0 {
      assert t[2..] == rest;
    } else if u < 0x20 || High(u) || Low(u) {
      HexRoundTrip(u, rest);
      assert t[2..] == [HexUnit(u / 0x1000), HexUnit(u / 0x100 % 16), HexUnit(u / 16 % 16), HexUnit(u % 16)] + rest;
    } else {
      assert t[1..] == rest;
    }
  }

  lemma EscapeDoesNotEnd(u: Unit, rest: Str)
    ensures (EscapeUnit(u) + rest)[0] != QUOTE
  {
  }

  lemma BodyCons(t: Str, u: Unit, more: Str, s: Str, rest: Str)
    requires t != [] && t[0] != QUOTE && ReadUnit(t) == Got(u, more) && ReadBody(more) == Got(s, rest)
    ensures ReadBody(t) == Got([u] + s, rest)
  {
  }

  lemma BodyPlain(t: Str, s: Str, rest: Str)
    requires t != [] && t[0] != QUOTE && t[0] != BACKSLASH && ReadBody(t[1..]) == Got(s, rest)
    ensures ReadBody(t) == Got([t[0]] + s, rest)
  {
    BodyCons(t, t[0], t[1..], s, rest);
  }

  /** t is the escaped s, its closing quote, and whatever follows. */
  ghost predicate Spells(t: Str, s: Str, rest: Str) { t == Escape(s) + ([QUOTE] + rest) }

  lemma SpellsPair(t: Str, s: Str, rest: Str)
    requires Spells(t, s, rest) && |s| > 1 && High(s[0]) && Low(s[1])
    ensures |t| > 1 && t[0] == s[0] && t[1] == s[1] && Spells(t[1..][1..], s[2..], rest)
  {
    var end, tail := [QUOTE] + rest, Escape(s[2..]);
    assert t == [s[0], s[1]] + (tail + end);
    assert t[1..][1..] == tail + end;
  }

  lemma SpellsUnit(t: Str, s: Str, rest: Str) returns (more: Str)
    requires Spells(t, s, rest) && s != [] && !(|s| > 1 && High(s[0]) && Low(s[1]))
    ensures t != [] && t[0] != QUOTE && ReadUnit(t) == Got(s[0], more) && Spells(more, s[1..], rest)
  {
    var end, tail := [QUOTE] + rest, Escape(s[1..]);
    more := tail + end;
    assert t == EscapeUnit(s[0]) + more;
    UnitRoundTrip(s[0], more);
    EscapeDoesNotEnd(s[0], more);
  }

  lemma BodyPair(t: Str, s: Str, rest: Str)
    requires |t| > 1 && High(t[0]) && Low(t[1]) && ReadBody(t[1..][1..]) == Got(s, rest)
    ensures ReadBody(t) == Got([t[0], t[1]] + s, rest)
  {
    BodyPlain(t[1..], s, rest);
    BodyPlain(t, [t[1]] + s, rest);
    assert [t[0]] + ([t[1]] + s) == [t[0], t[1]] + s;
  }

  lemma {:induction false} BodyRoundTrip(t: Str, s: Str, rest: Str)
    requires Spells(t, s, rest)
    ensures ReadBody(t) == Got(s, rest)
    decreases |s|
  {
    if s == [] {
      assert t == [QUOTE] + rest && t[1..] == rest;
    } else if |s| > 1 && High(s[0]) && Low(s[1]) {
      SpellsPair(t, s, rest);
      BodyRoundTrip(t[1..][1..], s[2..], rest);
      BodyPair(t, s[2..], rest);
      assert s == [s[0], s[1]] + s[2..];
    } else {
      var more := SpellsUnit(t, s, rest);
      BodyRoundTrip(more, s[1..], rest);
      BodyCons(t, s[0], more, s[1..], rest);
      assert s == [s[0]] + s[1..];
    }
  }

  lemma QuotedRoundTrip(s: Str, rest: Str)
    ensures ReadQuoted(Quote(s) + rest) == Got(s, rest)
  {
    var t := Quote(s) + rest;
    assert t[1..] == Escape(s) + ([QUOTE] + rest);
    BodyRoundTrip(t[1..], s, rest);
  }

  // Integers.

  const SAFE := 0x20_0000_0000_0000

  predicate IsDigit(u: Unit) { 0x30 <= u <= 0x39 }

  function DecimalNat(n: nat): (t: Str)
    ensures |t| > 0 && IsDigit(t[0])
  {
    if n < 10 then [ZERO + n] else DecimalNat(n / 10) + [ZERO + n % 10]
  }

  /** No leading zeros. */
  lemma {:induction false} NoLeadingZero(n: nat)
    ensures DecimalNat(n)[0] == '0' as int <==> n == 0
    ensures n < 10 <==> |DecimalNat(n)| == 1
  {
    if n >= 10 { NoLeadingZero(n / 10); }
  }

  function Decimal(n: int): Str { if n < 0 then [MINUS] + DecimalNat(-n) else DecimalNat(n) }

  /** Reads as many digits as there are, after digits of value acc. */
  function ReadDigits(t: Str, acc: nat): (p: (nat, Str))
    ensures |p.1| <= |t|
    decreases |t|
  {
    if t == [] || !IsDigit(t[0]) then (acc, t) else ReadDigits(t[1..], acc * 10 + (t[0] - ZERO))
  }

  /** What may follow a number: anything but a digit. */
  predicate EndsNumber(rest: Str) { rest == [] || !IsDigit(rest[0]) }

  lemma {:induction false} DigitsRoundTrip(n: nat, rest: Str)
    ensures ReadDigits(DecimalNat(n) + rest, 0) == ReadDigits(rest, n)
    decreases n
  {
    if n < 10 {
      assert ([ZERO + n] + rest)[1..] == rest;
    } else {
      var last := [ZERO + n % 10] + rest;
      assert DecimalNat(n) + rest == DecimalNat(n / 10) + last;
      DigitsRoundTrip(n / 10, last);
      assert last[1..] == rest;
    }
  }

  function ReadNumber(t: Str): (p: Parsed<int>)
    ensures p.Got? ==> |p.rest| < |t|
  {
    if t == [] then Fail
    else if IsDigit(t[0]) then
      var (n, rest) := ReadDigits(t[1..], t[0] - ZERO);
      Got(n, rest)
    else if t[0] == MINUS && |t| > 1 && IsDigit(t[1]) then
      var (n, rest) := ReadDigits(t[2..], t[1] - ZERO);
      Got(0 - n, rest)
    else Fail
  }

  lemma DigitsStep(t: Str)
    requires t != [] && IsDigit(t[0])
    ensures ReadDigits(t, 0) == ReadDigits(t[1..], t[0] - ZERO)
  {
  }

  lemma DigitsStop(rest: Str, n: nat)
    requires EndsNumber(rest)
    ensures ReadDigits(rest, n) == (n, rest)
  {
  }

  lemma NatRoundTrip(n: nat, t: Str, rest: Str)
    requires EndsNumber(rest) && t == DecimalNat(n) + rest
    ensures t != [] && IsDigit(t[0]) && ReadDigits(t[1..], t[0] - ZERO) == (n, rest)
  {
    DigitsRoundTrip(n, rest);
    DigitsStep(t);
    DigitsStop(rest, n);
  }

  lemma NumberRoundTrip(n: int, t: Str, rest: Str)
    requires EndsNumber(rest) && t == Decimal(n) + rest
    ensures ReadNumber(t) == Got(n, rest)
  {
    if n < 0 {
      assert t == [MINUS] + (DecimalNat(-n) + rest);
      assert t[1..] == DecimalNat(-n) + rest;
      NatRoundTrip(-n, t[1..], rest);
      assert t[1..][1..] == t[2..];
    } else {
      NatRoundTrip(n, t, rest);
    }
  }
}
