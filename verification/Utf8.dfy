/** The bytes of a JavaScript string, as Buffer.from(text, "utf8") makes them: a surrogate
    pair is four bytes, a surrogate on its own is replaced by U+FFFD. */
module Utf8 {
  import opened JsonText

  type Bytes = seq<int>

  function EncodeUnit(u: nat): Bytes {
    if u < 0x80 then [u]
    else if u < 0x800 then [0xc0 + u / 64, 0x80 + u % 64]
    else [0xe0 + u / 0x1000, 0x80 + u / 64 % 64, 0x80 + u % 64]
  }

  /** The code point of a surrogate pair, less 2^16. */
  function PairOffset(hi: Unit, lo: Unit): nat
    requires High(hi) && Low(lo)
  {
    (hi - 0xd800) * 0x400 + (lo - 0xdc00)
  }

  function EncodePair(c: nat): Bytes {
    [0xf0 + (c + 0x1_0000) / 0x4_0000, 0x80 + (c + 0x1_0000) / 0x1000 % 64, 0x80 + c / 64 % 64, 0x80 + c % 64]
  }

  function Encode(t: Str): Bytes
    decreases |t|
  {
    if t == [] then []
    else if |t| > 1 && High(t[0]) && Low(t[1]) then EncodePair(PairOffset(t[0], t[1])) + Encode(t[2..])
    else EncodeUnit(if High(t[0]) || Low(t[0]) then 0xfffd else t[0]) + Encode(t[1..])
  }

  /** Every surrogate is part of a pair. */
  predicate WellFormed(t: Str)
    decreases |t|
  {
    || t == []
    || (|t| > 1 && High(t[0]) && Low(t[1]) && WellFormed(t[2..]))
    || (!High(t[0]) && !Low(t[0]) && WellFormed(t[1..]))
  }

  lemma {:induction false} WellFormedConcat(a: Str, b: Str)
    requires WellFormed(a) && WellFormed(b)
    ensures WellFormed(a + b)
    decreases |a|
  {
    if a == [] {
      assert a + b == b;
    } else if |a| > 1 && High(a[0]) && Low(a[1]) && WellFormed(a[2..]) {
      WellFormedConcat(a[2..], b);
      assert (a + b)[2..] == a[2..] + b;
    } else {
      WellFormedConcat(a[1..], b);
      assert (a + b)[1..] == a[1..] + b;
    }
  }

  predicate Ascii(t: Str) { forall i :: 0 <= i < |t| ==> t[i] < 0x80 }

  lemma {:induction false} AsciiWellFormed(t: Str)
    requires Ascii(t)
    ensures WellFormed(t)
    decreases |t|
  {
    if t != [] { AsciiWellFormed(t[1..]); }
  }

  // Reading the bytes back.

  /** The text of the bytes; what is not the start of a character is skipped. */
  function Decode(b: Bytes): seq<int>
    decreases |b|
  {
    if b == [] then []
    else if b[0] < 0x80 then [b[0]] + Decode(b[1..])
    else if b[0] < 0xe0 && |b| > 1 then [(b[0] - 0xc0) * 64 + (b[1] - 0x80)] + Decode(b[2..])
    else if b[0] < 0xf0 && |b| > 2 then [(b[0] - 0xe0) * 0x1000 + (b[1] - 0x80) * 64 + (b[2] - 0x80)] + Decode(b[3..])
    else if |b| > 3 then
      var c := (b[0] - 0xf0) * 0x4_0000 + (b[1] - 0x80) * 0x1000 + (b[2] - 0x80) * 64 + (b[3] - 0x80) - 0x1_0000;
      [0xd800 + c / 0x400, 0xdc00 + c % 0x400] + Decode(b[4..])
    else []
  }

  lemma UnitRead(u: nat, rest: Bytes)
    requires u < 0x1_0000
    ensures Decode(EncodeUnit(u) + rest) == [u] + Decode(rest)
  {
    var b := EncodeUnit(u) + rest;
    if u < 0x80 {
      assert b[1..] == rest;
    } else if u < 0x800 {
      assert b[2..] == rest;
    } else {
      ThreeParts(u);
      assert b[3..] == rest;
    }
  }

  lemma ThreeParts(u: nat)
    requires u < 0x1_0000
    ensures u / 0x1000 * 0x1000 + u / 64 % 64 * 64 + u % 64 == u && u / 0x1000 < 16
  {
    var q := u / 64;
    assert q == q / 64 * 64 + q % 64;
  }

  lemma PairParts(hi: Unit, lo: Unit)
    requires High(hi) && Low(lo)
    ensures var c := PairOffset(hi, lo);
            && 0 <= c < 0x10_0000 && 0xd800 + c / 0x400 == hi && 0xdc00 + c % 0x400 == lo
            && (c + 0x1_0000) / 0x4_0000 * 0x4_0000 + (c + 0x1_0000) / 0x1000 % 64 * 0x1000
               + c / 64 % 64 * 64 + c % 64 == c + 0x1_0000
  {
    var c := PairOffset(hi, lo);
    FourParts(c);
  }

  lemma FourParts(c: nat)
    ensures (c + 0x1_0000) / 0x4_0000 * 0x4_0000 + (c + 0x1_0000) / 0x1000 % 64 * 0x1000
            + c / 64 % 64 * 64 + c % 64 == c + 0x1_0000
  {
    var d, q, r := c + 0x1_0000, c / 64, (c + 0x1_0000) / 0x1000;
    assert r == r / 64 * 64 + r % 64 && r / 64 == d / 0x4_0000;
    assert q == q / 64 * 64 + q % 64 && c == q * 64 + c % 64;
    assert r == q / 64 + 16;
  }

  lemma PairRead(hi: Unit, lo: Unit, rest: Bytes)
    requires High(hi) && Low(lo)
    ensures Decode(EncodePair(PairOffset(hi, lo)) + rest) == [hi, lo] + Decode(rest)
  {
    var b := EncodePair(PairOffset(hi, lo)) + rest;
    PairParts(hi, lo);
    assert b[4..] == rest;
  }

  /** Well-formed text survives the trip, so different texts have different bytes. */
  lemma {:induction false} RoundTrip(t: Str)
    requires WellFormed(t)
    ensures Decode(Encode(t)) == t
    decreases |t|
  {
    if t == [] {
    } else if |t| > 1 && High(t[0]) && Low(t[1]) {
      RoundTrip(t[2..]);
      PairRead(t[0], t[1], Encode(t[2..]));
      assert t == [t[0], t[1]] + t[2..];
    } else {
      RoundTrip(t[1..]);
      UnitRead(t[0], Encode(t[1..]));
      assert t == [t[0]] + t[1..];
    }
  }

  lemma EncodeInjective(a: Str, b: Str)
    requires WellFormed(a) && WellFormed(b) && Encode(a) == Encode(b)
    ensures a == b
  {
    RoundTrip(a);
    RoundTrip(b);
  }

  /** Without the restriction it is not: both halves of a pair on their own, in either
      order, become the replacement character. */
  lemma LoneSurrogatesCollide()
    ensures Encode([0xd800]) == Encode([0xdc00]) == [0xef, 0xbf, 0xbd]
  {
    assert [0xd800 as Unit][1..] == [] && [0xdc00 as Unit][1..] == [];
  }
}
