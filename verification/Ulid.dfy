/** ULID text encoding (internal/ulid/ulid.go): the bit-packing encoder writes the
    26-digit base-32 numeral of the 128-bit value, so it is injective, sorts like the
    bytes it encodes, and can be undone. */
module Ulid {

  const CROCKFORD := "0123456789ABCDEFGHJKMNPQRSTVWXYZ"

  // Positional numerals, most significant digit first.

  datatype Radix = Base32 | Base256

  function Size(r: Radix): nat { if r.Base32? then 32 else 256 }

  function Scale(r: Radix, x: nat): nat { if r.Base32? then x * 32 else x * 256 }

  function Quotient(r: Radix, x: nat): nat { if r.Base32? then x / 32 else x / 256 }

  function Remainder(r: Radix, x: nat): nat { if r.Base32? then x % 32 else x % 256 }

  /** The value of the numeral ds after leading digits of value acc. */
  function Horner(r: Radix, acc: nat, ds: seq<nat>): nat
    decreases |ds|
  {
    if ds == [] then acc else Horner(r, Scale(r, acc) + ds[0], ds[1..])
  }

  function Value(r: Radix, ds: seq<nat>): nat { Horner(r, 0, ds) }

  /** The last n digits of v. */
  function Numeral(r: Radix, v: nat, n: nat): (ds: seq<nat>)
    ensures |ds| == n && Digits(r, ds)
    decreases n
  {
    if n == 0 then [] else Numeral(r, Quotient(r, v), n - 1) + [Remainder(r, v)]
  }

  predicate Digits(r: Radix, ds: seq<nat>) { forall i :: 0 <= i < |ds| ==> ds[i] < Size(r) }

  lemma {:induction false} HornerConcat(r: Radix, acc: nat, a: seq<nat>, b: seq<nat>)
    ensures Horner(r, acc, a + b) == Horner(r, Horner(r, acc, a), b)
    decreases |a|
  {
    if a == [] {
      assert a + b == b;
    } else {
      assert (a + b)[1..] == a[1..] + b;
      HornerConcat(r, Scale(r, acc) + a[0], a[1..], b);
    }
  }

  lemma LastDigit(r: Radix, q: nat, d: nat)
    requires d < Size(r)
    ensures Quotient(r, Scale(r, q) + d) == q && Remainder(r, Scale(r, q) + d) == d
  {
  }

  lemma ValueSnoc(r: Radix, ds: seq<nat>)
    requires ds != []
    ensures Value(r, ds) == Scale(r, Value(r, ds[..|ds| - 1])) + ds[|ds| - 1]
  {
    var n := |ds| - 1;
    assert ds == ds[..n] + [ds[n]];
    HornerConcat(r, 0, ds[..n], [ds[n]]);
  }

  /** A numeral is determined by its value and length. */
  lemma {:induction false} NumeralOfValue(r: Radix, ds: seq<nat>)
    requires Digits(r, ds)
    ensures Numeral(r, Value(r, ds), |ds|) == ds
    decreases |ds|
  {
    if ds != [] {
      var n := |ds| - 1;
      ValueSnoc(r, ds);
      LastDigit(r, Value(r, ds[..n]), ds[n]);
      NumeralOfValue(r, ds[..n]);
      assert ds == ds[..n] + [ds[n]];
    }
  }

  /** Lexicographic order of two equally long digit strings. */
  predicate Before(a: seq<nat>, b: seq<nat>)
    requires |a| == |b|
    decreases |a|
  {
    a != [] && (a[0] < b[0] || (a[0] == b[0] && Before(a[1..], b[1..])))
  }

  lemma {:induction false} HornerMonotone(r: Radix, x: nat, y: nat, a: seq<nat>, b: seq<nat>)
    requires |a| == |b| && Digits(r, a) && Digits(r, b) && x < y
    ensures Horner(r, x, a) < Horner(r, y, b)
    decreases |a|
  {
    if a != [] { HornerMonotone(r, Scale(r, x) + a[0], Scale(r, y) + b[0], a[1..], b[1..]); }
  }

  /** Lexicographic order is numeric order. */
  lemma {:induction false} BeforeIsLess(r: Radix, x: nat, a: seq<nat>, b: seq<nat>)
    requires |a| == |b| && Digits(r, a) && Digits(r, b)
    ensures Before(a, b) <==> Horner(r, x, a) < Horner(r, x, b)
    decreases |a|
  {
    if a != [] {
      var p, q := Scale(r, x) + a[0], Scale(r, x) + b[0];
      if p < q {
        HornerMonotone(r, p, q, a[1..], b[1..]);
      } else if q < p {
        HornerMonotone(r, q, p, b[1..], a[1..]);
      } else {
        BeforeIsLess(r, p, a[1..], b[1..]);
      }
    }
  }

  // The encoder.

  function Bytes(b: seq<bv8>): seq<nat> { seq(|b|, i requires 0 <= i < |b| => b[i] as nat) }

  /** A digit string in the given alphabet. */
  function Render(alphabet: string, ds: seq<nat>): string
    requires |alphabet| == 32 && Digits(Base32, ds)
  {
    seq(|ds|, i requires 0 <= i < |ds| => alphabet[ds[i]])
  }

  function Digits26(b: seq<bv8>): (ds: seq<nat>)
    ensures |ds| == 26 && Digits(Base32, ds)
  {
    Numeral(Base32, Value(Base256, Bytes(b)), 26)
  }

  /** The text of b: its 128-bit value as a 26-digit numeral. */
  function Text(b: seq<bv8>): string { Render(CROCKFORD, Digits26(b)) }

  /** How five bytes are cut into eight five-bit symbols. */
  function Symbols(x: seq<nat>): (ds: seq<nat>)
    requires |x| == 5 && Digits(Base256, x)
    ensures |ds| == 8 && Digits(Base32, ds)
  {
    [x[0] / 8, x[0] % 8 * 4 + x[1] / 64, x[1] % 64 / 2, x[1] % 2 * 16 + x[2] / 16,
     x[2] % 16 * 2 + x[3] / 128, x[3] % 128 / 4, x[3] % 4 * 8 + x[4] / 32, x[4] % 32]
  }

  lemma HornerStep(r: Radix, acc: nat, d: nat, rest: seq<nat>)
    ensures Horner(r, acc, [d] + rest) == Horner(r, Scale(r, acc) + d, rest)
  {
    assert ([d] + rest)[1..] == rest;
  }

  lemma HornerFour(r: Radix, acc: nat, a: nat, b: nat, c: nat, d: nat)
    ensures Horner(r, acc, [a, b, c, d]) == Scale(r, Scale(r, Scale(r, Scale(r, acc) + a) + b) + c) + d
  {
    HornerStep(r, acc, a, [b, c, d]);
    HornerStep(r, Scale(r, acc) + a, b, [c, d]);
    HornerStep(r, Scale(r, Scale(r, acc) + a) + b, c, [d]);
    HornerStep(r, Scale(r, Scale(r, Scale(r, acc) + a) + b) + c, d, []);
    assert [a] + [b, c, d] == [a, b, c, d] && [b] + [c, d] == [b, c, d] && [c] + [d] == [c, d] && [d] + [] == [d];
  }

  lemma CutIn64(x: nat)
    requires x < 256
    ensures x == x / 64 * 64 + x % 64 / 2 * 2 + x % 2
  {
    var q, r := x / 64, x % 64;
    var u, v := r / 2, r % 2;
    assert x == 2 * (q * 32 + u) + v && r == 2 * u + v;
    assert x % 2 == v;
  }

  lemma CutIn128(x: nat)
    requires x < 256
    ensures x == x / 128 * 128 + x % 128 / 4 * 4 + x % 4
  {
    var q, r := x / 128, x % 128;
    var u, v := r / 4, r % 4;
    assert x == 4 * (q * 32 + u) + v && r == 4 * u + v;
    assert x % 4 == v;
  }

  /** Eight symbols and five bytes made of the same parts have the same value. */
  lemma SameParts(acc: nat, a: nat, b: nat, c: nat, d: nat, e: nat, f: nat, g: nat, h: nat, i: nat, j: nat, k: nat, l: nat)
    ensures Horner(Base32, acc, [a, b * 4 + c, d, e * 16 + f] + [g * 2 + h, i, j * 8 + k, l]) ==
            Horner(Base256, acc, [a * 8 + b] + [c * 64 + d * 2 + e, f * 16 + g, h * 128 + i * 4 + j, k * 32 + l])
  {
    HornerConcat(Base32, acc, [a, b * 4 + c, d, e * 16 + f], [g * 2 + h, i, j * 8 + k, l]);
    HornerFour(Base32, acc, a, b * 4 + c, d, e * 16 + f);
    HornerFour(Base32, Horner(Base32, acc, [a, b * 4 + c, d, e * 16 + f]), g * 2 + h, i, j * 8 + k, l);
    HornerStep(Base256, acc, a * 8 + b, [c * 64 + d * 2 + e, f * 16 + g, h * 128 + i * 4 + j, k * 32 + l]);
    HornerFour(Base256, Scale(Base256, acc) + (a * 8 + b), c * 64 + d * 2 + e, f * 16 + g, h * 128 + i * 4 + j, k * 32 + l);
  }

  /** Cutting keeps the value, whatever digits come before. */
  lemma SymbolsValue(acc: nat, x: seq<nat>)
    requires |x| == 5 && Digits(Base256, x)
    ensures Horner(Base32, acc, Symbols(x)) == Horner(Base256, acc, x)
  {
    var p, q, r, s, t := x[0], x[1], x[2], x[3], x[4];
    SameParts(acc, p / 8, p % 8, q / 64, q % 64 / 2, q % 2, r / 16, r % 16, s / 128, s % 128 / 4, s % 4, t / 32, t % 32);
    CutIn64(q);
    CutIn128(s);
    assert x == [p] + [q, r, s, t];
    assert Symbols(x) == [p / 8, p % 8 * 4 + q / 64, q % 64 / 2, q % 2 * 16 + r / 16]
                         + [r % 16 * 2 + s / 128, s % 128 / 4, s % 4 * 8 + t / 32, t % 32];
  }

  // The bit operations of the encoder, read as arithmetic.

  lemma High(x: bv8)
    ensures ((x & 248) >> 3) as nat == x as nat / 8 && ((x & 192) >> 6) as nat == x as nat / 64
    ensures ((x & 240) >> 4) as nat == x as nat / 16 && ((x & 128) >> 7) as nat == x as nat / 128
    ensures ((x & 224) >> 5) as nat == x as nat / 32
  {
  }

  lemma Masks(x: bv8)
    ensures (x & 1) as nat == x as nat % 2 && (x & 3) as nat == x as nat % 4 && (x & 7) as nat == x as nat % 8
    ensures (x & 15) as nat == x as nat % 16 && (x & 31) as nat == x as nat % 32
  {
    Mask1(x);
    Mask3(x);
    Mask7(x);
  }

  lemma Mask1(x: bv8)
    ensures (x & 1) as nat == x as nat % 2
  {
  }

  lemma Mask3(x: bv8)
    ensures (x & 3) as nat == x as nat % 4
  {
  }

  lemma Mask7(x: bv8)
    ensures (x & 7) as nat == x as nat % 8
  {
  }

  lemma Middle(x: bv8)
    ensures ((x & 62) >> 1) as nat == x as nat % 64 / 2 && ((x & 124) >> 2) as nat == x as nat % 128 / 4
  {
    var y, z := x & 63, x & 127;
    assert (x & 62) >> 1 == y >> 1 && (x & 124) >> 2 == z >> 2;
    assert y as nat == x as nat % 64 && z as nat == x as nat % 128;
    Halved(y);
    Halved(z);
  }

  lemma Halved(x: bv8)
    ensures (x >> 1) as nat == x as nat / 2 && (x >> 2) as nat == x as nat / 4
  {
  }

  lemma Shifted(y: bv8)
    ensures y <= 7 ==> (y << 2) as nat == y as nat * 4
    ensures y <= 1 ==> (y << 4) as nat == y as nat * 16
    ensures y <= 15 ==> (y << 1) as nat == y as nat * 2
    ensures y <= 3 ==> (y << 3) as nat == y as nat * 8
  {
  }

  lemma Join(u: bv8, v: bv8)
    requires u & v == 0 && u <= 31 && v <= 31
    ensures (u | v) as nat == u as nat + v as nat
  {
    assert u | v == u + v;
  }

  // The bit operations the encoder applies to the five bytes of a group.

  method Symbol0(a: bv8) returns (s: nat)
    ensures s == a as nat / 8
  {
    High(a);
    s := ((a & 248) >> 3) as nat;
  }

  method Symbol1(a: bv8, b: bv8) returns (s: nat)
    ensures s == a as nat % 8 * 4 + b as nat / 64
  {
    Mask7(a);
    High(b);
    Shifted(a & 7);
    Join((a & 7) << 2, (b & 192) >> 6);
    s := (((a & 7) << 2) | ((b & 192) >> 6)) as nat;
  }

  method Symbol2(b: bv8) returns (s: nat)
    ensures s == b as nat % 64 / 2
  {
    Middle(b);
    s := ((b & 62) >> 1) as nat;
  }

  method Symbol3(b: bv8, c: bv8) returns (s: nat)
    ensures s == b as nat % 2 * 16 + c as nat / 16
  {
    Mask1(b);
    High(c);
    Shifted(b & 1);
    Join((b & 1) << 4, (c & 240) >> 4);
    s := (((b & 1) << 4) | ((c & 240) >> 4)) as nat;
  }

  method Symbol4(c: bv8, d: bv8) returns (s: nat)
    ensures s == c as nat % 16 * 2 + d as nat / 128
  {
    Masks(c);
    High(d);
    Shifted(c & 15);
    Join((c & 15) << 1, (d & 128) >> 7);
    s := (((c & 15) << 1) | ((d & 128) >> 7)) as nat;
  }

  method Symbol5(d: bv8) returns (s: nat)
    ensures s == d as nat % 128 / 4
  {
    Middle(d);
    s := ((d & 124) >> 2) as nat;
  }

  method Symbol6(d: bv8, e: bv8) returns (s: nat)
    ensures s == d as nat % 4 * 8 + e as nat / 32
  {
    Mask3(d);
    High(e);
    Shifted(d & 3);
    Join((d & 3) << 3, (e & 224) >> 5);
    s := (((d & 3) << 3) | ((e & 224) >> 5)) as nat;
  }

  method Symbol7(e: bv8) returns (s: nat)
    ensures s == e as nat % 32
  {
    Masks(e);
    s := (e & 31) as nat;
  }

  // The encoder.

  method SymbolsOf(b: seq<bv8>) returns (s: seq<nat>)
    requires |b| == 5
    ensures s == Symbols(Bytes(b))
  {
    var s0 := Symbol0(b[0]);
    var s1 := Symbol1(b[0], b[1]);
    var s2 := Symbol2(b[1]);
    var s3 := Symbol3(b[1], b[2]);
    var s4 := Symbol4(b[2], b[3]);
    var s5 := Symbol5(b[3]);
    var s6 := Symbol6(b[3], b[4]);
    var s7 := Symbol7(b[4]);
    s := [s0, s1, s2, s3, s4, s5, s6, s7];
    SymbolsFrom(Bytes(b), s);
  }

  lemma SymbolsFrom(x: seq<nat>, s: seq<nat>)
    requires |x| == 5 && Digits(Base256, x) && |s| == 8
    requires s[0] == x[0] / 8 && s[1] == x[0] % 8 * 4 + x[1] / 64 && s[2] == x[1] % 64 / 2
    requires s[3] == x[1] % 2 * 16 + x[2] / 16 && s[4] == x[2] % 16 * 2 + x[3] / 128
    requires s[5] == x[3] % 128 / 4 && s[6] == x[3] % 4 * 8 + x[4] / 32 && s[7] == x[4] % 32
    ensures s == Symbols(x)
  {
  }

  /** Writes the characters of s into the buffer. */
  method Write(alphabet: string, d: array<char>, at: nat, s: seq<nat>)
    requires |alphabet| == 32 && Digits(Base32, s) && at + |s| <= d.Length
    modifies d
    ensures d[..at + |s|] == old(d[..at]) + Render(alphabet, s)
  {
    for i := 0 to |s|
      invariant d[..at] == old(d[..at])
      invariant forall k :: 0 <= k < i ==> d[at + k] == alphabet[s[k]]
    {
      d[at + i] := alphabet[s[i]];
    }
  }

  lemma RenderConcat(alphabet: string, a: seq<nat>, b: seq<nat>)
    requires |alphabet| == 32 && Digits(Base32, a) && Digits(Base32, b)
    ensures Digits(Base32, a + b) && Render(alphabet, a + b) == Render(alphabet, a) + Render(alphabet, b)
  {
  }

  /** The symbols of all sixteen bytes. */
  ghost function AllSymbols(x: seq<nat>): (ds: seq<nat>)
    requires |x| == 16 && Digits(Base256, x)
    ensures |ds| == 26 && Digits(Base32, ds)
  {
    [x[0] / 32, x[0] % 32] + Symbols(x[1..6]) + Symbols(x[6..11]) + Symbols(x[11..16])
  }

  lemma LeadValue(x: nat)
    ensures Value(Base32, [x / 32, x % 32]) == x == Value(Base256, [x])
  {
    HornerStep(Base32, 0, x / 32, [x % 32]);
    HornerStep(Base32, x / 32, x % 32, []);
    assert [x / 32, x % 32] == [x / 32] + [x % 32] && [x % 32] == [x % 32] + [];
    HornerStep(Base256, 0, x, []);
    assert [x] + [] == [x];
  }

  lemma AllSymbolsValue(x: seq<nat>)
    requires |x| == 16 && Digits(Base256, x)
    ensures Value(Base32, AllSymbols(x)) == Value(Base256, x)
  {
    var s, g, h, k := [x[0] / 32, x[0] % 32], x[1..6], x[6..11], x[11..16];
    LeadValue(x[0]);
    HornerConcat(Base32, 0, s, Symbols(g));
    HornerConcat(Base32, 0, s + Symbols(g), Symbols(h));
    HornerConcat(Base32, 0, s + Symbols(g) + Symbols(h), Symbols(k));
    HornerConcat(Base256, 0, [x[0]], g);
    HornerConcat(Base256, 0, [x[0]] + g, h);
    HornerConcat(Base256, 0, [x[0]] + g + h, k);
    SymbolsValue(x[0], g);
    SymbolsValue(Value(Base256, [x[0]] + g), h);
    SymbolsValue(Value(Base256, [x[0]] + g + h), k);
    assert x == [x[0]] + g + h + k;
  }

  lemma DigitsAreSymbols(b: seq<bv8>)
    requires |b| == 16
    ensures Digits26(b) == AllSymbols(Bytes(b))
  {
    AllSymbolsValue(Bytes(b));
    NumeralOfValue(Base32, AllSymbols(Bytes(b)));
  }

  method LeadOf(a: bv8) returns (s: seq<nat>)
    ensures s == [a as nat / 32, a as nat % 32]
  {
    High(a);
    Masks(a);
    s := [((a & 224) >> 5) as nat, (a & 31) as nat];
  }

  /** Fills the 26-character buffer from left to right. */
  method Fill(alphabet: string, lead: seq<nat>, g: seq<nat>, h: seq<nat>, k: seq<nat>) returns (text: string)
    requires |alphabet| == 32 && |lead| == 2 && |g| == |h| == |k| == 8
    requires Digits(Base32, lead) && Digits(Base32, g) && Digits(Base32, h) && Digits(Base32, k)
    ensures text == Render(alphabet, lead) + Render(alphabet, g) + Render(alphabet, h) + Render(alphabet, k)
  {
    var d := new char[26];
    Write(alphabet, d, 0, lead);
    assert d[..2] == Render(alphabet, lead);
    Write(alphabet, d, 2, g);
    Write(alphabet, d, 10, h);
    Write(alphabet, d, 18, k);
    text := d[..];
  }

  method EncodeIn(alphabet: string, b: seq<bv8>) returns (text: string)
    requires |alphabet| == 32 && |b| == 16
    ensures text == Render(alphabet, Digits26(b))
  {
    var lead := LeadOf(b[0]);
    var g := SymbolsOf(b[1..6]);
    var h := SymbolsOf(b[6..11]);
    var k := SymbolsOf(b[11..16]);
    text := Fill(alphabet, lead, g, h, k);
    EncodedText(alphabet, b, text, lead, g, h, k);
  }

  /** The bit-packing encoder writes the base-32 numeral of the 128-bit value. */
  method Encode(b: seq<bv8>) returns (text: string)
    requires |b| == 16
    ensures text == Text(b)
  {
    text := EncodeIn(CROCKFORD, b);
  }

  lemma EncodedText(alphabet: string, b: seq<bv8>, text: string, lead: seq<nat>, g: seq<nat>, h: seq<nat>, k: seq<nat>)
    requires |alphabet| == 32 && |b| == 16 && lead == [b[0] as nat / 32, b[0] as nat % 32]
    requires g == Symbols(Bytes(b[1..6])) && h == Symbols(Bytes(b[6..11])) && k == Symbols(Bytes(b[11..16]))
    requires text == Render(alphabet, lead) + Render(alphabet, g) + Render(alphabet, h) + Render(alphabet, k)
    ensures text == Render(alphabet, Digits26(b))
  {
    var x := Bytes(b);
    assert Bytes(b[1..6]) == x[1..6] && Bytes(b[6..11]) == x[6..11] && Bytes(b[11..16]) == x[11..16];
    DigitsAreSymbols(b);
    RenderConcat(alphabet, lead, g);
    RenderConcat(alphabet, lead + g, h);
    RenderConcat(alphabet, lead + g + h, k);
  }

  // What the text guarantees.

  ghost predicate Ascending(alphabet: string) { forall i, j :: 0 <= i < j < |alphabet| ==> alphabet[i] < alphabet[j] }

  lemma {:induction false} StepsAscend(alphabet: string, i: nat, j: nat)
    requires i < j < |alphabet| && forall k: nat :: k < |alphabet| - 1 ==> RisesAt(alphabet, k)
    ensures alphabet[i] < alphabet[j]
    decreases j
  {
    assert RisesAt(alphabet, j - 1);
    if i < j - 1 { StepsAscend(alphabet, i, j - 1); }
  }

  predicate RisesAt(alphabet: string, k: nat)
    requires k + 1 < |alphabet|
  {
    alphabet[k] < alphabet[k + 1]
  }

  lemma CrockfordAscending()
    ensures |CROCKFORD| == 32 && Ascending(CROCKFORD)
  {
    var alphabet := CROCKFORD;
    assert forall k: nat :: k < |alphabet| - 1 ==> RisesAt(alphabet, k);
    forall i, j | 0 <= i < j < |alphabet| ensures alphabet[i] < alphabet[j] { StepsAscend(alphabet, i, j); }
  }

  /** The alphabet is the ten digits and the capital letters but I, L, O and U. */
  lemma CrockfordCharacters(alphabet: string)
    requires alphabet == CROCKFORD
    ensures forall c :: c in alphabet <==> '0' <= c <= '9' || ('A' <= c <= 'Z' && c !in {'I', 'L', 'O', 'U'})
  {
    forall c | '0' <= c <= '9' ensures c in alphabet { assert alphabet[c as int - '0' as int] == c; }
    forall c | 'A' <= c <= 'H' ensures c in alphabet { assert alphabet[10 + c as int - 'A' as int] == c; }
    forall c | c in {'J', 'K', 'M', 'N'} ensures c in alphabet {
      assert alphabet[18] == 'J' && alphabet[19] == 'K' && alphabet[20] == 'M' && alphabet[21] == 'N';
    }
    forall c | 'P' <= c <= 'T' ensures c in alphabet { assert alphabet[22 + c as int - 'P' as int] == c; }
    forall c | 'V' <= c <= 'Z' ensures c in alphabet { assert alphabet[27 + c as int - 'V' as int] == c; }
  }

  /** Only Crockford characters, and never more than '7' in front. */
  lemma TextWellFormed(b: seq<bv8>)
    requires |b| == 16
    ensures |Text(b)| == 26 && (forall c :: c in Text(b) ==> c in CROCKFORD) && Text(b)[0] <= '7'
  {
    DigitsAreSymbols(b);
    CrockfordAscending();
    assert Text(b)[0] == CROCKFORD[b[0] as nat / 32] && CROCKFORD[7] == '7';
  }

  /** Go's string order, on strings of one length. */
  predicate Less(s: string, t: string)
    requires |s| == |t|
    decreases |s|
  {
    s != [] && (s[0] < t[0] || (s[0] == t[0] && Less(s[1..], t[1..])))
  }

  lemma {:induction false} RenderOrder(alphabet: string, a: seq<nat>, b: seq<nat>)
    requires |alphabet| == 32 && Ascending(alphabet) && |a| == |b| && Digits(Base32, a) && Digits(Base32, b)
    ensures Before(a, b) <==> Less(Render(alphabet, a), Render(alphabet, b))
    decreases |a|
  {
    if a != [] {
      RenderOrder(alphabet, a[1..], b[1..]);
      assert Render(alphabet, a)[1..] == Render(alphabet, a[1..]);
      assert Render(alphabet, b)[1..] == Render(alphabet, b[1..]);
      assert a[0] < b[0] ==> alphabet[a[0]] < alphabet[b[0]];
      assert b[0] < a[0] ==> alphabet[b[0]] < alphabet[a[0]];
    }
  }

  /** ULIDs sort as strings exactly as their bytes sort. */
  lemma OrderPreserving(a: seq<bv8>, b: seq<bv8>)
    requires |a| == |b| == 16
    ensures Before(Bytes(a), Bytes(b)) <==> Less(Text(a), Text(b))
  {
    AllSymbolsValue(Bytes(a));
    AllSymbolsValue(Bytes(b));
    DigitsAreSymbols(a);
    DigitsAreSymbols(b);
    BeforeIsLess(Base256, 0, Bytes(a), Bytes(b));
    BeforeIsLess(Base32, 0, Digits26(a), Digits26(b));
    CrockfordAscending();
    RenderOrder(CROCKFORD, Digits26(a), Digits26(b));
  }

  /** The position of a character of the alphabet. */
  function Position(alphabet: string, c: char): nat {
    if alphabet == "" || alphabet[0] == c then 0 else 1 + Position(alphabet[1..], c)
  }

  lemma {:induction false} PositionOf(alphabet: string, d: nat)
    requires Ascending(alphabet) && d < |alphabet|
    ensures Position(alphabet, alphabet[d]) == d
    decreases |alphabet|
  {
    if d > 0 {
      assert alphabet[0] < alphabet[d] && alphabet[1..][d - 1] == alphabet[d];
      PositionOf(alphabet[1..], d - 1);
    }
  }

  function Decode(text: string): seq<nat> {
    Numeral(Base256, Value(Base32, seq(|text|, i requires 0 <= i < |text| => Position(CROCKFORD, text[i]))), 16)
  }

  /** Decoding undoes encoding, so no two byte strings share a text. */
  lemma LeftInverse(b: seq<bv8>)
    requires |b| == 16
    ensures Decode(Text(b)) == Bytes(b)
  {
    var ds, text := Digits26(b), Text(b);
    CrockfordAscending();
    forall i | 0 <= i < 26 ensures Position(CROCKFORD, text[i]) == ds[i] { PositionOf(CROCKFORD, ds[i]); }
    assert seq(|text|, i requires 0 <= i < |text| => Position(CROCKFORD, text[i])) == ds;
    DigitsAreSymbols(b);
    AllSymbolsValue(Bytes(b));
    NumeralOfValue(Base256, Bytes(b));
  }

  lemma ByteInjective(x: bv8, y: bv8)
    requires x as nat == y as nat
    ensures x == y
  {
  }

  lemma TextInjective(a: seq<bv8>, b: seq<bv8>)
    requires |a| == |b| == 16 && Text(a) == Text(b)
    ensures a == b
  {
    LeftInverse(a);
    LeftInverse(b);
    forall i | 0 <= i < 16 ensures a[i] == b[i] {
      assert a[i] as nat == Bytes(a)[i] == Bytes(b)[i] == b[i] as nat;
      ByteInjective(a[i], b[i]);
    }
  }

  // New: a big-endian millisecond timestamp in front of the entropy.

  function Stamp(ms: bv64): seq<bv8> {
    [((ms >> 40) & 0xff) as bv8, ((ms >> 32) & 0xff) as bv8, ((ms >> 24) & 0xff) as bv8,
     ((ms >> 16) & 0xff) as bv8, ((ms >> 8) & 0xff) as bv8, (ms & 0xff) as bv8]
  }

  method New(ms: bv64, entropy: seq<bv8>) returns (text: string)
    requires |entropy| == 10
    ensures text == Text(Stamp(ms) + entropy)
  {
    text := Encode(Stamp(ms) + entropy);
  }

  /** Ids made in a later millisecond sort later, until the 48-bit clock wraps. */
  lemma TimeSortable(ms: bv64, later: bv64, e: seq<bv8>, f: seq<bv8>)
    requires ms < later < 0x1_0000_0000_0000 && |e| == |f| == 10
    ensures Less(Text(Stamp(ms) + e), Text(Stamp(later) + f))
  {
    StampBefore(ms, later);
    BeforePrefix(Bytes(Stamp(ms)), Bytes(Stamp(later)), Bytes(e), Bytes(f));
    assert Bytes(Stamp(ms) + e) == Bytes(Stamp(ms)) + Bytes(e);
    assert Bytes(Stamp(later) + f) == Bytes(Stamp(later)) + Bytes(f);
    OrderPreserving(Stamp(ms) + e, Stamp(later) + f);
  }

  lemma {:induction false} BeforePrefix(a: seq<nat>, b: seq<nat>, x: seq<nat>, y: seq<nat>)
    requires |a| == |b| && |x| == |y| && Before(a, b)
    ensures Before(a + x, b + y)
    decreases |a|
  {
    assert (a + x)[1..] == a[1..] + x && (b + y)[1..] == b[1..] + y;
    if a[0] == b[0] { BeforePrefix(a[1..], b[1..], x, y); }
  }

  /** The first byte in which two byte strings differ decides. */
  predicate BytesBefore(a: seq<bv8>, b: seq<bv8>)
    requires |a| == |b|
    decreases |a|
  {
    a != [] && (a[0] < b[0] || (a[0] == b[0] && BytesBefore(a[1..], b[1..])))
  }

  lemma ByteOrder(x: bv8, y: bv8)
    requires x < y
    ensures x as nat < y as nat
  {
  }

  lemma {:induction false} BytesBeforeIsBefore(a: seq<bv8>, b: seq<bv8>)
    requires |a| == |b| && BytesBefore(a, b)
    ensures Before(Bytes(a), Bytes(b))
    decreases |a|
  {
    assert Bytes(a)[1..] == Bytes(a[1..]) && Bytes(b)[1..] == Bytes(b[1..]);
    if a[0] < b[0] { ByteOrder(a[0], b[0]); } else { BytesBeforeIsBefore(a[1..], b[1..]); }
  }

  predicate Decides(a: bv8, b: bv8, rest: bool) { a < b || (a == b && rest) }

  lemma FirstDifference(x: bv64, y: bv64)
    requires x < y < 0x1_0000_0000_0000
    ensures Decides(((x >> 40) & 0xff) as bv8, ((y >> 40) & 0xff) as bv8,
            Decides(((x >> 32) & 0xff) as bv8, ((y >> 32) & 0xff) as bv8,
            Decides(((x >> 24) & 0xff) as bv8, ((y >> 24) & 0xff) as bv8,
            Decides(((x >> 16) & 0xff) as bv8, ((y >> 16) & 0xff) as bv8,
            Decides(((x >> 8) & 0xff) as bv8, ((y >> 8) & 0xff) as bv8,
            Decides((x & 0xff) as bv8, (y & 0xff) as bv8, false))))))
  {
  }

  lemma BytesBeforeAt(a: seq<bv8>, b: seq<bv8>, i: nat)
    requires |a| == |b| && i < |a|
    ensures BytesBefore(a[i..], b[i..]) == Decides(a[i], b[i], BytesBefore(a[i + 1..], b[i + 1..]))
  {
    assert a[i..][1..] == a[i + 1..] && b[i..][1..] == b[i + 1..];
  }

  /** Six bytes at a time. */
  lemma SixBytesBefore(a: seq<bv8>, b: seq<bv8>)
    requires |a| == |b| == 6
    requires Decides(a[0], b[0], Decides(a[1], b[1], Decides(a[2], b[2],
             Decides(a[3], b[3], Decides(a[4], b[4], Decides(a[5], b[5], false))))))
    ensures BytesBefore(a, b)
  {
    BytesBeforeAt(a, b, 5);
    BytesBeforeAt(a, b, 4);
    BytesBeforeAt(a, b, 3);
    BytesBeforeAt(a, b, 2);
    BytesBeforeAt(a, b, 1);
    BytesBeforeAt(a, b, 0);
    assert a[0..] == a && b[0..] == b;
  }

  lemma StampBefore(ms: bv64, later: bv64)
    requires ms < later < 0x1_0000_0000_0000
    ensures Before(Bytes(Stamp(ms)), Bytes(Stamp(later)))
  {
    FirstDifference(ms, later);
    SixBytesBefore(Stamp(ms), Stamp(later));
    BytesBeforeIsBefore(Stamp(ms), Stamp(later));
  }
}
