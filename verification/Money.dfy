/** Decimal money strings and integer cents (internal/budget/budget.go). */
module Money {
  import opened Base

  predicate IsDigit(c: char) { '0' <= c <= '9' }

  predicate AllDigits(s: string) { forall i :: 0 <= i < |s| ==> IsDigit(s[i]) }

  function DigitsValue(s: string): nat
    requires AllDigits(s)
  {
    if s == "" then 0
    else DigitsValue(s[..|s| - 1]) * 10 + (s[|s| - 1] as int - '0' as int)
  }

  /** strconv.ParseInt(s, 10, 64): optional sign, at least one digit, int64 range. */
  function ParseInt(s: string): Option<int> {
    var signed := s != "" && (s[0] == '+' || s[0] == '-');
    var digits := if signed then s[1..] else s;
    if digits == "" || !AllDigits(digits) then None
    else
      var n: int := DigitsValue(digits);
      if signed && s[0] == '-' then (if n <= TWO_63 then Some(-n) else None)
      else if n < TWO_63 then Some(n) else None
  }

  /** Position of the first c, or |s| when there is none (strings.Cut). */
  function IndexOf(s: string, c: char): (i: nat)
    ensures i <= |s|
    ensures i < |s| ==> s[i] == c
    ensures forall j :: 0 <= j < i ==> s[j] != c
  {
    if s == "" || s[0] == c then 0 else 1 + IndexOf(s[1..], c)
  }

  function IntPart(s: string): string { s[..IndexOf(s, '.')] }

  function FracPart(s: string): string {
    if IndexOf(s, '.') == |s| then "" else s[IndexOf(s, '.') + 1..]
  }

  /** Cents of a decimal string; None where the Go function reports ok == false. */
  function ToCents(s: string): Option<int> {
    if s == "" || s[0] == '-' then None
    else
      match ParseInt(IntPart(s))
      case None => None
      case Some(whole) =>
        var cents := Wrap64(whole * 100);
        if IndexOf(s, '.') == |s| then Some(cents)
        else
          var frac := FracPart(s);
          if |frac| == 0 || |frac| > 2 then None
          else
            match ParseInt(if |frac| == 1 then frac + "0" else frac)
            case None => None
            case Some(f) => Some(Wrap64(cents + f))
  }

  /** A plain non-negative decimal: digits, optionally a point and more digits. */
  predicate PlainDecimal(s: string) {
    && IntPart(s) != "" && AllDigits(IntPart(s))
    && AllDigits(FracPart(s))
    && (IndexOf(s, '.') < |s| ==> FracPart(s) != "")
  }

  function Pow10(n: nat): (p: nat)
    ensures p > 0
  {
    if n == 0 then 1 else 10 * Pow10(n - 1)
  }

  /** The exact rational a plain decimal denotes. */
  function RatValue(s: string): real
    requires PlainDecimal(s)
  {
    DigitsValue(IntPart(s)) as real + DigitsValue(FracPart(s)) as real / Pow10(|FracPart(s)|) as real
  }

  lemma DigitsAppendZero(s: string)
    requires AllDigits(s)
    ensures AllDigits(s + "0") && DigitsValue(s + "0") == 10 * DigitsValue(s)
  {
    assert (s + "0")[..|s|] == s;
  }

  lemma DigitsShort(s: string)
    requires AllDigits(s) && |s| <= 2
    ensures DigitsValue(s) < 100
  {
    if |s| == 2 { assert DigitsValue(s[..1]) == DigitsValue(s[..1][..0]) * 10 + (s[0] as int - '0' as int); }
  }

  /** 100 times the rational value of a two-place decimal, as an integer. */
  function ExactCents(s: string): nat
    requires PlainDecimal(s) && |FracPart(s)| <= 2
  {
    var f := FracPart(s);
    DigitsValue(IntPart(s)) * 100 + (if |f| == 1 then 10 * DigitsValue(f) else DigitsValue(f))
  }

  lemma ExactCentsIsRational(s: string)
    requires PlainDecimal(s) && |FracPart(s)| <= 2
    ensures ExactCents(s) as real == 100.0 * RatValue(s)
  {
    assert Pow10(0) == 1 && Pow10(1) == 10 && Pow10(2) == 100;
  }

  lemma ToCentsWraps(s: string)
    requires PlainDecimal(s) && |FracPart(s)| <= 2
    ensures ToCents(s) == if DigitsValue(IntPart(s)) < TWO_63 then Some(Wrap64(ExactCents(s))) else None
  {
    var whole, f := DigitsValue(IntPart(s)), FracPart(s);
    assert IsDigit(IntPart(s)[0]) && IntPart(s)[0] == s[0];
    if IndexOf(s, '.') < |s| {
      assert IsDigit(f[0]);
      DigitsAppendZero(f);
      var padded := if |f| == 1 then f + "0" else f;
      DigitsShort(padded);
      WrapSum(whole * 100, DigitsValue(padded));
    }
  }

  /** Money is exact precisely when the cents fit an int64: a two-place decimal is
      rejected iff its whole part does not parse, and otherwise its cents are 100
      times its rational value iff that product is below 2^63. */
  lemma ToCentsExactness(s: string)
    requires PlainDecimal(s) && |FracPart(s)| <= 2
    ensures ToCents(s).Some? <==> DigitsValue(IntPart(s)) < TWO_63
    ensures ToCents(s).Some? ==>
              (ToCents(s).value as real == 100.0 * RatValue(s) <==> 100.0 * RatValue(s) < TWO_63 as real)
  {
    ToCentsWraps(s);
    ExactCentsIsRational(s);
    var e := ExactCents(s);
    assert e < TWO_63 <==> e as real < TWO_63 as real;
  }

  /** More than two fraction digits, or a point with none, is never accepted. */
  lemma ToCentsRejectsFraction(s: string)
    requires IndexOf(s, '.') < |s| && (|FracPart(s)| == 0 || |FracPart(s)| > 2)
    ensures ToCents(s) == None
  {
  }

  lemma CentsInRange(s: string)
    requires PlainDecimal(s) && |FracPart(s)| <= 2 && 100.0 * RatValue(s) < TWO_63 as real
    ensures ToCents(s).Some? && ToCents(s).value as real == 100.0 * RatValue(s)
  {
    ToCentsWraps(s);
    ExactCentsIsRational(s);
    assert ExactCents(s) < TWO_63;
  }

  /** Comparing cents is comparing the rationals, so the int64 counter and the
      big.Rat limit rule agree on every pair of amounts in range. */
  lemma CentsCompareAsRationals(a: string, b: string)
    requires PlainDecimal(a) && |FracPart(a)| <= 2 && 100.0 * RatValue(a) < TWO_63 as real
    requires PlainDecimal(b) && |FracPart(b)| <= 2 && 100.0 * RatValue(b) < TWO_63 as real
    ensures ToCents(a).Some? && ToCents(b).Some?
    ensures ToCents(a).value <= ToCents(b).value <==> RatValue(a) <= RatValue(b)
  {
    CentsInRange(a);
    CentsInRange(b);
  }

  predicate Unsigned(s: string) { '+' !in s && '-' !in s }

  lemma ParsedIsDigitsIff(s: string)
    requires ParseInt(s).Some?
    ensures s != "" && (AllDigits(s) <==> Unsigned(s))
  {
    if AllDigits(s) { assert forall c :: c in s ==> IsDigit(c); }
  }

  lemma UnsignedParts(s: string)
    ensures Unsigned(s) <==> Unsigned(IntPart(s)) && Unsigned(FracPart(s))
  {
    if IndexOf(s, '.') < |s| { assert s == IntPart(s) + "." + FracPart(s); } else { assert s == IntPart(s); }
  }

  /** What the parser accepts beyond the plain decimals: exactly strings with a sign in
      them, in front of the whole part or of the fraction. */
  lemma AcceptedPlainIff(s: string)
    requires ToCents(s).Some?
    ensures PlainDecimal(s) <==> '+' !in s && '-' !in s
    ensures |FracPart(s)| <= 2
  {
    var f := FracPart(s);
    UnsignedParts(s);
    ParsedIsDigitsIff(IntPart(s));
    if IndexOf(s, '.') < |s| {
      ParsedIsDigitsIff(if |f| == 1 then f + "0" else f);
      assert |f| == 1 ==> (AllDigits(f) <==> AllDigits(f + "0")) && (Unsigned(f) <==> Unsigned(f + "0"));
    }
  }

  /** The cents of such a string are not what its digits say. */
  lemma SignedFractionIsAccepted()
    ensures ToCents("1.-5") == Some(95)
  {
    var s := "1.-5";
    assert IndexOf(s[1..], '.') == 0;
    assert IndexOf(s, '.') == 1;
    assert s[..1] == "1" && "1"[..0] == "";
    assert FracPart(s) == "-5" && "-5"[1..] == "5" && "5"[..0] == "";
    assert DigitsValue("1") == 1 && DigitsValue("5") == 5;
    assert ParseInt("1") == Some(1) && ParseInt("-5") == Some(-5);
  }

  /** The amounts the authorize endpoint lets through: an optional minus, a whole part
      without leading zeros, and an optional point with at least one digit. */
  predicate AmountPattern(s: string) {
    var t := if s != "" && s[0] == '-' then s[1..] else s;
    PlainDecimal(t) && (IntPart(t)[0] == '0' ==> |IntPart(t)| == 1)
  }

  /** So for requests the exactness result is the whole story: an admitted amount that
      toCents takes is a plain decimal with at most two places. */
  lemma AdmittedIsPlain(s: string)
    requires AmountPattern(s)
    ensures ToCents(s).Some? ==> PlainDecimal(s) && |FracPart(s)| <= 2
  {
  }

  lemma DigitsSnoc(s: string, c: char)
    requires AllDigits(s) && IsDigit(c)
    ensures AllDigits(s + [c]) && DigitsValue(s + [c]) == DigitsValue(s) * 10 + (c as int - '0' as int)
  {
    assert (s + [c])[..|s|] == s;
  }

  lemma ThreeMore(s: string, a: char, b: char, c: char)
    requires AllDigits(s) && IsDigit(a) && IsDigit(b) && IsDigit(c)
    ensures AllDigits(s + [a, b, c])
    ensures DigitsValue(s + [a, b, c]) ==
            DigitsValue(s) * 1000 + (a as int - '0' as int) * 100 + (b as int - '0' as int) * 10 + (c as int - '0' as int)
  {
    DigitsSnoc(s, a);
    DigitsSnoc(s + [a], b);
    DigitsSnoc(s + [a] + [b], c);
    assert s + [a, b, c] == s + [a] + [b] + [c];
  }

  lemma TwoDigits(a: char, b: char)
    requires IsDigit(a) && IsDigit(b)
    ensures AllDigits([a, b]) && DigitsValue([a, b]) == (a as int - '0' as int) * 10 + (b as int - '0' as int)
  {
    DigitsSnoc("", a);
    DigitsSnoc([a], b);
    assert "" + [a] == [a] && [a] + [b] == [a, b];
  }

  lemma Parts(whole: string, frac: string, s: string)
    requires AllDigits(whole) && s == whole + "." + frac
    ensures IndexOf(s, '.') == |whole| < |s| && IntPart(s) == whole && FracPart(s) == frac
  {
    IndexOfPoint(whole, frac);
  }

  lemma PlainParts(whole: string, frac: string, s: string)
    requires whole != "" && AllDigits(whole) && AllDigits(frac) && |frac| == 2 && s == whole + "." + frac
    ensures PlainDecimal(s) && |FracPart(s)| == 2 && IntPart(s) == whole
    ensures ExactCents(s) == DigitsValue(whole) * 100 + DigitsValue(frac)
  {
    Parts(whole, frac, s);
  }

  lemma PatternOfParts(whole: string, frac: string, s: string)
    requires whole != "" && AllDigits(whole) && AllDigits(frac) && |frac| == 2 && s == whole + "." + frac
    requires whole[0] != '0'
    ensures AmountPattern(s)
  {
    PlainParts(whole, frac, s);
    assert IsDigit(whole[0]) && s[0] == whole[0] != '-';
  }

  lemma LargeWhole(w: string)
    requires w == "92" + "233" + "720" + "368" + "547" + "758"
    ensures AllDigits(w) && DigitsValue(w) == 92_233_720_368_547_758
  {
    TwoDigits('9', '2');
    ThreeMore("92", '2', '3', '3');
    ThreeMore("92" + "233", '7', '2', '0');
    ThreeMore("92" + "233" + "720", '3', '6', '8');
    ThreeMore("92" + "233" + "720" + "368", '5', '4', '7');
    ThreeMore("92" + "233" + "720" + "368" + "547", '7', '5', '8');
  }

  lemma LargeParts(whole: string, frac: string, s: string)
    requires whole != "" && AllDigits(whole) && whole[0] == '9' && DigitsValue(whole) == 92_233_720_368_547_758
    requires AllDigits(frac) && |frac| == 2 && DigitsValue(frac) == 8 && s == whole + "." + frac
    ensures AmountPattern(s) && ToCents(s) == Some(-TWO_63)
  {
    PlainParts(whole, frac, s);
    PatternOfParts(whole, frac, s);
    ToCentsWraps(s);
  }

  /** 2^63 cents, an admitted amount, is read as -2^63 cents. */
  lemma LargeAmountTurnsNegative(s: string)
    requires s == "92233720368547758.08"
    ensures AmountPattern(s) && ToCents(s) == Some(-TWO_63)
  {
    var whole := "92" + "233" + "720" + "368" + "547" + "758";
    LargeWhole(whole);
    TwoDigits('0', '8');
    LargeParts(whole, "08", s);
  }

  lemma WholeNumber(w: string)
    requires w != "" && AllDigits(w)
    ensures PlainDecimal(w) && IntPart(w) == w && FracPart(w) == "" && ExactCents(w) == DigitsValue(w) * 100
  {
    assert IndexOf(w, '.') == |w| && w[..|w|] == w;
  }

  lemma WrappedWhole(w: string)
    requires w == "184" + "467" + "440" + "737" + "095" + "515"
    ensures AllDigits(w) && DigitsValue(w) == 184_467_440_737_095_515
  {
    ThreeMore("", '1', '8', '4');
    assert "" + ['1', '8', '4'] == "184";
    ThreeMore("184", '4', '6', '7');
    ThreeMore("184" + "467", '4', '4', '0');
    ThreeMore("184" + "467" + "440", '7', '3', '7');
    ThreeMore("184" + "467" + "440" + "737", '0', '9', '5');
    ThreeMore("184" + "467" + "440" + "737" + "095", '5', '1', '5');
  }

  lemma WholeWraps(w: string)
    requires w != "" && AllDigits(w) && w[0] == '1' && DigitsValue(w) == 184_467_440_737_095_515
    ensures AmountPattern(w) && ToCents(w) == Some(-116)
  {
    WholeNumber(w);
    ToCentsWraps(w);
  }

  /** Just below 2^64 cents, an admitted amount, is read as -116 cents. */
  lemma LargeAmountTurnsSmall(s: string)
    requires s == "184467440737095515"
    ensures AmountPattern(s) && ToCents(s) == Some(-116)
  {
    var w := "184" + "467" + "440" + "737" + "095" + "515";
    WrappedWhole(w);
    assert s == w;
    WholeWraps(w);
  }

  function FormatNat(n: nat): (s: string)
    ensures s != "" && AllDigits(s)
  {
    var last := [('0' as int + n % 10) as char];
    if n < 10 then last else FormatNat(n / 10) + last
  }

  /** strconv.FormatInt(n, 10). */
  function FormatInt(n: int): string {
    if n < 0 then "-" + FormatNat(-n) else FormatNat(n)
  }

  /** Go's truncating division and remainder by 100. */
  function Quot100(c: int): int { if c < 0 then -(-c / 100) else c / 100 }
  function Rem100(c: int): int { if c < 0 then -(-c % 100) else c % 100 }

  function Pad2(n: int): string { if n < 10 then "0" + FormatInt(n) else FormatInt(n) }

  function CentsToStr(c: int): string {
    FormatInt(Quot100(c)) + "." + Pad2(Rem100(c))
  }

  lemma {:induction false} FormatNatValue(n: nat)
    ensures DigitsValue(FormatNat(n)) == n
  {
    var s := FormatNat(n);
    if n < 10 {
      assert s[..0] == "";
    } else {
      FormatNatValue(n / 10);
      assert s[..|s| - 1] == FormatNat(n / 10);
    }
  }

  lemma CentsText(c: nat)
    ensures IntPart(CentsToStr(c)) == FormatNat(c / 100) && FracPart(CentsToStr(c)) == Pad2(c % 100)
    ensures IndexOf(CentsToStr(c), '.') < |CentsToStr(c)|
  {
    var whole, frac := FormatNat(c / 100), Pad2(c % 100);
    IndexOfPoint(whole, frac);
    assert CentsToStr(c) == whole + "." + frac;
  }

  lemma CentsDigits(c: nat)
    ensures DigitsValue(FormatNat(c / 100)) * 100 + DigitsValue(FormatNat(c % 100)) == c
  {
    FormatNatValue(c / 100);
    FormatNatValue(c % 100);
  }

  /** Every representable amount survives the trip through its printed form. */
  lemma CentsRoundTrip(c: int)
    requires 0 <= c < TWO_63
    ensures ToCents(CentsToStr(c)) == Some(c)
  {
    var s := CentsToStr(c);
    CentsText(c);
    CentsDigits(c);
    FormatNatValue(c % 100);
    PadTwoDigits(c % 100);
    assert ExactCents(s) == c;
    ToCentsWraps(s);
  }

  lemma PadTwoDigits(n: nat)
    requires n < 100
    ensures AllDigits(Pad2(n)) && |Pad2(n)| == 2 && DigitsValue(Pad2(n)) == n
  {
    FormatNatValue(n);
    var d := [('0' as int + n % 10) as char];
    if n < 10 {
      assert Pad2(n) == "0" + d;
      assert Pad2(n)[..1] == "0" && "0"[..0] == "";
      assert DigitsValue("0") == 0;
      assert d[..0] == "";
    } else {
      assert |FormatNat(n / 10)| == 1;
      assert Pad2(n) == FormatNat(n);
    }
  }

  lemma IndexOfPoint(whole: string, frac: string)
    requires AllDigits(whole)
    ensures IndexOf(whole + "." + frac, '.') == |whole|
  {
    var s := whole + "." + frac;
    assert s[|whole|] == '.';
    assert forall j :: 0 <= j < |whole| ==> s[j] == whole[j] && IsDigit(whole[j]);
  }
}
