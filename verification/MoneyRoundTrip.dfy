/** Printing base units and parsing the text back, which the checkout page does
    with every payable amount. */
module MoneyRoundTrip {
  import opened Basics
  import opened Money
  import opened MoneyExactness

  predicate AllDigits(s: string) {
    forall i :: 0 <= i < |s| ==> IsDigit(s[i])
  }

  // --------------------------------------------------------- digit strings

  lemma DigitsValueSnoc(s: string, c: char)
    requires IsDigit(c)
    ensures DigitsValue(s + [c]) == 10 * DigitsValue(s) + (c as int - '0' as int)
  {
    assert (s + [c])[..|s|] == s;
  }

  lemma TenTimes(v: nat, p: nat)
    ensures 10 * (v * p) == v * (10 * p)
  {
  }

  lemma {:induction false} DigitsValueConcat(a: string, b: string)
    requires AllDigits(a) && AllDigits(b)
    ensures DigitsValue(a + b) == DigitsValue(a) * Pow10(|b|) + DigitsValue(b)
  {
    if b == "" {
      assert a + b == a;
    } else {
      var c, last := b[..|b| - 1], b[|b| - 1];
      assert b == c + [last] && a + b == (a + c) + [last];
      DigitsValueConcat(a, c);
      DigitsValueSnoc(c, last);
      DigitsValueSnoc(a + c, last);
      TenTimes(DigitsValue(a), Pow10(|c|));
    }
  }

  function LastDigit(n: nat): (c: char)
    ensures IsDigit(c) && c as int == n % 10 + '0' as int
  {
    (n % 10 + '0' as int) as char
  }

  lemma {:induction false} SpellRoundTrip(n: nat)
    ensures AllDigits(Spell(n)) && |Spell(n)| == DigitCount(n)
    ensures DigitsValue(Spell(n)) == n
    ensures Spell(n)[|Spell(n)| - 1] == LastDigit(n)
  {
    if n < 10 {
      assert Spell(n) == "" + [LastDigit(n)];
      DigitsValueSnoc("", LastDigit(n));
    } else {
      SpellRoundTrip(n / 10);
      assert Spell(n) == Spell(n / 10) + [LastDigit(n)];
      DigitsValueSnoc(Spell(n / 10), LastDigit(n));
    }
  }

  lemma {:induction false} ZerosValue(n: nat)
    ensures AllDigits(Zeros(n)) && |Zeros(n)| == n && DigitsValue(Zeros(n)) == 0
  {
    if n != 0 {
      ZerosValue(n - 1);
      assert Zeros(n)[..n - 1] == Zeros(n - 1);
    }
  }

  lemma {:induction false} SpanOfDigits(a: string, b: string)
    requires AllDigits(a) && (b == "" || !IsDigit(b[0]))
    ensures Span(a + b) == |a|
  {
    if a == "" {
      assert a + b == b;
    } else {
      assert (a + b)[1..] == a[1..] + b;
      SpanOfDigits(a[1..], b);
    }
  }

  lemma {:induction false} NothingToDrop(s: string)
    requires '_' !in s
    ensures DropUnderscores(s) == s
  {
    if s != "" {
      NothingToDrop(s[1..]);
    }
  }

  /** Text that is only digits and at most one dot goes through the clean-up and
      the sign check unchanged. */
  lemma PlainTextIsBody(s: string)
    requires s != "" && (forall i :: 0 <= i < |s| ==> IsDigit(s[i]) || s[i] == '.')
    ensures ParseNumber(false, s).Some? ==> ParseDecimal(s) == ParseNumber(false, s)
  {
    assert TrimLeft(s) == s;
    assert TrimRight(s) == s;
    NothingToDrop(s);
  }

  lemma ParseWhole(a: string)
    requires a != "" && AllDigits(a)
    ensures ParseDecimal(a) == Some(Finite(false, DigitsValue(a), 0))
  {
    assert a + "" == a;
    SpanOfDigits(a, "");
    var rest := a[|a|..];
    assert rest == "" && a[..|a|] + rest[..0] == a;
    PlainTextIsBody(a);
  }

  lemma DottedParts(a: string, b: string)
    requires AllDigits(a) && AllDigits(b)
    ensures var s := a + "." + b;
            && Span(s) == |a| && Span(b) == |b|
            && s[|a|] == '.' && s[|a| + 1..] == b && s[..|a|] == a
  {
    hide Span;
    assert a + "." + b == a + ("." + b);
    SpanOfDigits(a, "." + b);
    assert b + "" == b;
    SpanOfDigits(b, "");
  }

  lemma NumberDotted(a: string, b: string)
    requires a != "" && AllDigits(a) && AllDigits(b)
    ensures ParseNumber(false, a + "." + b) == Some(Finite(false, DigitsValue(a + b), -|b|))
  {
    hide DigitsValue, Span;
    DottedParts(a, b);
    assert b[|b|..] == "" && b[..|b|] == b;
    assert ParseExponent("") == Some(0);
  }

  lemma ParseDotted(a: string, b: string)
    requires a != "" && AllDigits(a) && AllDigits(b)
    ensures ParseDecimal(a + "." + b) == Some(Finite(false, DigitsValue(a + b), -|b|))
  {
    hide ParseNumber, ParseDecimal, DigitsValue;
    NumberDotted(a, b);
    PlainTextIsBody(a + "." + b);
  }

  // ------------------------------------------------------- plain notation

  lemma WholeValue(digits: string, e: nat)
    requires AllDigits(digits)
    ensures DigitsValue(digits + Zeros(e)) == DigitsValue(digits) * Pow10(e)
    ensures AllDigits(digits + Zeros(e))
  {
    ZerosValue(e);
    DigitsValueConcat(digits, Zeros(e));
  }

  lemma ZeroTimes(p: nat)
    ensures 0 * p == 0
  {
  }

  lemma {:induction false} ZerosCommute(n: nat)
    ensures Zeros(n) + "0" == "0" + Zeros(n)
  {
    if n != 0 {
      ZerosCommute(n - 1);
    }
  }

  lemma PaddedValue(digits: string, pad: nat)
    requires AllDigits(digits)
    ensures var b := Zeros(pad) + digits;
            && AllDigits(b) && |b| == pad + |digits|
            && DigitsValue("0" + b) == DigitsValue(digits)
  {
    hide DigitsValue, Pow10;
    ZerosValue(pad);
    ZerosValue(pad + 1);
    ZerosCommute(pad);
    var padding := Zeros(pad + 1);
    DigitsValueConcat(padding, digits);
    ZeroTimes(Pow10(|digits|));
    assert "0" + (Zeros(pad) + digits) == ("0" + Zeros(pad)) + digits;
  }

  ghost predicate SplitsAs(s: string, a: string, b: string, value: nat) {
    && s == a + "." + b && a != "" && AllDigits(a) && AllDigits(b)
    && DigitsValue(a + b) == value
  }

  lemma PlainSplits(digits: string, e: int) returns (a: string, b: string)
    requires digits != "" && AllDigits(digits) && e < 0
    ensures SplitsAs(Plain(digits, e), a, b, DigitsValue(digits)) && |b| == -e
  {
    hide DigitsValue;
    if |digits| <= -e {
      a, b := "0", Zeros(-e - |digits|) + digits;
      PaddedValue(digits, -e - |digits|);
    } else {
      a, b := digits[..|digits| + e], digits[|digits| + e..];
      assert a + b == digits;
    }
  }

  function PlainNumber(digits: string, e: int): Decimal {
    if 0 <= e then Finite(false, DigitsValue(digits) * Pow10(e), 0) else Finite(false, DigitsValue(digits), e)
  }

  /** Positional notation reads back as the same number. */
  lemma PlainParses(digits: string, e: int)
    requires digits != "" && AllDigits(digits)
    ensures ParseDecimal(Plain(digits, e)) == Some(PlainNumber(digits, e))
  {
    hide DigitsValue, ParseDecimal, Pow10;
    var s := Plain(digits, e);
    if 0 <= e {
      WholeValue(digits, e);
      ParseWhole(s);
    } else {
      var a, b := PlainSplits(digits, e);
      ParseDotted(a, b);
    }
  }

  lemma {:induction false} NormalizeKeepsValue(c: nat, e: int)
    requires 0 < c
    ensures var (d, f) := Normalize(c, e);
            && 0 < d && d % 10 != 0
            && e <= f && d * Pow10(f - e) == c
  {
    if c % 10 == 0 {
      NormalizeKeepsValue(c / 10, e + 1);
      var (d, f) := Normalize(c, e);
      assert 10 * (d * Pow10(f - e - 1)) == d * (10 * Pow10(f - e - 1));
    }
  }

  /** What print writes is positional: digits with at most one dot, something on
      both sides of it, and never a zero at the end of a fraction. */
  predicate PlainNotation(s: string) {
    || (s != "" && AllDigits(s))
    || exists k :: 0 < k < |s| - 1 && s[k] == '.' && AllDigits(s[..k]) && AllDigits(s[k + 1..])
                   && s[|s| - 1] != '0'
  }

  lemma DottedShape(a: string, b: string)
    requires a != "" && b != "" && AllDigits(a) && AllDigits(b) && b[|b| - 1] != '0'
    ensures PlainNotation(a + "." + b)
  {
    var s := a + "." + b;
    assert s[..|a|] == a && s[|a|] == '.' && s[|a| + 1..] == b;
    assert s[|s| - 1] == b[|b| - 1];
  }

  lemma PlainShape(digits: string, e: int)
    requires digits != "" && AllDigits(digits) && digits[|digits| - 1] != '0'
    ensures PlainNotation(Plain(digits, e))
  {
    if 0 <= e {
      ZerosValue(e);
    } else if |digits| <= -e {
      ZerosValue(-e - |digits|);
      DottedShape("0", Zeros(-e - |digits|) + digits);
    } else {
      DottedShape(digits[..|digits| + e], digits[|digits| + e..]);
    }
  }

  // ----------------------------------------------------------- round trip

  lemma QuotientBounds(n: nat, drop: nat)
    requires 0 < n && drop < DigitCount(n)
    ensures 0 < Quotient(n, Pow10(drop)) < Pow10(DigitCount(n) - drop)
  {
    DigitBounds(n);
    PowMonotone(drop, DigitCount(n) - 1);
    PowAdd(DigitCount(n) - drop, drop);
    QuotientRange(n, Pow10(drop), Pow10(DigitCount(n) - drop));
  }

  lemma RoundedRange(p: nat, drop: nat)
    requires 0 < p && drop < DigitCount(p)
    ensures 0 < RoundHalfEven(p, drop) <= Pow10(DigitCount(p) - drop)
    ensures drop == 0 ==> RoundHalfEven(p, drop) == p
  {
    hide Pow10, DigitCount;
    QuotientBounds(p, drop);
    if drop == 0 {
      assert p * Pow10(0) == p by {
        PowZeroIsOne();
      }
      RoundExact(p, 0);
    }
  }

  lemma CarryDigits(rounded: nat)
    requires 0 < rounded <= Pow10(PRECISION) && DigitCount(rounded) > PRECISION
    ensures 0 < rounded / 10 && DigitCount(rounded / 10) <= PRECISION
  {
    PowMonotone(PRECISION, PRECISION + 1);
    DigitCountFromBounds(rounded, PRECISION + 1);
  }

  lemma FixedShape(p: nat, e: int)
    requires 0 < p && ETINY <= e && Fix(p, e).Fixed?
    ensures var drop := Max(0, DigitCount(p) - PRECISION);
            && drop == Excess(p, e)
            && 0 < Fix(p, e).coefficient
            && DigitCount(Fix(p, e).coefficient) <= PRECISION
            && (Fix(p, e).exponent == e + drop || Fix(p, e).exponent == e + drop + 1)
            && (drop == 0 ==> Fix(p, e) == Fixed(p, e))
  {
    hide Pow10, DigitCount, RoundHalfEven;
    DigitBounds(p);
    var drop: nat := Excess(p, e);
    RoundedRange(p, drop);
    var rounded := RoundHalfEven(p, drop);
    if DigitCount(rounded) > PRECISION {
      assert drop != 0;
      CarryDigits(rounded);
    }
  }

  /** What the printed text of n base units parses to: n with the digits that
      the context could not hold rounded away. */
  function Reread(n: nat): nat
    requires Fix(n, -6).Fixed?
  {
    var f := Fix(n, -6);
    f.coefficient * Pow10(Max(0, f.exponent + 6))
  }

  /** The value of a normalised coefficient is what the parser makes of its
      positional notation. */
  lemma NormalisedIsExact(c: nat, f: int, v: nat)
    requires 0 < c && DigitCount(c) <= PRECISION
    requires -6 <= f && DigitCount(c) + f + 6 <= EMAX + 1
    requires v == c * Pow10(f + 6)
    ensures ToBaseUnits(if 0 <= f then Finite(false, c * Pow10(f), 0) else Finite(false, c, f)) == Units(v)
  {
    PowSix();
    if 0 <= f {
      PowAdd(f, 6);
      MulAssoc(c, Pow10(f), Pow10(6));
      TrailingZerosSurvive(c, f + 6, 0);
      DigitCountShift(c, f);
      RoundedExactIff(c * Pow10(f), 0);
      assert Denotes(c * Pow10(f) * SCALE, 0, v);
    } else {
      TrailingZerosSurvive(c, 6, f);
      RoundedExactIff(c, f);
      ShiftAcross(c, f + 6, -f, v);
      assert Denotes(c * SCALE, f, v);
    }
  }

  lemma RereadNormalised(q: nat, x: int)
    requires 0 < q && -6 <= x
    ensures var (c, f) := Normalize(q, x);
            && 0 < c && c % 10 != 0 && x <= f
            && q * Pow10(x + 6) == c * Pow10(f + 6)
            && DigitCount(q) == DigitCount(c) + (f - x)
  {
    NormalizeKeepsValue(q, x);
    var (c, f) := Normalize(q, x);
    DigitCountShift(c, f - x);
    PowAdd(f - x, x + 6);
    MulAssoc(c, Pow10(f - x), Pow10(x + 6));
  }

  lemma FixInRange(n: nat)
    requires 0 < n && DigitCount(n) <= EMAX
    ensures Fix(n, -6).Fixed?
  {
  }

  lemma PrintIsPlain(n: nat) returns (c: nat, f: int)
    requires 0 < n && DigitCount(n) <= EMAX
    ensures 0 < c && DigitCount(c) <= PRECISION && c % 10 != 0
    ensures -6 <= f && DigitCount(c) + f + 6 <= EMAX + 1
    ensures Fix(n, -6).Fixed? && Reread(n) == c * Pow10(f + 6)
    ensures Print(n) == Plain(Spell(c), f)
  {
    FixInRange(n);
    FixedShape(n, -6);
    var q, x := Fix(n, -6).coefficient, Fix(n, -6).exponent;
    RereadNormalised(q, x);
    c, f := Normalize(q, x).0, Normalize(q, x).1;
  }

  lemma PlainAmount(c: nat, f: int, v: nat)
    requires 0 < c && DigitCount(c) <= PRECISION
    requires -6 <= f && DigitCount(c) + f + 6 <= EMAX + 1
    requires v == c * Pow10(f + 6)
    ensures ParseAmount(Plain(Spell(c), f)) == Units(v)
  {
    var digits := Spell(c);
    SpellRoundTrip(c);
    NormalisedIsExact(c, f, v);
    PlainParses(digits, f);
    if 0 <= f {
      DigitCountShift(c, f);
    }
  }

  lemma PrintThenParse(n: nat)
    requires 0 < n && DigitCount(n) <= EMAX
    ensures Fix(n, -6).Fixed? && ParseAmount(Print(n)) == Units(Reread(n))
    ensures PlainNotation(Print(n))
  {
    hide Pow10, DigitCount, Spell, ParseDecimal, ToBaseUnits, Plain, Normalize, Fix;
    var c, f := PrintIsPlain(n);
    PlainAmount(c, f, Reread(n));
    SpellRoundTrip(c);
    PlainShape(Spell(c), f);
  }

  lemma RereadIff(n: nat)
    requires 0 < n && Fix(n, -6).Fixed?
    ensures Reread(n) == n <==> !LosesDigits(n, -6)
  {
    FixedShape(n, -6);
    FixKeepsOrRounds(n, -6);
    var drop: nat := Excess(n, -6);
    var q, x := Fix(n, -6).coefficient, Fix(n, -6).exponent;
    if !LosesDigits(n, -6) {
      DivisibleIsMultiple(n, Pow10(drop));
    } else {
      PowAdd(x + 6 - drop, drop);
      MulAssoc(q, Pow10(x + 6 - drop), Pow10(drop));
      DivisionOfMultiple(q * Pow10(x + 6 - drop), Pow10(drop));
    }
  }

  /** The round trip is exact precisely for the amounts whose digits all fit the
      context: every amount of at most 28 significant digits. */
  lemma RoundTripIff(n: nat)
    requires 0 < n && DigitCount(n) <= EMAX
    ensures ParseAmount(Print(n)) == Units(n) <==> !LosesDigits(n, -6)
  {
    PrintThenParse(n);
    RereadIff(n);
  }

  /** Every amount below 10^28 base units survives printing and parsing. */
  lemma RoundTrip(n: nat)
    requires 0 < n < Pow10(PRECISION)
    ensures ParseAmount(Print(n)) == Units(n)
    ensures PlainNotation(Print(n))
  {
    DigitCountFromBounds(n, PRECISION);
    PrintThenParse(n);
    RoundTripIff(n);
  }

  lemma RoundPastBound()
    ensures RoundHalfEven(Pow10(28) + 1, 1) == Pow10(27)
  {
    LiteralPowers();
    assert Pow10(1) == 10;
  }

  lemma PowOne()
    ensures Pow10(1) == 10
  {
  }

  lemma RereadPastBound()
    ensures DigitCount(Pow10(PRECISION) + 1) == 29
    ensures Fix(Pow10(PRECISION) + 1, -6).Fixed? && Reread(Pow10(PRECISION) + 1) == Pow10(PRECISION)
  {
    LiteralPowers();
    DigitCountExact(Pow10(28) + 1, 29);
    DigitCountExact(Pow10(27), 28);
    RoundPastBound();
    PowOne();
    hide Pow10, DigitCount, RoundHalfEven;
    assert Fix(Pow10(28) + 1, -6) == Fixed(Pow10(27), -5);
  }

  /** The bound is sharp: the next amount is printed as if it were 10^28. */
  lemma RoundTripBoundIsSharp()
    ensures ParseAmount(Print(Pow10(PRECISION) + 1)) == Units(Pow10(PRECISION))
  {
    RereadPastBound();
    PrintThenParse(Pow10(PRECISION) + 1);
  }
}
