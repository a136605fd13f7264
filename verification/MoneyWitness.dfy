/** Single texts of amounts, as the parser reads them and as they are printed: first
    those on which it is not exact. */
module MoneyWitness {
  import opened Basics
  import opened Money
  import opened MoneyExactness
  import opened MoneyRoundTrip
  import opened MoneyTexts

  lemma {:induction false} ZerosAt(n: nat, i: nat)
    requires i < n
    ensures |Zeros(n)| == n && Zeros(n)[i] == '0'
  {
    ZerosValue(n);
    ZerosValue(n - 1);
    if i < n - 1 {
      ZerosAt(n - 1, i);
    }
  }

  lemma OneAfterZeros(n: nat)
    ensures var b := Zeros(n) + "1";
            AllDigits(b) && |b| == n + 1 && DigitsValue("1" + b) == Pow10(n + 1) + 1
  {
    ZerosValue(n);
    var b := Zeros(n) + "1";
    DigitsValueConcat(Zeros(n), "1");
    DigitsValueConcat("1", b);
    assert DigitsValue("1") == 1 by {
      assert "1"[..0] == "";
    }
  }

  /** One digit too many: an amount with 28 decimals is accepted, as exactly one
      whole unit of currency. */
  lemma TwentyNineDigitText()
    ensures ParseAmount("1.0000000000000000000000000001") == Units(1_000_000)
  {
    hide Pow10, DigitCount, ParseDecimal, ToBaseUnits, DigitsValue, Zeros;
    var b := Zeros(27) + "1";
    OneAfterZeros(27);
    forall i | 0 <= i < 27
      ensures Zeros(27)[i] == '0'
    {
      ZerosAt(27, i);
    }
    assert "1.0000000000000000000000000001" == "1" + "." + b;
    ParseDotted("1", b);
    TwentyNineDigitsWronglyAccepted();
    LiteralPowers();
    DigitCountFromBounds(Pow10(28) + 1, 34);
  }

  lemma ExponentText()
    ensures ParseExponent("e-1000100") == Some(-1000100)
  {
    var s := "1000100";
    assert "e-1000100"[2..] == s;
    assert Span(s) == 7 by {
      assert s[1..] == "000100" && s[2..] == "00100" && s[3..] == "0100";
      assert s[4..] == "100" && s[5..] == "00" && s[6..] == "0" && s[7..] == "";
      assert AllDigits(s) && s + "" == s;
      SpanOfDigits(s, "");
    }
    assert DigitsValue(s) == 1000100 by {
      assert s[..6] == "100010" && s[..6][..5] == "10001" && s[..6][..5][..4] == "1000";
      assert "1000"[..3] == "100" && "100"[..2] == "10" && "10"[..1] == "1" && "1"[..0] == "";
      assert DigitsValue("10") == 10;
      assert DigitsValue("1000") == 1000;
      assert DigitsValue("100010") == 100010;
    }
  }

  lemma TinyNumber()
    ensures ParseNumber(false, "1e-1000100") == Some(Finite(false, 1, -1000100))
  {
    var s := "1e-1000100";
    assert s == "1" + "e-1000100";
    SpanOfDigits("1", "e-1000100");
    assert s[1..] == "e-1000100" && s[1..][0..] == "e-1000100";
    assert s[..1] + s[1..][..0] == "1";
    assert DigitsValue("1") == 1 by {
      assert "1"[..0] == "";
    }
    ExponentText();
  }

  /** A positive amount below the context's smallest exponent is accepted, as zero
      base units. */
  lemma TinyText()
    ensures ParseAmount("1e-1000100") == Units(0)
  {
    hide Pow10, ToBaseUnits, ParseNumber;
    var s := "1e-1000100";
    assert TrimLeft(s) == s && TrimRight(s) == s;
    NothingToDrop(s);
    TinyNumber();
    TinyAmountAcceptedAsZero(1, -1000100);
    LiteralPowers();
    PowMonotone(7, 74);
    assert ETINY - -1000100 == 74;
  }

  // ----------------------------------------------------- everyday texts

  lemma LooseNumber()
    ensures ParseNumber(false, "10.5e1") == Some(Finite(false, 105, 0))
  {
    hide ParseExponent, ParseNumber, Span;
    MarkedExponent("e", "1");
    assert "e" + "1" == "e1" && "10" + ("." + ("5" + "e1")) == "10.5e1" && "10" + "5" == "105";
    MarkedNumber("10", "5", "e1", 1);
    assert "1"[..0] == "" && DigitsValue("1") == 1;
    assert "105"[..2] == "10" && "10"[..1] == "1" && DigitsValue("10") == 10;
  }

  lemma SmallCount()
    ensures DigitCount(105) == 3 && 105 < Pow10(28) && Pow10(0) == 1
  {
    LiteralPowers();
  }

  lemma ConstructedAmount(s: string, coefficient: nat, exponent: int)
    requires ParseDecimal(s) == Some(Finite(false, coefficient, exponent))
    requires MIN_ETINY <= exponent && exponent + DigitCount(coefficient) - 1 <= MAX_EMAX
    ensures ParseAmount(s) == ToBaseUnits(Finite(false, coefficient, exponent))
  {
    hide ParseDecimal, DigitCount, ToBaseUnits;
  }

  /** All of it at once. */
  lemma LooseText()
    ensures ParseAmount(" 1_0.5e1\n") == Units(105_000_000)
  {
    hide ToBaseUnits, DigitCount, ParseNumber, ParseAmount, Pow10;
    var s := "10.5e1";
    assert " 1_0.5e1\n" == [' '] + "1_0.5e1" + ['\n'];
    BlanksAreIgnored(' ', "1_0.5e1", '\n');
    assert "1_0.5e1" == "1" + ("_" + "0.5e1") && "1" + "0.5e1" == s;
    UnderscoresAreIgnored("1", "0.5e1");
    LooseNumber();
    TextIsBody(s);
    SmallCount();
    assert Denotes(105 * SCALE, 0, 105_000_000);
    ParserExact(105, 0, 105_000_000);
    ConstructedAmount(s, 105, 0);
  }

  // -------------------------------------------------------- printed texts

  lemma PrintedAs(c: nat, e: int, n: nat, text: string)
    requires 0 < n && DigitCount(n) <= PRECISION && Normalize(n, -6) == (c, e) && Plain(Spell(c), e) == text
    ensures Print(n) == text
  {
    hide Spell, Plain, Normalize, DigitCount, Pow10;
    FixedShape(n, -6);
    FixInRange(n);
  }

  lemma PrintsFraction()
    ensures Print(25_500_000) == "25.5"
  {
    hide Print, Pow10;
    assert Spell(255) == "255";
    assert Normalize(25_500_000, -6) == (255, -1);
    PrintedAs(255, -1, 25_500_000, "25.5");
  }

  lemma PrintsWhole()
    ensures Print(120_000_000) == "120"
  {
    hide Print, Pow10;
    assert Spell(12) == "12" && Zeros(1) == "0";
    assert Normalize(120_000_000, -6) == (12, 1);
    PrintedAs(12, 1, 120_000_000, "120");
  }

  lemma PrintsSmallest()
    ensures Print(1) == "0.000001"
  {
    hide Print, Pow10;
    assert Spell(1) == "1" && Zeros(5) == "00000";
    assert Normalize(1, -6) == (1, -6);
    PrintedAs(1, -6, 1, "0.000001");
  }

  /** Amounts as they are shown: no zeros that do not count, and one zero before the
      dot of an amount below one. */
  lemma PrintedTexts()
    ensures Print(25_500_000) == "25.5" && Print(120_000_000) == "120" && Print(1) == "0.000001"
  {
    hide Print;
    PrintsFraction();
    PrintsWhole();
    PrintsSmallest();
  }
}
