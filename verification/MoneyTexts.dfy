/** The texts that spell an amount: signs, dots, exponents, blanks and underscores,
    and the words for infinity and NaN. */
module MoneyTexts {
  import opened Basics
  import opened Money
  import opened MoneyRoundTrip

  // ------------------------------------------------- signs and specials

  predicate NoBlankEnds(s: string) {
    s != "" && !IsBlank(s[0]) && !IsBlank(s[|s| - 1])
  }

  /** Every text that spells zero or a negative number is refused. */
  lemma NotPositiveIsRejected(text: string)
    requires var d := ParseDecimal(text);
             d.Some? && match d.value
                        case Finite(negative, coefficient, _) => negative || coefficient == 0
                        case Infinity(negative) => negative
                        case NotANumber => false
    ensures ParseAmount(text) == Rejected
  {
    hide ParseDecimal;
  }

  lemma {:induction false} TrimRightBehind(c: char, s: string)
    requires !IsBlank(c)
    ensures TrimRight([c] + s) == [c] + TrimRight(s)
  {
    if s != "" && IsBlank(s[|s| - 1]) {
      TrimRightBehind(c, s[..|s| - 1]);
      assert ([c] + s)[..|s|] == [c] + s[..|s| - 1];
    } else {
      assert TrimRight(s) == s;
    }
  }

  lemma CleanedBehind(c: char, s: string)
    requires !IsBlank(c) && c != '_'
    ensures TrimLeft([c] + s) == [c] + s
    ensures DropUnderscores(TrimRight([c] + s)) == [c] + DropUnderscores(TrimRight(s))
  {
    TrimRightBehind(c, s);
    assert ([c] + TrimRight(s))[1..] == TrimRight(s);
  }

  /** A text that starts with a minus sign is never accepted. */
  lemma MinusIsNeverAccepted(s: string)
    ensures !ParseAmount("-" + s).Units?
  {
    hide DropUnderscores, TrimRight, TrimLeft, ParseExponent, DigitsValue, Span, DigitCount;
    CleanedBehind('-', s);
  }

  /** A plus sign changes nothing. */
  lemma PlusIsIgnored(s: string)
    requires s != "" && !IsBlank(s[0]) && s[0] !in "+-_"
    ensures ParseAmount("+" + s) == ParseAmount(s)
  {
    hide DropUnderscores, TrimRight, TrimLeft, ParseNumber, ParseSpecial, Constructible;
    CleanedBehind('+', s);
    assert s == [s[0]] + s[1..];
    CleanedBehind(s[0], s[1..]);
    var body := DropUnderscores(TrimRight(s));
    assert body[0] == s[0] && ("+" + body)[1..] == body;
  }

  /** Zero in any number of digits is refused. */
  lemma ZeroIsRejected(n: nat, k: nat)
    requires 0 < n
    ensures ParseAmount(Zeros(n)) == Rejected && ParseAmount(Zeros(n) + "." + Zeros(k)) == Rejected
  {
    hide DigitsValue;
    ZerosValue(n);
    ZerosValue(k);
    ZerosValue(n + k);
    DigitsValueConcat(Zeros(n), Zeros(k));
    assert 0 * Pow10(k) == 0;
    ParseWhole(Zeros(n));
    ParseDotted(Zeros(n), Zeros(k));
    NotPositiveIsRejected(Zeros(n));
    NotPositiveIsRejected(Zeros(n) + "." + Zeros(k));
  }

  lemma {:induction false} SpanAll(s: string)
    ensures Span(s) == |s| <==> AllDigits(s)
  {
    if s != "" {
      SpanAll(s[1..]);
      assert forall i :: 0 < i < |s| ==> s[i] == s[1..][i - 1];
      assert AllDigits(s) <==> IsDigit(s[0]) && AllDigits(s[1..]);
    }
  }

  /** The word is "nan" or "snan", perhaps with digits behind it. */
  ghost predicate SaysNaN(word: string) {
    exists k: string :: AllDigits(k) && (word == "nan" + k || word == "snan" + k)
  }

  function Unsignalled(word: string): string {
    if "s" <= word then word[1..] else word
  }

  lemma PayloadBehindNaN(word: string)
    requires "nan" <= Unsignalled(word)
    ensures word == "nan" + Unsignalled(word)[3..] || word == "snan" + Unsignalled(word)[3..]
  {
    var k := Unsignalled(word)[3..];
    assert Unsignalled(word) == "nan" + k;
    if "s" <= word {
      assert word == "s" + ("nan" + k) && "s" + ("nan" + k) == "snan" + k;
    }
  }

  lemma NaNBefore(k: string)
    ensures Unsignalled("nan" + k) == "nan" + k == Unsignalled("snan" + k)
  {
    assert ("nan" + k)[0] == 'n' && ("snan" + k)[0] == 's';
    assert ("snan" + k)[1..] == "nan" + k;
  }

  lemma NaNPayload(word: string)
    ensures var payload := Unsignalled(word);
            ("nan" <= payload && Span(payload[3..]) == |payload| - 3) <==> SaysNaN(word)
  {
    hide Span, AllDigits, Unsignalled;
    var payload := Unsignalled(word);
    if "nan" <= payload {
      PayloadBehindNaN(word);
      SpanAll(payload[3..]);
    }
    if SaysNaN(word) {
      var k :| AllDigits(k) && (word == "nan" + k || word == "snan" + k);
      NaNBefore(k);
      SpanAll(k);
      assert payload[3..] == k;
    }
  }

  lemma SpecialWord(s: string)
    ensures ParseSpecial(false, s) ==
            if Lower(s) == "inf" || Lower(s) == "infinity" then Some(Infinity(false))
            else if SaysNaN(Lower(s)) then Some(NotANumber) else None
  {
    hide SaysNaN, Lower, Span;
    NaNPayload(Lower(s));
  }

  lemma NoNumberHere(s: string)
    requires s != "" && !IsDigit(s[0]) && s[0] != '.'
    ensures ParseNumber(false, s) == None
  {
    assert Span(s) == 0 && s[0..] == s;
  }

  /** A text that does not start like a number escapes the check as another error if
      it spells infinity or NaN in any case, and is refused otherwise. */
  lemma WordTexts(s: string)
    requires NoBlankEnds(s) && !IsDigit(s[0]) && s[0] !in "+-." && '_' !in s
    ensures ParseAmount(s) ==
            if Lower(s) == "inf" || Lower(s) == "infinity" || SaysNaN(Lower(s)) then Crash else Rejected
  {
    hide SaysNaN, Lower, ParseNumber, ParseSpecial;
    assert TrimLeft(s) == s && TrimRight(s) == s;
    NothingToDrop(s);
    NoNumberHere(s);
    SpecialWord(s);
  }

  // ------------------------------------------------------- with exponents

  predicate IsExponentMark(mark: string) {
    mark in ["e", "E", "e+", "E+", "e-", "E-"]
  }

  function ExponentValue(mark: string, k: string): int {
    if mark in ["e-", "E-"] then 0 - DigitsValue(k) else DigitsValue(k)
  }

  lemma MarkedExponent(mark: string, k: string)
    requires IsExponentMark(mark) && k != "" && AllDigits(k)
    ensures ParseExponent(mark + k) == Some(ExponentValue(mark, k))
  {
    hide DigitsValue, Span;
    var s := mark + k;
    assert k + "" == k;
    SpanOfDigits(k, "");
    assert s[0] == mark[0] && s[|mark|..] == k;
    assert s[1] == if |mark| == 1 then k[0] else mark[1];
  }

  lemma MarkedNumber(a: string, b: string, x: string, exponent: int)
    requires a != "" && AllDigits(a) && AllDigits(b)
    requires x != "" && !IsDigit(x[0]) && ParseExponent(x) == Some(exponent)
    ensures ParseNumber(false, a + ("." + (b + x))) == Some(Finite(false, DigitsValue(a + b), exponent - |b|))
  {
    hide DigitsValue, ParseExponent, Span;
    var s := a + ("." + (b + x));
    SpanOfDigits(a, "." + (b + x));
    SpanOfDigits(b, x);
    assert s[|a|] == '.' && s[..|a|] == a && s[|a| + 1..] == b + x;
    assert (b + x)[|b|..] == x && (b + x)[..|b|] == b;
  }

  /** Digits before the dot may be missing. */
  lemma DotFirst(b: string)
    requires b != "" && AllDigits(b)
    ensures ParseNumber(false, "." + b) == Some(Finite(false, DigitsValue(b), -|b|))
  {
    hide DigitsValue, Span;
    DottedParts("", b);
    assert "" + "." + b == "." + b && b[|b|..] == "" && b[..|b|] == b && "" + b == b;
    assert ParseExponent("") == Some(0);
  }

  lemma TextIsBody(s: string)
    requires s != "" && IsDigit(s[0]) && IsDigit(s[|s| - 1]) && '_' !in s
    ensures ParseNumber(false, s).Some? ==> ParseDecimal(s) == ParseNumber(false, s)
  {
    hide ParseNumber;
    assert TrimLeft(s) == s && TrimRight(s) == s;
    NothingToDrop(s);
  }

  /** Every text of digits, a dot, digits, and an exponent with either letter and any
      sign is the number it spells; beyond the exponents that a decimal can have it is
      refused before its value matters. */
  lemma MarkedText(a: string, b: string, mark: string, k: string)
    requires a != "" && AllDigits(a) && AllDigits(b) && IsExponentMark(mark) && k != "" && AllDigits(k)
    ensures var coefficient, exponent := DigitsValue(a + b), ExponentValue(mark, k) - |b|;
            ParseAmount(a + ("." + (b + (mark + k)))) ==
            if exponent < -1_999_999_999_999_999_997
               || exponent + DigitCount(coefficient) - 1 > 999_999_999_999_999_999 then Rejected
            else ToBaseUnits(Finite(false, coefficient, exponent))
  {
    hide DigitsValue, DigitCount, ToBaseUnits, ParseNumber, ParseDecimal, ParseExponent;
    var x := mark + k;
    var s := a + ("." + (b + x));
    MarkedExponent(mark, k);
    assert x[0] == mark[0];
    MarkedNumber(a, b, x, ExponentValue(mark, k));
    assert s[0] == a[0] && s[|s| - 1] == k[|k| - 1];
    assert '_' !in mark && '_' !in s;
    TextIsBody(s);
  }

  /** A blank on either side of a text changes nothing. */
  lemma BlanksAreIgnored(left: char, s: string, right: char)
    requires left in " \t\n\r" && right in " \t\n\r" && NoBlankEnds(s)
    ensures ParseAmount([left] + s + [right]) == ParseAmount(s)
  {
    hide ParseNumber, ParseSpecial, DropUnderscores;
    var text := [left] + s + [right];
    assert text[1..] == s + [right] && (s + [right])[..|s|] == s;
    assert TrimLeft(text) == TrimLeft(s + [right]) == s + [right];
    assert TrimRight(s + [right]) == TrimRight(s) == s && TrimLeft(s) == s;
  }

  lemma {:induction false} UnderscoreDropped(a: string, b: string)
    ensures DropUnderscores(a + ("_" + b)) == DropUnderscores(a + b)
  {
    if a == "" {
      assert a + ("_" + b) == "_" + b && ("_" + b)[1..] == b && a + b == b;
    } else {
      UnderscoreDropped(a[1..], b);
      assert (a + ("_" + b))[1..] == a[1..] + ("_" + b) && (a + b)[1..] == a[1..] + b;
    }
  }

  /** An underscore anywhere inside a text changes nothing. */
  lemma UnderscoresAreIgnored(a: string, b: string)
    requires a != "" && b != "" && NoBlankEnds(a + b)
    ensures ParseAmount(a + ("_" + b)) == ParseAmount(a + b)
  {
    hide ParseNumber, ParseSpecial, DropUnderscores;
    var s, text := a + b, a + ("_" + b);
    assert s[0] == text[0] == a[0] && s[|s| - 1] == text[|text| - 1] == b[|b| - 1];
    assert TrimLeft(text) == text && TrimRight(text) == text && TrimLeft(s) == s && TrimRight(s) == s;
    UnderscoreDropped(a, b);
  }
}
