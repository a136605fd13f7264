/** When the amount parser is exact: up to 28 significant digits always, and
    beyond that precisely until the context rounds a fraction away. */
module MoneyExactness {
  import opened Basics
  import opened Money

  /** coefficient * 10^exponent == n, without division. */
  predicate Denotes(coefficient: nat, exponent: int, n: nat) {
    if 0 <= exponent then n == coefficient * Pow10(exponent)
    else coefficient == n * Pow10(-exponent)
  }

  lemma {:induction false} PowAdd(a: nat, b: nat)
    ensures Pow10(a + b) == Pow10(a) * Pow10(b)
  {
    if a == 0 {
    } else {
      PowAdd(a - 1, b);
      assert 10 * (Pow10(a - 1) * Pow10(b)) == (10 * Pow10(a - 1)) * Pow10(b);
    }
  }

  lemma PowSix()
    ensures Pow10(6) == SCALE
  {
    assert Pow10(2) == 100;
    assert Pow10(4) == 10_000;
  }

  lemma MulAssoc(a: int, b: int, c: int)
    ensures a * (b * c) == (a * b) * c
  {
  }

  lemma MulAtLeast(d: int, unit: int)
    requires 0 < unit
    ensures 1 <= d ==> unit <= d * unit
    ensures d <= -1 ==> d * unit <= -unit
  {
  }

  lemma DivisionOfMultiple(q: nat, unit: nat)
    requires 0 < unit
    ensures Quotient(q * unit, unit) == q
    ensures (q * unit) % unit == 0
  {
    var n := q * unit;
    var d := n / unit;
    var r := n % unit;
    assert n == d * unit + r;
    assert (q - d) * unit == r;
    MulAtLeast(q - d, unit);
  }

  lemma DivisibleIsMultiple(n: nat, unit: nat)
    requires 0 < unit && n % unit == 0
    ensures n == Quotient(n, unit) * unit
  {
  }

  lemma {:induction false} DigitBounds(n: nat)
    requires 0 < n
    ensures 1 <= DigitCount(n)
    ensures Pow10(DigitCount(n) - 1) <= n < Pow10(DigitCount(n))
  {
    if n < 10 {
      assert Pow10(0) == 1;
    } else {
      DigitBounds(n / 10);
    }
  }

  lemma {:induction false} PowMonotone(a: nat, b: nat)
    requires a <= b
    ensures Pow10(a) <= Pow10(b)
  {
    if a < b {
      PowMonotone(a, b - 1);
    }
  }

  lemma DigitCountFromBounds(n: nat, k: nat)
    requires 0 < n < Pow10(k)
    ensures DigitCount(n) <= k
  {
    DigitBounds(n);
    if k < DigitCount(n) {
      PowMonotone(k, DigitCount(n) - 1);
    }
  }

  lemma TimesPow(n: nat, k: nat)
    requires 0 < k
    ensures n * Pow10(k) == 10 * (n * Pow10(k - 1))
  {
    MulAssoc(n, 10, Pow10(k - 1));
    MulAssoc(10, n, Pow10(k - 1));
  }

  lemma DigitCountTimesTen(n: nat)
    requires 0 < n
    ensures DigitCount(10 * n) == 1 + DigitCount(n)
  {
    assert (10 * n) / 10 == n;
  }

  lemma {:induction false} DigitCountShift(n: nat, k: nat)
    requires 0 < n
    ensures 0 < n * Pow10(k)
    ensures DigitCount(n * Pow10(k)) == DigitCount(n) + k
  {
    if k == 0 {
      assert Pow10(0) == 1;
    } else {
      DigitCountShift(n, k - 1);
      TimesPow(n, k);
      DigitCountTimesTen(n * Pow10(k - 1));
    }
  }

  lemma RoundExact(q: nat, drop: nat)
    ensures RoundHalfEven(q * Pow10(drop), drop) == q
  {
    DivisionOfMultiple(q, Pow10(drop));
  }

  lemma IntegralMeansDenotes(c: nat, e: int, n: nat)
    ensures IsIntegral(c, e) && IntegerValue(c, e) == n <==> Denotes(c, e, n)
  {
    if e < 0 {
      if IsIntegral(c, e) {
        DivisibleIsMultiple(c, Pow10(-e));
      }
      if Denotes(c, e, n) {
        DivisionOfMultiple(n, Pow10(-e));
      }
    }
  }

  lemma CancelPow(a: nat, b: nat, k: nat)
    requires a * Pow10(k) == b * Pow10(k)
    ensures a == b
  {
    DivisionOfMultiple(a, Pow10(k));
    DivisionOfMultiple(b, Pow10(k));
  }

  lemma ShiftUp(c: nat, e: nat, k: nat, n: nat)
    ensures Denotes(c, e + k, n) <==> Denotes(c * Pow10(k), e, n)
  {
    PowAdd(k, e);
    MulAssoc(c, Pow10(k), Pow10(e));
  }

  lemma ShiftDown(c: nat, m: nat, k: nat, n: nat)
    ensures c == n * Pow10(m) <==> c * Pow10(k) == n * Pow10(m + k)
  {
    PowAdd(m, k);
    MulAssoc(n, Pow10(m), Pow10(k));
    if c * Pow10(k) == n * Pow10(m + k) {
      CancelPow(c, n * Pow10(m), k);
    }
  }

  lemma ShiftAcross(c: nat, up: nat, down: nat, n: nat)
    ensures n == c * Pow10(up) <==> c * Pow10(up + down) == n * Pow10(down)
  {
    PowAdd(up, down);
    MulAssoc(c, Pow10(up), Pow10(down));
    if c * Pow10(up + down) == n * Pow10(down) {
      CancelPow(n, c * Pow10(up), down);
    }
  }

  /** Moving zeros between coefficient and exponent changes no value. */
  lemma DenotesShift(c: nat, e: int, k: nat, n: nat)
    ensures Denotes(c, e + k, n) <==> Denotes(c * Pow10(k), e, n)
  {
    if 0 <= e {
      ShiftUp(c, e, k, n);
    } else if e + k < 0 {
      ShiftDown(c, -(e + k), k, n);
      assert -(e + k) + k == -e;
    } else {
      ShiftAcross(c, e + k, -e, n);
      assert e + k + -e == k;
    }
  }

  // ------------------------------------------------------ exactness

  /** The parser returns exactly the value, and accepts whenever there is one. */
  ghost predicate ExactOn(c: nat, e: int) {
    forall n: nat :: ToBaseUnits(Finite(false, c, e)) == Units(n) <==> Denotes(c * SCALE, e, n)
  }

  /** Some digit that the context drops from the product is not a zero. */
  predicate LosesDigits(coefficient: nat, exponent: int) {
    coefficient % Pow10(Excess(coefficient, exponent)) != 0
  }

  lemma FixKeepsOrRounds(p: nat, e: int)
    requires 0 < p && Fix(p, e).Fixed?
    ensures !LosesDigits(p, e) ==>
              Fix(p, e) == Fixed(Quotient(p, Pow10(Excess(p, e))), e + Excess(p, e))
    ensures Fix(p, e).exponent >= e + Excess(p, e)
  {
    var drop: nat := Excess(p, e);
    if !LosesDigits(p, e) {
      var q := Quotient(p, Pow10(drop));
      DivisibleIsMultiple(p, Pow10(drop));
      RoundExact(q, drop);
      assert q != 0;
      DigitCountShift(q, drop);
    }
  }

  lemma SameValueSameCoefficient(a: nat, b: nat, e: int, n: nat)
    requires Denotes(a, e, n) && Denotes(b, e, n)
    ensures a == b
  {
    if 0 <= e {
      CancelPow(a, b, e);
    }
  }

  /** If the kept part with its exponent denotes the value of p, then p ends in
      as many zeros as were dropped. */
  lemma DenotedIsDivisible(p: nat, e: int, q: nat, x: int, drop: nat, n: nat)
    requires e + drop <= x && Denotes(p, e, n) && Denotes(q, x, n)
    ensures p % Pow10(drop) == 0
  {
    var k: nat := x - e;
    DenotesShift(q, e, k, n);
    SameValueSameCoefficient(p, q * Pow10(k), e, n);
    PowAdd(k - drop, drop);
    MulAssoc(q, Pow10(k - drop), Pow10(drop));
    DivisionOfMultiple(q * Pow10(k - drop), Pow10(drop));
  }

  lemma LostDigitsMeanNoInteger(p: nat, e: int, drop: nat, n: nat)
    requires e + drop < 0 && p % Pow10(drop) != 0
    ensures !Denotes(p, e, n)
  {
    if Denotes(p, e, n) {
      PowAdd(-e - drop, drop);
      MulAssoc(n, Pow10(-e - drop), Pow10(drop));
      DivisionOfMultiple(n * Pow10(-e - drop), Pow10(drop));
    }
  }

  /** On the rounded product: the parser is exact when no non-zero digit is
      dropped, or when what is left after dropping still has a fraction. */
  lemma RoundedExactIff(c: nat, e: int)
    requires 0 < c
    ensures ExactOn(c, e) <==>
            match Fix(c * SCALE, e)
            case Overflow => !IsIntegral(c * SCALE, e)
            case Fixed(q, x) => !LosesDigits(c * SCALE, e) || !IsIntegral(q, x)
  {
    var p := c * SCALE;
    var drop: nat := Excess(p, e);
    match Fix(p, e)
    case Overflow =>
      forall n: nat
        ensures Denotes(p, e, n) <==> IsIntegral(p, e) && IntegerValue(p, e) == n
      {
        IntegralMeansDenotes(p, e, n);
      }
      assert IsIntegral(p, e) ==> Denotes(p, e, IntegerValue(p, e));
    case Fixed(q, x) =>
      FixKeepsOrRounds(p, e);
      if !LosesDigits(p, e) {
        DivisibleIsMultiple(p, Pow10(drop));
        forall n: nat
          ensures ToBaseUnits(Finite(false, c, e)) == Units(n) <==> Denotes(p, e, n)
        {
          IntegralMeansDenotes(q, x, n);
          DenotesShift(q, e, drop, n);
        }
      } else if IsIntegral(q, x) {
        var n := IntegerValue(q, x);
        IntegralMeansDenotes(q, x, n);
        if Denotes(p, e, n) {
          DenotedIsDivisible(p, e, q, x, drop, n);
        }
        assert ToBaseUnits(Finite(false, c, e)) == Units(n);
      } else {
        forall n: nat
          ensures !Denotes(p, e, n)
        {
          LostDigitsMeanNoInteger(p, e, drop, n);
        }
      }
  }

  // ------------------------------------------- exactness, digit by digit

  /** How far coefficient * 10^exponent is from the nearest integer, in units of
      10^exponent. */
  function DistanceToInteger(coefficient: nat, exponent: int): nat
    requires exponent < 0
  {
    var unit := Pow10(-exponent);
    Min(coefficient % unit, unit - coefficient % unit)
  }

  function Remainder(n: nat, unit: nat): nat
    requires 0 < unit
  {
    n % unit
  }

  lemma Division(n: nat, d: nat)
    requires 0 < d
    ensures n == d * Quotient(n, d) + Remainder(n, d) && Remainder(n, d) < d
  {
  }

  lemma TimesAtLeast(u: int, x: int, least: int)
    requires 0 <= u && least <= x
    ensures u * least <= u * x
  {
    Distribute(u, least, x - least);
  }

  lemma RemainderOf(m: nat, a: nat, s: nat)
    requires s < m
    ensures Remainder(m * a + s, m) == s
  {
    var n := m * a + s;
    assert n == m * (n / m) + n % m;
    Distribute(m, n / m - a, a);
    MulAtLeast(n / m - a, m);
  }

  lemma DivideTwice(p: nat, unit: nat, l: nat, q: nat, r: nat, a: nat, b: nat)
    requires p == unit * q + r && q == l * a + b && r < unit && b < l
    ensures 0 < unit * l && Remainder(p, unit * l) == unit * b + r
    ensures unit * l == unit * b + unit * (l - b)
  {
    hide Remainder;
    Distribute(unit, b, l - b);
    TimesAtLeast(unit, l - b, 1);
    Distribute(unit, l * a, b);
    MulAssoc(unit, l, a);
    RemainderOf(unit * l, a, unit * b + r);
  }

  lemma SuccessorRemainder(q: nat, l: nat, a: nat, b: nat)
    requires 1 < l && q == l * a + b && b < l
    ensures Remainder(q, l) == b
    ensures Remainder(q + 1, l) == if b == l - 1 then 0 else b + 1
  {
    hide Remainder;
    RemainderOf(l, a, b);
    if b == l - 1 {
      Distribute(l, a, 1);
      RemainderOf(l, a + 1, 0);
    } else {
      RemainderOf(l, a, b + 1);
    }
  }

  lemma SameParity(q: nat, l: nat, a: nat, b: nat)
    requires q == l * a + b && l % 2 == 0
    ensures q % 2 == b % 2
  {
    MulAssoc(2, l / 2, a);
    assert q == 2 * ((l / 2) * a) + b;
  }

  lemma NearestCases(unit: nat, below: nat, above: nat, l: nat, q: nat, r: nat, b: nat)
    requires r < unit && 10 <= l && l % 2 == 0 && b < l && below == unit * b && above == unit * (l - b)
    requires q % 2 == b % 2
    ensures var up := 2 * r > unit || (2 * r == unit && q % 2 == 1);
            var s, t := below + r, above - r;
            (if up then b == l - 1 else b == 0) <==> 2 * Min(s, t) <= unit
  {
    if b == 0 {
      TimesAtLeast(unit, l - b, 10);
    } else if b == l - 1 {
      TimesAtLeast(unit, b, 9);
    } else {
      TimesAtLeast(unit, b, 1);
      TimesAtLeast(unit, l - b, 2);
    }
  }

  /** Rounding p to the nearest multiple of `unit` hits a multiple of unit * l
      exactly from within half a unit: at a tie the even neighbour wins, which is
      that one. */
  lemma NearestMultiple(p: nat, unit: nat, l: nat, q: nat, r: nat, a: nat, b: nat)
    requires p == unit * q + r && q == l * a + b && r < unit && b < l
    requires 10 <= l && l % 2 == 0
    ensures 0 < unit * l
    ensures var up := 2 * r > unit || (2 * r == unit && q % 2 == 1);
            var s := Remainder(p, unit * l);
            Remainder(if up then q + 1 else q, l) == 0 <==> 2 * Min(s, unit * l - s) <= unit
  {
    hide Remainder;
    DivideTwice(p, unit, l, q, r, a, b);
    SuccessorRemainder(q, l, a, b);
    SameParity(q, l, a, b);
    NearestCases(unit, unit * b, unit * (l - b), l, q, r, b);
  }

  lemma QuotientRange(n: nat, unit: nat, top: nat)
    requires 0 < unit <= n < top * unit
    ensures 0 < Quotient(n, unit) < top
  {
    var q := Quotient(n, unit);
    assert n == q * unit + n % unit;
    MulAtLeast(q, unit);
    MulAtLeast(top - q, unit);
    assert (top - q) * unit == top * unit - q * unit;
  }

  lemma SmallQuotient(n: nat, unit: nat)
    requires n < unit
    ensures n / unit == 0 && n % unit == n
  {
    MulAtLeast(n / unit, unit);
  }

  lemma QuotientBelow(n: nat, drop: nat, k: nat)
    requires 0 < n && DigitCount(n) <= drop + k
    ensures Quotient(n, Pow10(drop)) < Pow10(k)
  {
    DigitBounds(n);
    PowMonotone(DigitCount(n), drop + k);
    PowAdd(k, drop);
    if n < Pow10(drop) {
      SmallQuotient(n, Pow10(drop));
    } else {
      QuotientRange(n, Pow10(drop), Pow10(k));
    }
  }

  /** When rounding carries into a 29th digit, the result is 10^28. */
  lemma CarryIsPower(p: nat, drop: nat)
    requires 0 < p && DigitCount(p) <= drop + PRECISION
    requires DigitCount(RoundHalfEven(p, drop)) > PRECISION
    ensures RoundHalfEven(p, drop) == Pow10(PRECISION)
  {
    QuotientBelow(p, drop, PRECISION);
    var rounded := RoundHalfEven(p, drop);
    if 0 < rounded < Pow10(PRECISION) {
      DigitCountFromBounds(rounded, PRECISION);
    }
  }

  lemma TenthIsIntegral(n: nat, k: nat)
    requires 1 <= k && n % 10 == 0
    ensures n % Pow10(k) == 0 <==> (n / 10) % Pow10(k - 1) == 0
  {
    var m := n / 10;
    if n % Pow10(k) == 0 {
      DivisibleIsMultiple(n, Pow10(k));
      var t := Quotient(n, Pow10(k));
      assert t * (10 * Pow10(k - 1)) == 10 * (t * Pow10(k - 1));
      DivisionOfMultiple(t, Pow10(k - 1));
    }
    if m % Pow10(k - 1) == 0 {
      DivisibleIsMultiple(m, Pow10(k - 1));
      var t := Quotient(m, Pow10(k - 1));
      assert t * (10 * Pow10(k - 1)) == 10 * (t * Pow10(k - 1));
      DivisionOfMultiple(t, Pow10(k));
    }
  }

  lemma TenTimesPower(k: nat)
    requires 1 <= k
    ensures Pow10(k) % 10 == 0
  {
  }

  lemma PowZeroIsOne()
    ensures Pow10(0) == 1
  {
  }

  /** Whether the rounded product has a fraction depends on the rounded digits as
      they are before a carry is normalised. */
  lemma CarryKeepsFraction(p: nat, e: int, k: nat)
    requires 0 < p && Fix(p, e).Fixed? && 1 <= k && e + Excess(p, e) == 0 - k
    ensures IsIntegral(Fix(p, e).coefficient, Fix(p, e).exponent) <==>
            RoundHalfEven(p, Excess(p, e)) % Pow10(k) == 0
  {
    hide RoundHalfEven, Pow10, DigitCount;
    var rounded := RoundHalfEven(p, Excess(p, e));
    if DigitCount(rounded) > PRECISION {
      CarryIsPower(p, Excess(p, e));
      TenTimesPower(PRECISION);
      TenthIsIntegral(rounded, k);
      PowZeroIsOne();
    }
  }

  lemma EvenPower(k: nat)
    requires 1 <= k
    ensures Pow10(k) % 2 == 0 && 10 <= Pow10(k)
  {
    assert Pow10(k) == 2 * (5 * Pow10(k - 1));
  }

  lemma RoundedIsIntegralIff(p: nat, drop: nat, k: nat, e: int)
    requires 1 <= k && e + drop == 0 - k
    ensures RoundHalfEven(p, drop) % Pow10(k) == 0 <==> 2 * DistanceToInteger(p, e) <= Pow10(drop)
  {
    hide Pow10, Quotient;
    var unit, l := Pow10(drop), Pow10(k);
    PowAdd(drop, k);
    EvenPower(k);
    var q := Quotient(p, unit);
    Division(p, unit);
    Division(q, l);
    NearestMultiple(p, unit, l, q, Remainder(p, unit), Quotient(q, l), Remainder(q, l));
    assert -e == drop + k;
  }

  // ------------------------------------------------------------ overflow

  /** The number needs an exponent beyond the context's largest, either as it stands
      or because it lies within half a unit of the last digit kept below the next
      power of ten. */
  predicate Overflows(coefficient: nat, exponent: int) {
    var digits := DigitCount(coefficient);
    || exponent + digits - 1 > EMAX
    || (exponent + digits - 1 == EMAX
        && 2 * (Pow10(digits) - coefficient) <= Pow10(Excess(coefficient, exponent)))
  }

  /** p rounds up to the power of ten above it exactly from within half a unit. */
  lemma CarriesIff(p: nat, unit: nat, top: nat, q: nat, r: nat)
    requires p == unit * q + r && r < unit && 2 <= top && top % 2 == 0 && q < top
    ensures var up := 2 * r > unit || (2 * r == unit && q % 2 == 1);
            (if up then q + 1 else q) == top <==> 2 * (unit * top - p) <= unit
  {
    Distribute(unit, q, top - q);
    if q == top - 1 {
      assert unit * (top - q) == unit;
    } else {
      TimesAtLeast(unit, top - q, 2);
    }
  }

  lemma RoundsToPowerIff(p: nat, drop: nat)
    requires 0 < p && DigitCount(p) == drop + PRECISION
    ensures RoundHalfEven(p, drop) == Pow10(PRECISION) <==> 2 * (Pow10(DigitCount(p)) - p) <= Pow10(drop)
  {
    hide Pow10, Quotient, DigitCount;
    var unit, q := Pow10(drop), Quotient(p, Pow10(drop));
    Division(p, unit);
    QuotientBelow(p, drop, PRECISION);
    EvenPower(PRECISION);
    PowAdd(drop, PRECISION);
    CarriesIff(p, unit, Pow10(PRECISION), q, Remainder(p, unit));
  }

  lemma DigitCountExact(n: nat, k: nat)
    requires 0 < k && Pow10(k - 1) <= n < Pow10(k)
    ensures DigitCount(n) == k
  {
    DigitBounds(n);
    if k < DigitCount(n) {
      PowMonotone(k, DigitCount(n) - 1);
    } else if DigitCount(n) < k {
      PowMonotone(DigitCount(n), k - 1);
    }
  }

  lemma PowerSteps(k: nat)
    requires 1 <= k
    ensures Pow10(k) == 10 * Pow10(k - 1) && DigitCount(Pow10(k)) == k + 1
  {
    DigitCountExact(Pow10(k), k + 1);
  }

  lemma TopPower()
    ensures Pow10(PRECISION) == 10 * Pow10(PRECISION - 1)
    ensures DigitCount(Pow10(PRECISION)) > PRECISION
  {
    hide Pow10, DigitCount;
    PowerSteps(PRECISION);
  }

  lemma SmallNumbersHaveOneDigit()
    ensures forall n: nat :: n < 10 ==> DigitCount(n) == 1
  {
  }

  lemma CarryNeedsAllDigits(p: nat, drop: nat)
    requires 0 < p && DigitCount(p) < drop + PRECISION
    ensures DigitCount(RoundHalfEven(p, drop)) <= PRECISION
  {
    hide DigitCount, Quotient;
    QuotientBelow(p, drop, PRECISION - 1);
    var rounded := RoundHalfEven(p, drop);
    TopPower();
    if rounded == 0 {
      SmallNumbersHaveOneDigit();
    } else {
      DigitCountFromBounds(rounded, PRECISION);
    }
  }

  lemma OverflowIff(p: nat, e: int)
    requires 0 < p
    ensures Fix(p, e).Overflow? <==> Overflows(p, e)
  {
    hide Pow10, DigitCount, RoundHalfEven;
    var drop: nat := Excess(p, e);
    var digits := DigitCount(p);
    DigitBounds(p);
    TopPower();
    if DigitCount(p) < drop + PRECISION {
      CarryNeedsAllDigits(p, drop);
      PowZeroIsOne();
    } else {
      RoundsToPowerIff(p, drop);
      if DigitCount(RoundHalfEven(p, drop)) > PRECISION {
        CarryIsPower(p, drop);
      }
    }
  }

  lemma WholeIsIntegral(c: nat, e: int)
    requires 0 <= e
    ensures IsIntegral(c, e)
  {
  }

  /** Exactly when the parser is exact, for every positive finite decimal with the
      product p * 10^e: when no non-zero digit of p is dropped, or when p is more
      than half a unit of the last digit kept away from every integer. An overflow
      is harmless only if there was no integer to find. */
  lemma ParserExactIff(c: nat, e: int)
    requires 0 < c
    ensures var p := c * SCALE;
            var unit := Pow10(Excess(p, e));
            ExactOn(c, e) <==>
            if Overflows(p, e) then !IsIntegral(p, e)
            else p % unit == 0 || (e + Excess(p, e) < 0 && unit < 2 * DistanceToInteger(p, e))
  {
    hide Overflows, Fix, IsIntegral, ExactOn, DistanceToInteger, RoundHalfEven, Pow10;
    var p := c * SCALE;
    var drop: nat := Excess(p, e);
    RoundedExactIff(c, e);
    OverflowIff(p, e);
    if Fix(p, e).Fixed? {
      if e + drop < 0 {
        CarryKeepsFraction(p, e, -(e + drop));
        RoundedIsIntegralIff(p, drop, -(e + drop), e);
      } else {
        FixKeepsOrRounds(p, e);
        WholeIsIntegral(Fix(p, e).coefficient, Fix(p, e).exponent);
      }
    }
  }

  lemma FixOfMultiple(q: nat, drop: nat, p: nat, e: int)
    requires 0 < q && DigitCount(q) <= PRECISION
    requires p == q * Pow10(drop) && drop == Excess(p, e)
    requires e + DigitCount(p) - 1 <= EMAX
    ensures !LosesDigits(p, e) && Fix(p, e) == Fixed(q, e + drop)
  {
    DigitCountShift(q, drop);
    DivisionOfMultiple(q, Pow10(drop));
    RoundExact(q, drop);
  }

  /** A coefficient of at most 28 digits with any number of zeros appended fits
      the context without loss. */
  lemma TrailingZerosSurvive(c: nat, m: nat, e: int)
    requires 0 < c && DigitCount(c) <= PRECISION
    requires ETINY <= e && e + DigitCount(c) + m - 1 <= EMAX
    ensures !LosesDigits(c * Pow10(m), e) && Fix(c * Pow10(m), e).Fixed?
  {
    hide Pow10, DigitCount, Fix, LosesDigits, RoundHalfEven;
    var p := c * Pow10(m);
    DigitCountShift(c, m);
    var drop: nat := Excess(p, e);
    assert drop <= m;
    var q := c * Pow10(m - drop);
    PowAdd(m - drop, drop);
    MulAssoc(c, Pow10(m - drop), Pow10(drop));
    DigitCountShift(c, m - drop);
    FixOfMultiple(q, drop, p, e);
  }

  /** For every positive decimal of at most 28 digits whose exponent is in
      range, the parser accepts exactly when the value times 10^6 is an integer,
      returns that integer, and otherwise rejects. */
  lemma ParserExact(c: nat, e: int, n: nat)
    requires 0 < c < Pow10(PRECISION)
    requires ETINY <= e && e + DigitCount(c) + DECIMALS - 1 <= EMAX
    ensures ToBaseUnits(Finite(false, c, e)) == Units(n) <==> Denotes(c * SCALE, e, n)
    ensures ToBaseUnits(Finite(false, c, e)) == Rejected <==> !exists m: nat :: Denotes(c * SCALE, e, m)
  {
    PowSix();
    DigitCountFromBounds(c, PRECISION);
    TrailingZerosSurvive(c, DECIMALS, e);
    RoundedExactIff(c, e);
    assert ExactOn(c, e);
    var parsed := ToBaseUnits(Finite(false, c, e));
    if parsed != Rejected {
      assert Denotes(c * SCALE, e, parsed.units);
    }
  }

  lemma LiteralPowers()
    ensures Pow10(6) == SCALE
    ensures Pow10(7) == 10_000_000
    ensures Pow10(21) == 1_000_000_000_000_000_000_000
    ensures Pow10(27) == 1_000_000_000_000_000_000_000_000_000
    ensures Pow10(28) == 10_000_000_000_000_000_000_000_000_000
    ensures Pow10(34) == 10_000_000_000_000_000_000_000_000_000_000_000
    ensures Pow10(35) == 100_000_000_000_000_000_000_000_000_000_000_000
  {
    PowSix();
    PowAdd(6, 1);
    assert Pow10(1) == 10;
    PowAdd(7, 7);
    PowAdd(14, 7);
    PowAdd(21, 6);
    PowAdd(27, 1);
    PowAdd(28, 6);
    PowAdd(34, 1);
  }

  /** One digit too many: 1.0000000000000000000000000001 is accepted as exactly
      one whole unit of currency although it has 28 decimals. */
  lemma TwentyNineDigitsWronglyAccepted()
    ensures ToBaseUnits(Finite(false, Pow10(28) + 1, -28)) == Units(SCALE)
    ensures !IsIntegral((Pow10(28) + 1) * SCALE, -28)
  {
    LiteralPowers();
    var p := (Pow10(28) + 1) * SCALE;
    DigitCountExact(p, 35);
    DigitCountExact(Pow10(27), 28);
    assert Quotient(p, Pow10(7)) == Pow10(27);
    assert p % Pow10(7) == 1_000_000;
    assert p % Pow10(28) == 1_000_000;
  }

  lemma RoundsToZeroIff(p: nat, drop: nat)
    ensures RoundHalfEven(p, drop) == 0 <==> 2 * p <= Pow10(drop)
  {
    var unit := Pow10(drop);
    assert p == unit * Quotient(p, unit) + p % unit;
    if p < unit {
      SmallQuotient(p, unit);
    }
  }

  lemma ZeroIsIntegral(e: int)
    ensures IsIntegral(0, e) && IntegerValue(0, e) == 0
  {
    IntegralMeansDenotes(0, e, 0);
  }

  lemma OnlyZeroIsZero(c: nat, e: int)
    requires IsIntegral(c, e) && IntegerValue(c, e) == 0
    ensures c == 0
  {
    IntegralMeansDenotes(c, e, 0);
    if 0 <= e && c != 0 {
      MulAtLeast(c, Pow10(e));
    }
  }

  /** The digits dropped for precision alone are never all of them. */
  lemma ZeroMeansBelowRange(p: nat, e: int)
    requires 0 < p && 2 * p <= Pow10(Excess(p, e))
    ensures Excess(p, e) == ETINY - e
  {
    DigitBounds(p);
    if Excess(p, e) != ETINY - e {
      if Excess(p, e) != 0 {
        PowMonotone(Excess(p, e), DigitCount(p) - 1);
      }
    }
  }

  lemma BelowRangeIsDropped(p: nat, e: int)
    requires 0 < p && e < ETINY && 2 * p <= Pow10(ETINY - e)
    ensures Excess(p, e) == ETINY - e
    ensures e + DigitCount(p) - 1 <= EMAX
  {
    DigitCountFromBounds(p, ETINY - e);
  }

  lemma TenthOfLargeIsPositive(n: nat)
    ensures DigitCount(n) > PRECISION ==> n / 10 != 0
  {
    SmallNumbersHaveOneDigit();
  }

  /** Exactly which positive amounts are accepted as zero base units: those that
      are at most half of the context's smallest positive number. */
  lemma TinyAmountAcceptedAsZero(c: nat, e: int)
    requires 0 < c
    ensures ToBaseUnits(Finite(false, c, e)) == Units(0) <==>
            e < ETINY && 2 * (c * SCALE) <= Pow10(ETINY - e)
  {
    hide Pow10, DigitCount, RoundHalfEven, IsIntegral, IntegerValue;
    var p := c * SCALE;
    var drop: nat := Excess(p, e);
    RoundsToZeroIff(p, drop);
    if e < ETINY && 2 * p <= Pow10(ETINY - e) {
      BelowRangeIsDropped(p, e);
      ZeroIsIntegral(ETINY);
      SmallNumbersHaveOneDigit();
    }
    if ToBaseUnits(Finite(false, c, e)) == Units(0) {
      OnlyZeroIsZero(Fix(p, e).coefficient, Fix(p, e).exponent);
      if RoundHalfEven(p, drop) != 0 {
        TenthOfLargeIsPositive(RoundHalfEven(p, drop));
      } else {
        ZeroMeansBelowRange(p, e);
        PowZeroIsOne();
      }
    }
  }
}
