/** Decimal amounts and integer base units (app/money.py), under the default
    decimal context: 28 digits, exponents within 999999, ROUND_HALF_EVEN
    (General Decimal Arithmetic Specification, "Arithmetic operations"). */
module Money {
  import opened Basics

  const DECIMALS: nat := 6
  const SCALE: nat := 1_000_000
  const PRECISION: nat := 28
  const EMAX: int := 999_999
  const ETINY: int := -1_000_026
  const MAX_EMAX: int := 999_999_999_999_999_999
  const MIN_ETINY: int := -1_999_999_999_999_999_997

  datatype Decimal =
    | Finite(negative: bool, coefficient: nat, exponent: int)
    | Infinity(negative: bool)
    | NotANumber

  /** `Rejected` is a ValueError, reported to the caller as an invalid amount.
      `Crash` is any other exception: it escapes the amount check. */
  datatype Parsed = Units(units: int) | Rejected | Crash

  // ---------------------------------------------------------- arithmetic

  function Pow10(n: nat): (p: nat)
    ensures 1 <= p
  {
    if n == 0 then 1 else 10 * Pow10(n - 1)
  }

  function Quotient(n: nat, unit: nat): nat
    requires 0 < unit
  {
    n / unit
  }

  function DigitCount(n: nat): nat {
    if n < 10 then 1 else 1 + DigitCount(n / 10)
  }

  /** n / 10^drop, rounded half to even. */
  function RoundHalfEven(n: nat, drop: nat): nat {
    var unit := Pow10(drop);
    var q := Quotient(n, unit);
    var r := n % unit;
    if 2 * r > unit || (2 * r == unit && q % 2 == 1) then q + 1 else q
  }

  /** How many digits of a coefficient the context cannot hold. */
  function Excess(coefficient: nat, exponent: int): nat {
    Max(0, Max(DigitCount(coefficient) - PRECISION, ETINY - exponent))
  }

  datatype Fixed = Overflow | Fixed(coefficient: nat, exponent: int)

  /** Rounding a non-negative result into the context. */
  function Fix(coefficient: nat, exponent: int): Fixed {
    if coefficient == 0 then Fixed(0, Min(Max(exponent, ETINY), EMAX))
    else
      var drop := Excess(coefficient, exponent);
      var rounded := RoundHalfEven(coefficient, drop);
      if exponent + DigitCount(coefficient) - 1 > EMAX then Overflow
      else if DigitCount(rounded) <= PRECISION then Fixed(rounded, exponent + drop)
      else if exponent + drop + PRECISION > EMAX then Overflow
      else Fixed(rounded / 10, exponent + drop + 1)
  }

  /** coefficient * 10^exponent is an integer. */
  predicate IsIntegral(coefficient: nat, exponent: int) {
    0 <= exponent || coefficient % Pow10(-exponent) == 0
  }

  function IntegerValue(coefficient: nat, exponent: int): nat {
    if 0 <= exponent then coefficient * Pow10(exponent) else Quotient(coefficient, Pow10(-exponent))
  }

  /** parse_amount_to_base_units, after the string has become a Decimal. */
  function ToBaseUnits(d: Decimal): Parsed {
    match d
    case NotANumber => Crash
    case Infinity(negative) => if negative then Rejected else Crash
    case Finite(negative, coefficient, exponent) =>
      if negative || coefficient == 0 then Rejected
      else match Fix(coefficient * SCALE, exponent)
        case Overflow => Crash
        case Fixed(c, e) => if IsIntegral(c, e) then Units(IntegerValue(c, e)) else Rejected
  }

  // ------------------------------------------------------------- parsing

  predicate IsDigit(c: char) {
    '0' <= c <= '9'
  }

  predicate IsBlank(c: char) {
    c == ' ' || c == '\t' || c == '\n' || c == '\r'
  }

  function TrimLeft(s: string): string {
    if s != "" && IsBlank(s[0]) then TrimLeft(s[1..]) else s
  }

  function TrimRight(s: string): string {
    if s != "" && IsBlank(s[|s| - 1]) then TrimRight(s[..|s| - 1]) else s
  }

  function DropUnderscores(s: string): string {
    if s == "" then ""
    else if s[0] == '_' then DropUnderscores(s[1..])
    else [s[0]] + DropUnderscores(s[1..])
  }

  /** Length of the longest prefix of digits. */
  function Span(s: string): (n: nat)
    ensures n <= |s|
  {
    if s == "" || !IsDigit(s[0]) then 0 else 1 + Span(s[1..])
  }

  /** The number a digit string spells; other characters count as zero. */
  function DigitsValue(s: string): nat {
    if s == "" then 0
    else 10 * DigitsValue(s[..|s| - 1])
         + (if IsDigit(s[|s| - 1]) then s[|s| - 1] as int - '0' as int else 0)
  }

  /** The exponent part, from the letter on; None if it is malformed. */
  function ParseExponent(s: string): Option<int> {
    if s == "" then Some(0)
    else if s[0] != 'e' && s[0] != 'E' then None
    else
      var signed := |s| > 1 && (s[1] == '+' || s[1] == '-');
      var digits := s[if signed then 2 else 1..];
      if digits == "" || Span(digits) != |digits| then None
      else if signed && s[1] == '-' then Some(0 - DigitsValue(digits))
      else Some(DigitsValue(digits))
  }

  function ParseNumber(negative: bool, s: string): Option<Decimal> {
    var whole := Span(s);
    var dotted := whole < |s| && s[whole] == '.';
    var rest := s[if dotted then whole + 1 else whole..];
    var fraction := if dotted then Span(rest) else 0;
    if whole + fraction == 0 then None
    else match ParseExponent(rest[fraction..])
      case None => None
      case Some(exponent) =>
        Some(Finite(negative, DigitsValue(s[..whole] + rest[..fraction]), exponent - fraction))
  }

  function ParseSpecial(negative: bool, s: string): Option<Decimal> {
    var word := Lower(s);
    var payload := if "s" <= word then word[1..] else word;
    if word == "inf" || word == "infinity" then Some(Infinity(negative))
    else if "nan" <= payload && Span(payload[3..]) == |payload| - 3 then Some(NotANumber)
    else None
  }

  /** The number that a text spells; None if it spells none. */
  function ParseDecimal(text: string): Option<Decimal> {
    var s := DropUnderscores(TrimRight(TrimLeft(text)));
    var signed := s != "" && (s[0] == '+' || s[0] == '-');
    var negative := signed && s[0] == '-';
    var body := if signed then s[1..] else s;
    match ParseNumber(negative, body)
    case Some(d) => Some(d)
    case None => ParseSpecial(negative, body)
  }

  /** The constructor converts exactly, whatever the context, and signals an
      invalid operation for exponents beyond the limits of the implementation
      (those of a 64-bit CPython). */
  predicate Constructible(d: Decimal) {
    d.Finite? ==> MIN_ETINY <= d.exponent && d.exponent + DigitCount(d.coefficient) - 1 <= MAX_EMAX
  }

  function ParseAmount(text: string): Parsed {
    match ParseDecimal(text)
    case None => Rejected
    case Some(d) => if Constructible(d) then ToBaseUnits(d) else Rejected
  }

  // ------------------------------------------------------------ printing

  function Spell(n: nat): (s: string)
    ensures s != ""
  {
    var last := [(n % 10 + '0' as int) as char];
    if n < 10 then last else Spell(n / 10) + last
  }

  function Zeros(n: nat): string {
    if n == 0 then "" else Zeros(n - 1) + "0"
  }

  /** The same number without trailing zeros in its coefficient. */
  function Normalize(coefficient: nat, exponent: int): (nat, int) {
    if coefficient == 0 then (0, 0)
    else if coefficient % 10 == 0 then Normalize(coefficient / 10, exponent + 1)
    else (coefficient, exponent)
  }

  /** format(d, "f") for coefficient digits and an exponent: positional notation,
      never an exponent letter. */
  function Plain(digits: string, exponent: int): string {
    if 0 <= exponent then digits + Zeros(exponent)
    else if |digits| <= -exponent then "0" + "." + (Zeros(-exponent - |digits|) + digits)
    else digits[..|digits| + exponent] + "." + digits[|digits| + exponent..]
  }

  /** base_units_to_decimal_string. The quotient is rounded once, to the context;
      the overflow trap, for which "" stands, needs a million digits. */
  function Print(units: nat): string {
    match Fix(units, 0 - DECIMALS)
    case Overflow => ""
    case Fixed(c, e) =>
      var (coefficient, exponent) := Normalize(c, e);
      Plain(Spell(coefficient), exponent)
  }

  /** unique_offset_for_invoice: the primary key of the row. */
  function UniqueOffset(row: nat): nat {
    row + 1
  }
}
