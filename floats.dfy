/**
  Python's `float(...)` conversion and truthiness, for the values the two
  scripts feed them: text scraped from a page or read from a file, and the
  scalars a JSON payload or a table cell decodes to.
*/
module Floats {
  import opened Wrappers
  import opened Text

  /** What `float(s)` does with a string: returns a number, returns NaN, or raises `ValueError`. */
  datatype Parsed = Number(value: real) | NotANumber | Invalid

  /** A Python scalar as delivered by a JSON decoder or a table reader. */
  datatype Value =
    | Null
    | Bool(b: bool)
    | Int(i: int)
    | Float(f: Num)
    | Str(s: string)
    | Container(size: nat)  // a list or a dict with `size` entries

  /** The value of the decimal numeral `whole.fraction`. */
  function Mantissa(whole: string, fraction: string): real
    requires AllDigits(whole) && AllDigits(fraction)
  {
    DigitsValue(whole) as real + DigitsValue(fraction) as real / Pow10(|fraction|) as real
  }

  function Scale(m: real, e: int): real {
    if e >= 0 then m * Pow10(e) as real else m / Pow10(-e) as real
  }

  /** The exponent part `[eE][+-]digits` (or nothing) that may end a numeral. */
  function ParseExponent(s: string): (e: Option<int>)
    ensures s == [] ==> e == Some(0)
  {
    if s == [] then Some(0)
    else if s[0] != 'e' && s[0] != 'E' then None
    else
      var negative := |s| > 1 && s[1] == '-';
      var digits := if |s| > 1 && (s[1] == '-' || s[1] == '+') then s[2..] else s[1..];
      if digits != [] && AllDigits(digits) then
        Some(if negative then -(DigitsValue(digits) as int) else DigitsValue(digits))
      else None
  }

  /** An unsigned numeral: `digits[.digits]` or `.digits`, at least one digit, then an optional exponent. */
  function ParseUnsigned(s: string): Option<real> {
    var i := DigitRunEnd(s, 0);
    var hasPoint := i < |s| && s[i] == '.';
    var j := if hasPoint then DigitRunEnd(s, i + 1) else i;
    var fraction := if hasPoint then s[i + 1..j] else [];
    if i + |fraction| == 0 then None
    else
      match ParseExponent(s[j..])
      case Some(e) => Some(Scale(Mantissa(s[..i], fraction), e))
      case None => None
  }

  /**
    Python's `float(s)` on a string: white space around the numeral is
    ignored, a sign may lead, "nan" in any case gives NaN, and anything
    else that is not a numeral raises.
  */
  /** `body.lower() == "nan"`, spelt out letter by letter. */
  predicate SpellsNan(body: string) {
    |body| == 3 && LowerChar(body[0]) == 'n' && LowerChar(body[1]) == 'a' && LowerChar(body[2]) == 'n'
  }

  function ParseFloat(s: string): Parsed {
    var t := Strip(s);
    var signed := t != [] && (t[0] == '+' || t[0] == '-');
    var body := if signed then t[1..] else t;
    if SpellsNan(body) then NotANumber
    else
      match ParseUnsigned(body)
      case Some(v) => Number(if signed && t[0] == '-' then -v else v)
      case None => Invalid
  }

  /** Python's `float(v)` on a scalar. `None` and containers raise `TypeError`. */
  function FloatOf(v: Value): Parsed {
    match v
    case Null => Invalid
    case Bool(b) => Number(if b then 1.0 else 0.0)
    case Int(i) => Number(i as real)
    case Float(f) => if f.Some? then Number(f.value) else NotANumber
    case Str(s) => ParseFloat(s)
    case Container(_) => Invalid
  }

  /** Python's `bool(v)`: NaN is true; zero, empty text and empty containers are false. */
  predicate Truthy(v: Value) {
    match v
    case Null => false
    case Bool(b) => b
    case Int(i) => i != 0
    case Float(f) => f.None? || f.value != 0.0
    case Str(s) => s != ""
    case Container(n) => n > 0
  }

  /** A decimal numeral `whole.fraction` (the fraction may be empty) converts to its value. */
  lemma ParseDecimal(whole: string, fraction: string)
    requires AllDigits(whole) && AllDigits(fraction) && |whole| > 0
    ensures ParseFloat(whole + "." + fraction) == Number(Mantissa(whole, fraction))
  {
    var s := whole + "." + fraction;
    UnsignedDecimal(whole, fraction);
    PlainNumeral(s);
  }

  /** A numeral of digits alone converts to the number it denotes. */
  lemma ParseWhole(whole: string)
    requires AllDigits(whole) && |whole| > 0
    ensures ParseFloat(whole) == Number(DigitsValue(whole) as real)
  {
    UnsignedWhole(whole);
    PlainNumeral(whole);
  }

  /** A numeral that starts and ends with a digit or a point is converted by `ParseUnsigned` alone. */
  lemma PlainNumeral(s: string)
    requires s != [] && IsDigit(s[0]) && (IsDigit(s[|s| - 1]) || s[|s| - 1] == '.')
    requires ParseUnsigned(s).Some?
    ensures ParseFloat(s) == Number(ParseUnsigned(s).value)
  {
    PlainStrip(s);
    assert !SpellsNan(s);
  }

  lemma PlainStrip(s: string)
    requires s != [] && IsDigit(s[0]) && (IsDigit(s[|s| - 1]) || s[|s| - 1] == '.')
    ensures Strip(s) == s
  {
    TrimStartNoSpace(s);
    TrimEndNoSpace(s);
  }

  lemma UnsignedDecimal(whole: string, fraction: string)
    requires AllDigits(whole) && AllDigits(fraction) && |whole| > 0
    ensures ParseUnsigned(whole + "." + fraction) == Some(Mantissa(whole, fraction))
  {
    var s := whole + "." + fraction;
    assert s[..|whole|] == whole && s[|whole|] == '.';
    assert s[0..|whole|] == whole;
    DigitRunAll(s, 0, |whole|);
    assert s[|whole| + 1..|s|] == fraction;
    DigitRunAll(s, |whole| + 1, |s|);
    assert s[|s|..] == [];
    assert ParseExponent(s[|s|..]) == Some(0);
    assert Scale(Mantissa(whole, fraction), 0) == Mantissa(whole, fraction);
  }

  lemma UnsignedWhole(whole: string)
    requires AllDigits(whole) && |whole| > 0
    ensures ParseUnsigned(whole) == Some(DigitsValue(whole) as real)
  {
    assert whole[0..|whole|] == whole;
    DigitRunAll(whole, 0, |whole|);
    WholeRun(whole);
    WholeValue(whole);
  }

  lemma WholeRun(s: string)
    requires |s| > 0 && DigitRunEnd(s, 0) == |s|
    ensures AllDigits(s[..|s|]) && ParseUnsigned(s) == Some(Scale(Mantissa(s[..|s|], []), 0))
  {
    assert s[|s|..] == [];
    assert ParseExponent(s[|s|..]) == Some(0);
  }

  lemma WholeValue(whole: string)
    requires AllDigits(whole)
    ensures whole[..|whole|] == whole && Mantissa(whole, []) == DigitsValue(whole) as real
    ensures Scale(Mantissa(whole, []), 0) == DigitsValue(whole) as real
  {
    assert whole[..|whole|] == whole;
    assert Mantissa(whole, []) == DigitsValue(whole) as real;
  }

  /** `float(str(n))` gives back `n`. */
  lemma ParseNatToString(n: nat)
    ensures ParseFloat(NatToString(n)) == Number(n as real)
  {
    ParseWhole(NatToString(n));
  }

  lemma {:induction false} DigitRunAll(s: string, i: nat, j: nat)
    requires i <= j <= |s| && AllDigits(s[i..j]) && (j == |s| || !IsDigit(s[j]))
    ensures DigitRunEnd(s, i) == j
    decreases j - i
  {
    if i < j {
      assert s[i] == s[i..j][0];
      assert s[i + 1..j] == s[i..j][1..];
      DigitRunAll(s, i + 1, j);
    }
  }
}
