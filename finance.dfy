/**
  The helpers of the financial consolidation script: environment lookups
  with defaults, the default date window, `to_float`, and the transaction
  record every source is normalised to.
*/
module Finance {
  import opened Wrappers
  import opened Text
  import opened Floats
  import opened Dates

  /** The process environment: the variables that are set, with their values. */
  type Environment = map<string, string>

  /** `env(key, default)`: the variable's value, unless it is unset or set to the empty string. */
  function Env(vars: Environment, key: string, default: string): (v: string)
    ensures key in vars && vars[key] != "" ==> v == vars[key]
    ensures key !in vars || vars[key] == "" ==> v == default
    ensures v == "" ==> default == ""
  {
    if key in vars && vars[key] != "" then vars[key] else default
  }

  /** The window `(start, end)` the sources are filtered to, as ISO texts. */
  datatype Window = Window(start: string, end: string)

  /** How many days the default window reaches back from its end. */
  const DefaultSpan: nat := 30

  /**
    `daterange_default()`. `today` is what `utc_today_str()` returns. END_DATE
    defaults to today; START_DATE, when unset, is read off the end date,
    which is read here as a `YYYY-MM-DD` date (any other text is taken as
    one `isoparse` rejects), thirty days earlier (`OverflowError` before
    0001-01-01).
  */
  function DateRangeDefault(vars: Environment, today: string): (r: Result<Window, string>)
    ensures r.Ok? ==> r.value.end == Env(vars, "END_DATE", today)
    ensures Env(vars, "START_DATE", "") != "" ==> r == Ok(Window(vars["START_DATE"], Env(vars, "END_DATE", today)))
    ensures Env(vars, "START_DATE", "") == "" ==>
      var end := ParseIso(Env(vars, "END_DATE", today));
      (r.Ok? <==> end.Some? && DayNumber(end.value) - DefaultSpan >= -EpochOffset)
  {
    var end := Env(vars, "END_DATE", today);
    var start := Env(vars, "START_DATE", "");
    if start != "" then Ok(Window(start, end))
    else
      match ParseIso(end)
      case None => Err("ValueError: invalid ISO date")
      case Some(d) =>
        match MinusDays(d, DefaultSpan)
        case None => Err("OverflowError: date value out of range")
        case Some(s) => Ok(Window(FormatIso(s), end))
  }

  /** The default window ends on END_DATE (or today) and starts exactly thirty days before it. */
  lemma DefaultWindowSpan(vars: Environment, today: string)
    requires Env(vars, "START_DATE", "") == ""
    requires DateRangeDefault(vars, today).Ok?
    ensures var w := DateRangeDefault(vars, today).value;
      && ParseIso(w.start).Some? && ParseIso(w.end).Some?
      && DayNumber(ParseIso(w.start).value) + DefaultSpan == DayNumber(ParseIso(w.end).value)
  {
    var end := ParseIso(Env(vars, "END_DATE", today)).value;
    var s := MinusDays(end, DefaultSpan).value;
    ParseFormatIso(s);
  }

  function NumOf(p: Parsed): Num {
    if p.Number? then Some(p.value) else None
  }

  /**
    `to_float(x)`: `None` and NaN give NaN; text is stripped and every comma
    made a point before `float` reads it; whatever `float` rejects gives
    NaN, so it never raises.
  */
  function ToFloat(x: Value): (r: Num)
    ensures x.Null? || x.Container? ==> r.None?
    ensures x.Float? ==> r == x.f
    ensures x.Int? ==> r == Some(x.i as real)
    ensures x.Bool? ==> r == Some(if x.b then 1.0 else 0.0)
  {
    match x
    case Null => None
    case Str(s) => NumOf(ParseFloat(ReplaceChar(Strip(s), ',', '.')))
    case _ => NumOf(FloatOf(x))
  }

  /** A decimal written with a comma or a point, with white space around it, reads as its value. */
  lemma ToFloatDecimal(pre: string, whole: string, sep: char, fraction: string, post: string)
    requires AllSpace(pre) && AllSpace(post)
    requires AllDigits(whole) && |whole| > 0 && AllDigits(fraction)
    requires sep == ',' || sep == '.'
    ensures ToFloat(Str(pre + (whole + [sep] + fraction) + post)) == Some(Mantissa(whole, fraction))
  {
    var numeral := whole + [sep] + fraction;
    var x := pre + numeral + post;
    NumeralEnds(whole, sep, fraction);
    StripSurrounded(pre, numeral, post);
    CommaToPoint(whole, sep, fraction);
    ParseDecimal(whole, fraction);
    ToFloatText(x);
  }

  lemma ToFloatText(s: string)
    ensures ToFloat(Str(s)) == NumOf(ParseFloat(ReplaceChar(Strip(s), ',', '.')))
  {
  }

  lemma NumeralEnds(whole: string, sep: char, fraction: string)
    requires AllDigits(whole) && |whole| > 0 && AllDigits(fraction)
    requires sep == ',' || sep == '.'
    ensures var numeral := whole + [sep] + fraction;
      !IsSpace(numeral[0]) && !IsSpace(numeral[|numeral| - 1])
  {
    var numeral := whole + [sep] + fraction;
    assert numeral[0] == whole[0];
    assert numeral[|numeral| - 1] == if fraction == [] then sep else fraction[|fraction| - 1];
  }

  lemma CommaToPoint(whole: string, sep: char, fraction: string)
    requires AllDigits(whole) && AllDigits(fraction)
    requires sep == ',' || sep == '.'
    ensures ReplaceChar(whole + [sep] + fraction, ',', '.') == whole + "." + fraction
  {
    var numeral := whole + [sep] + fraction;
    var n := ReplaceChar(numeral, ',', '.');
    forall l | 0 <= l < |numeral| ensures n[l] == (whole + "." + fraction)[l] {
      if l < |whole| {
        assert numeral[l] == whole[l];
      } else if l > |whole| {
        assert numeral[l] == fraction[l - |whole| - 1];
      }
    }
  }

  /** Text holding no digit reads as NaN. */
  lemma ToFloatNoDigit(s: string)
    requires forall i :: 0 <= i < |s| ==> !IsDigit(s[i])
    ensures ToFloat(Str(s)) == None
  {
    var n := ReplaceChar(Strip(s), ',', '.');
    StripHasNoDigit(s);
    StripHasNoDigit(n);
    NoDigitParse(n);
    ToFloatText(s);
  }

  lemma NoDigitParse(n: string)
    requires forall i :: 0 <= i < |Strip(n)| ==> !IsDigit(Strip(n)[i])
    ensures !ParseFloat(n).Number?
  {
    var t := Strip(n);
    var body := if t != [] && (t[0] == '+' || t[0] == '-') then t[1..] else t;
    assert forall i :: 0 <= i < |body| ==> !IsDigit(body[i]);
    NoDigitNoNumeral(body);
  }

  lemma StripHasNoDigit(s: string)
    requires forall i :: 0 <= i < |s| ==> !IsDigit(s[i])
    ensures forall i :: 0 <= i < |Strip(s)| ==> !IsDigit(Strip(s)[i])
    ensures forall i :: 0 <= i < |ReplaceChar(Strip(s), ',', '.')| ==> !IsDigit(ReplaceChar(Strip(s), ',', '.')[i])
  {
    var a := TrimStart(s);
    assert forall i :: 0 <= i < |a| ==> a[i] == s[|s| - |a| + i];
    var b := TrimEnd(a);
    assert forall i :: 0 <= i < |b| ==> b[i] == a[i];
  }

  lemma NoDigitNoNumeral(body: string)
    requires forall i :: 0 <= i < |body| ==> !IsDigit(body[i])
    ensures ParseUnsigned(body).None?
  {
    var i := DigitRunEnd(body, 0);
    assert i == 0;
    if i < |body| && body[i] == '.' {
      assert DigitRunEnd(body, 1) == 1;
    }
  }

  /** `to_float` of what `to_float` returned is the same number or NaN: converting twice changes nothing. */
  lemma ToFloatIdempotent(x: Value)
    ensures ToFloat(Float(ToFloat(x))) == ToFloat(x)
  {
  }

  /**
    A transaction as every source produces it, with the columns `date`,
    `amount`, `currency`, `fee`, `source`, `type`, `status` and `reference`.
    `fee` keeps the value the source gave (it is converted on
    consolidation); `None` in the text columns is a missing (NaN) cell.
  */
  datatype Transaction = Transaction(
    date: string,
    amount: Num,
    currency: string,
    fee: Value,
    source: Option<string>,
    kind: Option<string>,
    status: Option<string>,
    reference: Option<string>)
}
