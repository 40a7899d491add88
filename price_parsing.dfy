/**
  The extraction step of the competitor price monitor
  (`Motorizacion_Precios/Scripts/Motorizacion.py`): reading a price out of
  the text of the selected element with `PRICE_PATTERN` and the separator
  rules of `parse_price`, and classifying the availability text.
*/
module PriceParsing {
  import opened Wrappers
  import opened Text
  import opened Floats

  predicate IsSeparator(c: char) {
    c == '.' || c == ','
  }

  predicate NoDigit(s: string) {
    forall j :: 0 <= j < |s| ==> !IsDigit(s[j])
  }

  /**
    The shape of a token `\d+[.,]?\d*` matches: it starts with a digit, holds
    only digits and separators, and only digits follow a separator.
  */
  predicate PriceTokenShape(t: string) {
    && |t| > 0 && IsDigit(t[0])
    && (forall j :: 0 <= j < |t| ==> IsDigit(t[j]) || IsSeparator(t[j]))
    && (forall j, l :: 0 <= j < l < |t| && IsSeparator(t[j]) ==> IsDigit(t[l]))
  }

  predicate HasSeparator(t: string) {
    exists j :: 0 <= j < |t| && IsSeparator(t[j])
  }

  /** The match `s[i..k]` cannot be extended by the next character. */
  predicate EndsMatch(s: string, i: nat, k: nat)
    requires i <= k <= |s|
  {
    k == |s| || (!IsDigit(s[k]) && (HasSeparator(s[i..k]) || !IsSeparator(s[k])))
  }

  /** The index of the first digit at or after `i`, or `|s|` when there is none. */
  function FirstDigit(s: string, i: nat): (j: nat)
    requires i <= |s|
    ensures i <= j <= |s|
    ensures forall l :: i <= l < j ==> !IsDigit(s[l])
    ensures j < |s| ==> IsDigit(s[j])
    decreases |s| - i
  {
    if i == |s| || IsDigit(s[i]) then i else FirstDigit(s, i + 1)
  }

  /** The end of the match that starts at the digit `s[i]`: the digit run, then a separator and the digit run after it, if a separator follows. */
  function MatchEnd(s: string, i: nat): (k: nat)
    requires i < |s| && IsDigit(s[i])
    ensures i < k <= |s|
    ensures PriceTokenShape(s[i..k]) && EndsMatch(s, i, k)
  {
    var j := DigitRunEnd(s, i);
    var k := if j < |s| && IsSeparator(s[j]) then DigitRunEnd(s, j + 1) else j;
    assert PriceTokenShape(s[i..k]) by {
      forall l | i <= l < k ensures IsDigit(s[l]) || (l == j && IsSeparator(s[l])) {
        if l < j {
          assert s[l] == s[i..j][l - i];
        } else if l > j {
          assert s[l] == s[j + 1..k][l - j - 1];
        }
      }
    }
    assert EndsMatch(s, i, k) by {
      if k < |s| && k != j {
        assert s[i..k][j - i] == s[j];
      }
    }
    k
  }

  /**
    `PRICE_PATTERN.search(s)` with `PRICE_PATTERN = (\d+[.,]?\d*)`: the span
    `[start, end)` of the leftmost match. The greedy pattern takes every
    digit, then a separator if one follows, then every digit after it.
  */
  function PriceMatch(s: string): (m: Option<(nat, nat)>)
    ensures m.None? <==> NoDigit(s)
    ensures m.Some? ==>
      var (i, k) := m.value;
      && i < k <= |s| && NoDigit(s[..i])
      && PriceTokenShape(s[i..k]) && EndsMatch(s, i, k)
  {
    var i := FirstDigit(s, 0);
    assert NoDigit(s[..i]) by {
      forall l | 0 <= l < i ensures !IsDigit(s[..i][l]) {
        assert s[..i][l] == s[l];
      }
    }
    if i == |s| then
      assert s[..i] == s;
      None
    else
      Some((i, MatchEnd(s, i)))
  }

  /**
    The separator rule of `parse_price`: a token holding both `,` and `.` is
    read the European way (dots removed, the comma made the decimal point);
    otherwise every comma becomes a point.
  */
  function NormaliseToken(raw: string): string {
    if Count(raw, ',') > 0 && Count(raw, '.') > 0 then
      ReplaceChar(RemoveChar(raw, '.'), ',', '.')
    else
      ReplaceChar(raw, ',', '.')
  }

  /**
    `parse_price(text)`: non-breaking spaces become spaces, the first token
    `PRICE_PATTERN` finds is normalised and converted with `float`; no token,
    or a failed conversion, gives nothing.
  */
  function ParsePrice(text: string): Option<real> {
    var t := ReplaceChar(text, NoBreakSpace, ' ');
    match PriceMatch(t)
    case None => None
    case Some((i, k)) =>
      match ParseFloat(NormaliseToken(t[i..k]))
      case Number(v) => Some(v)
      case _ => None
  }

  /** The number a token of that shape denotes when its one separator, whichever it is, is read as the decimal point. */
  function TokenValue(t: string): real
    requires PriceTokenShape(t)
  {
    var p := DigitRunEnd(t, 0);
    TokenSplit(t, p);
    Mantissa(t[..p], if p < |t| then t[p + 1..] else [])
  }

  lemma TokenSplit(t: string, p: nat)
    requires PriceTokenShape(t) && p == DigitRunEnd(t, 0)
    ensures 0 < p <= |t| && AllDigits(t[..p])
    ensures p < |t| ==> IsSeparator(t[p]) && AllDigits(t[p + 1..])
  {
    assert t[..p] == t[0..p];
    if p < |t| {
      forall l | p + 1 <= l < |t| ensures IsDigit(t[l]) {
        assert IsSeparator(t[p]);
      }
      var u := t[p + 1..];
      forall l | 0 <= l < |u| ensures IsDigit(u[l]) {
        assert u[l] == t[p + 1 + l];
      }
    }
  }

  /**
    A token `PRICE_PATTERN` can match never holds both separators, so the
    European branch of `parse_price` is never taken on its own match:
    the normalisation only ever replaces a comma by a point.
  */
  lemma EuropeanBranchUnreachable(t: string)
    requires PriceTokenShape(t)
    ensures !(Count(t, ',') > 0 && Count(t, '.') > 0)
    ensures NormaliseToken(t) == ReplaceChar(t, ',', '.')
  {
  }

  /** The token with its separator, if any, written as a point. */
  function PointForm(t: string): string
    requires PriceTokenShape(t)
  {
    var p := DigitRunEnd(t, 0);
    if p < |t| then t[..p] + "." + t[p + 1..] else t
  }

  lemma NormalisedIsPointForm(t: string)
    requires PriceTokenShape(t)
    ensures NormaliseToken(t) == PointForm(t)
  {
    EuropeanBranchUnreachable(t);
    var p := DigitRunEnd(t, 0);
    TokenSplit(t, p);
    if p == |t| {
      NoSeparatorUnchanged(t, p);
    } else {
      SeparatorToPoint(t, p);
    }
  }

  lemma NoSeparatorUnchanged(t: string, p: nat)
    requires PriceTokenShape(t) && p == DigitRunEnd(t, 0) == |t|
    ensures ReplaceChar(t, ',', '.') == PointForm(t)
  {
    TokenSplit(t, p);
    var n := ReplaceChar(t, ',', '.');
    forall l | 0 <= l < |t| ensures n[l] == t[l] {
      assert IsDigit(t[..p][l]);
    }
  }

  lemma SeparatorToPoint(t: string, p: nat)
    requires PriceTokenShape(t) && p == DigitRunEnd(t, 0) < |t|
    ensures ReplaceChar(t, ',', '.') == PointForm(t)
  {
    TokenSplit(t, p);
    var n := ReplaceChar(t, ',', '.');
    var w, f := t[..p], t[p + 1..];
    var m := w + "." + f;
    assert PointForm(t) == m;
    assert |n| == |t| == |m|;
    forall l | 0 <= l < |t| ensures n[l] == m[l] {
      if l < p {
        assert t[l] == w[l] && m[l] == w[l];
      } else if l == p {
        assert m[l] == '.';
      } else {
        assert t[l] == f[l - p - 1] && m[l] == f[l - p - 1];
      }
    }
  }

  /** The normalised token is a numeral `float` accepts, and it denotes the token's value. */
  lemma ConvertToken(t: string)
    requires PriceTokenShape(t)
    ensures ParseFloat(NormaliseToken(t)) == Number(TokenValue(t))
  {
    NormalisedIsPointForm(t);
    PointFormValue(t);
  }

  lemma PointFormValue(t: string)
    requires PriceTokenShape(t)
    ensures ParseFloat(PointForm(t)) == Number(TokenValue(t))
  {
    var p := DigitRunEnd(t, 0);
    TokenSplit(t, p);
    if p == |t| {
      WholeToken(t, p);
    } else {
      DecimalToken(t, p);
    }
  }

  lemma WholeToken(t: string, p: nat)
    requires PriceTokenShape(t) && p == DigitRunEnd(t, 0) == |t|
    ensures ParseFloat(PointForm(t)) == Number(TokenValue(t))
  {
    TokenSplit(t, p);
    assert t[..p] == t;
    assert PointForm(t) == t;
    assert TokenValue(t) == Mantissa(t, []);
    WholeValue(t);
    ParseWhole(t);
  }

  lemma DecimalToken(t: string, p: nat)
    requires PriceTokenShape(t) && p == DigitRunEnd(t, 0) < |t|
    ensures ParseFloat(PointForm(t)) == Number(TokenValue(t))
  {
    TokenSplit(t, p);
    var w, f := t[..p], t[p + 1..];
    assert PointForm(t) == w + "." + f;
    assert TokenValue(t) == Mantissa(w, f);
    ParseDecimal(w, f);
  }

  /**
    `parse_price` gives nothing exactly when the text holds no digit: once a
    token is found, the conversion cannot fail, and the price is the token's
    value with either separator read as the decimal point.
  */
  lemma ParsePriceMeaning(text: string)
    ensures ParsePrice(text).None? <==> NoDigit(text)
    ensures PriceMatch(ReplaceChar(text, NoBreakSpace, ' ')).Some? ==>
      var (i, k) := PriceMatch(ReplaceChar(text, NoBreakSpace, ' ')).value;
      ParsePrice(text) == Some(TokenValue(ReplaceChar(text, NoBreakSpace, ' ')[i..k]))
  {
    var t := ReplaceChar(text, NoBreakSpace, ' ');
    assert NoDigit(t) <==> NoDigit(text) by {
      assert forall j :: 0 <= j < |t| ==> (IsDigit(t[j]) <==> IsDigit(text[j]));
    }
    match PriceMatch(t)
    case None =>
    case Some((i, k)) =>
      ConvertToken(t[i..k]);
  }

  /** Replacing non-breaking spaces by spaces never changes what `PRICE_PATTERN` finds. */
  lemma NoBreakSpaceIrrelevant(text: string)
    ensures PriceMatch(ReplaceChar(text, NoBreakSpace, ' ')) == PriceMatch(text)
    ensures PriceMatch(text).Some? ==>
      var (i, k) := PriceMatch(text).value;
      ReplaceChar(text, NoBreakSpace, ' ')[i..k] == text[i..k]
  {
    var t := ReplaceChar(text, NoBreakSpace, ' ');
    ReplaceKeepsClasses(text);
    AgreeMatch(t, text);
  }

  lemma AgreeMatch(a: string, b: string)
    requires Agree(a, b)
    ensures PriceMatch(a) == PriceMatch(b)
    ensures PriceMatch(b).Some? ==> var (i, k) := PriceMatch(b).value; a[i..k] == b[i..k]
  {
    AgreeFirstDigit(a, b, 0);
    var i := FirstDigit(b, 0);
    if i < |b| {
      AgreeMatchEnd(a, b, i);
      AgreeSlice(a, b, i, MatchEnd(b, i));
    }
  }

  lemma AgreeSlice(a: string, b: string, i: nat, k: nat)
    requires Agree(a, b) && i <= k <= |b| && PriceTokenShape(b[i..k])
    ensures a[i..k] == b[i..k]
  {
    forall l | i <= l < k ensures a[l] == b[l] {
      assert IsDigit(b[i..k][l - i]) || IsSeparator(b[i..k][l - i]);
    }
  }

  /** Two strings of one length that agree wherever either has a digit or a separator. */
  predicate Agree(a: string, b: string) {
    && |a| == |b|
    && forall j :: 0 <= j < |a| && (IsDigit(a[j]) || IsSeparator(a[j]) || IsDigit(b[j]) || IsSeparator(b[j])) ==> a[j] == b[j]
  }

  lemma ReplaceKeepsClasses(text: string)
    ensures Agree(ReplaceChar(text, NoBreakSpace, ' '), text)
  {
  }

  lemma {:induction false} AgreeFirstDigit(a: string, b: string, i: nat)
    requires i <= |b| && Agree(a, b)
    ensures FirstDigit(a, i) == FirstDigit(b, i)
    decreases |b| - i
  {
    if i < |b| && !IsDigit(b[i]) {
      AgreeFirstDigit(a, b, i + 1);
    }
  }

  lemma {:induction false} AgreeDigitRun(a: string, b: string, i: nat)
    requires i <= |b| && Agree(a, b)
    ensures DigitRunEnd(a, i) == DigitRunEnd(b, i)
    decreases |b| - i
  {
    if i < |b| && IsDigit(b[i]) {
      AgreeDigitRun(a, b, i + 1);
    }
  }

  lemma AgreeMatchEnd(a: string, b: string, i: nat)
    requires i < |b| && IsDigit(b[i]) && Agree(a, b)
    ensures IsDigit(a[i]) && MatchEnd(a, i) == MatchEnd(b, i)
  {
    AgreeDigitRun(a, b, i);
    var j := DigitRunEnd(b, i);
    if j < |b| {
      AgreeDigitRun(a, b, j + 1);
    }
  }

  /** The phrases whose presence marks an item as unavailable. */
  const OutOfStockPhrases: seq<string> := ["out of stock", "agotado", "sin stock", "no disponible"]

  /** Python's `any(k in text for k in phrases)`. */
  function MentionsAny(text: string, phrases: seq<string>): (r: bool)
    ensures r <==> exists p :: p in phrases && Contains(text, p)
  {
    if phrases == [] then false
    else Contains(text, phrases[0]) || MentionsAny(text, phrases[1..])
  }

  /**
    The stock heuristic of `monitor`: no text means unknown; otherwise the
    item is out of stock exactly when the (already lower-cased) text
    contains one of the phrases.
  */
  function InStock(stockText: Option<string>): (r: Option<bool>)
    ensures stockText.None? <==> r.None?
    ensures stockText.Some? ==>
      (r == Some(false) <==> exists p :: p in OutOfStockPhrases && Contains(stockText.value, p))
    ensures stockText.Some? ==>
      (r == Some(true) <==> forall p :: p in OutOfStockPhrases ==> !Contains(stockText.value, p))
  {
    match stockText
    case None => None
    case Some(t) => Some(!MentionsAny(t, OutOfStockPhrases))
  }

  /** An element of the fetched page: its text pieces in document order. */
  datatype Element = Element(pieces: seq<string>)

  /**
    A fetched page as `soup.select_one` sees it: for each selector, the first
    element it selects. Parsing the HTML and matching CSS selectors is the
    parser's business and is taken as given.
  */
  type Page = map<string, Element>

  /** `separator.join(pieces)` over the pieces that are not empty once stripped. */
  function JoinStripped(pieces: seq<string>, separator: string): string {
    if pieces == [] then ""
    else
      var rest := JoinStripped(pieces[1..], separator);
      var head := Strip(pieces[0]);
      if head == "" then rest
      else if rest == "" then head
      else head + separator + rest
  }

  /** `element.get_text(separator, strip=True)`. */
  function GetText(e: Element, separator: string): string {
    JoinStripped(e.pieces, separator)
  }

  /**
    `extract_price_and_stock`: the price read from the price element's text,
    and the lower-cased text of the stock element when a stock selector is
    configured and matches.
  */
  function ExtractPriceAndStock(page: Page, priceSelector: string, stockSelector: Option<string>): (r: (Option<real>, Option<string>))
    ensures priceSelector !in page ==> r.0.None?
    ensures priceSelector in page ==> r.0 == ParsePrice(GetText(page[priceSelector], ""))
    ensures r.1.Some? <==> stockSelector.Some? && stockSelector.value != "" && stockSelector.value in page
    ensures r.1.Some? ==> r.1.value == Lower(GetText(page[stockSelector.value], " "))
  {
    var price := if priceSelector in page then ParsePrice(GetText(page[priceSelector], "")) else None;
    var stockText :=
      if stockSelector.Some? && stockSelector.value != "" && stockSelector.value in page
      then Some(Lower(GetText(page[stockSelector.value], " ")))
      else None;
    (price, stockText)
  }

  predicate NoCapitals(s: string) {
    forall l :: 0 <= l < |s| ==> !('A' <= s[l] <= 'Z')
  }

  lemma PhrasesAreLowerCase()
    ensures forall p :: p in OutOfStockPhrases ==> NoCapitals(p)
  {
  }

  /**
    An out-of-stock phrase written in capitals is still recognised, because
    the extractor lower-cases the stock text before the heuristic reads it.
  */
  lemma ShoutedPhrase(text: string, p: string, i: nat)
    requires p in OutOfStockPhrases && OccursAt(text, Upper(p), i)
    ensures InStock(Some(Lower(text))) == Some(false)
  {
    PhrasesAreLowerCase();
    CapitalsFolded(text, p, i);
  }

  /** Lower-casing a text turns a capitalised occurrence of a phrase without capitals back into the phrase. */
  lemma CapitalsFolded(text: string, p: string, i: nat)
    requires NoCapitals(p) && OccursAt(text, Upper(p), i)
    ensures OccursAt(Lower(text), p, i)
  {
    var piece := Lower(text)[i..i + |p|];
    forall l | 0 <= l < |p| ensures piece[l] == p[l] {
      assert piece[l] == LowerChar(text[i + l]);
      assert text[i + l] == text[i..i + |p|][l] == UpperChar(p[l]);
    }
  }

  /** One text piece reads as itself, stripped. */
  lemma GetTextSingle(piece: string, separator: string)
    ensures GetText(Element([piece]), separator) == Strip(piece)
  {
    assert [piece][1..] == [];
    assert JoinStripped([], separator) == "";
  }

  /**
    A comma and a point are both read as the decimal point, after any text
    without digits: "19,99", "19.99" and "€45,00" read as 19.99, 19.99 and 45.
  */
  lemma EitherSeparatorIsDecimal(prefix: string, whole: string, sep: char, fraction: string, suffix: string)
    requires NoDigit(prefix) && |whole| > 0 && AllDigits(whole) && AllDigits(fraction) && IsSeparator(sep)
    requires suffix == [] || !IsDigit(suffix[0])
    ensures ParsePrice(prefix + whole + [sep] + fraction + suffix) == Some(Mantissa(whole, fraction))
  {
    var text := prefix + whole + [sep] + fraction + suffix;
    var i := |prefix|;
    assert text[i..i + |whole| + 1 + |fraction|] == whole + [sep] + fraction;
    forall l | 0 <= l < i ensures !IsDigit(text[l]) {
      assert text[l] == prefix[l];
    }
    if suffix != [] {
      assert text[i + |whole| + 1 + |fraction|] == suffix[0];
    }
    PriceOf(text, i, whole, sep, fraction);
  }

  /**
    A price written with both separators, thousands first, is cut at the
    second one: "1.234,56" reads as 1.234, not 1234.56.
  */
  lemma EuropeanThousandsCut(whole: string, thousands: string, cents: string)
    requires |whole| > 0 && AllDigits(whole) && AllDigits(thousands) && AllDigits(cents)
    ensures ParsePrice(whole + "." + thousands + "," + cents) == Some(Mantissa(whole, thousands))
  {
    var text := whole + "." + thousands + "," + cents;
    var k := |whole| + 1 + |thousands|;
    assert text[0..k] == whole + ['.'] + thousands;
    assert text[k] == ',';
    PriceOf(text, 0, whole, '.', thousands);
  }

  /**
    The shared step of the concrete examples: the text holds no digit before
    index `i`, then `whole`, the separator `sep` and `fraction`, and the
    match ends there.
  */
  lemma PriceOf(text: string, i: nat, whole: string, sep: char, fraction: string)
    requires |whole| > 0 && AllDigits(whole) && AllDigits(fraction) && IsSeparator(sep)
    requires i + |whole| + 1 + |fraction| <= |text|
    requires forall l :: 0 <= l < i ==> !IsDigit(text[l])
    requires text[i..i + |whole| + 1 + |fraction|] == whole + [sep] + fraction
    requires i + |whole| + 1 + |fraction| == |text| || !IsDigit(text[i + |whole| + 1 + |fraction|])
    ensures ParsePrice(text) == Some(Mantissa(whole, fraction))
  {
    var w := |whole|;
    var k := i + w + 1 + |fraction|;
    MatchOf(text, i, whole, sep, fraction);
    var t := text[i..k];
    assert t[0..w] == whole;
    DigitRunAll(t, 0, w);
    assert t[..w] == whole && t[w + 1..] == fraction;
    assert TokenValue(t) == Mantissa(whole, fraction);
    ParsePriceAt(text, i, k);
  }

  lemma MatchOf(text: string, i: nat, whole: string, sep: char, fraction: string)
    requires |whole| > 0 && AllDigits(whole) && AllDigits(fraction) && IsSeparator(sep)
    requires i + |whole| + 1 + |fraction| <= |text|
    requires forall l :: 0 <= l < i ==> !IsDigit(text[l])
    requires text[i..i + |whole| + 1 + |fraction|] == whole + [sep] + fraction
    requires i + |whole| + 1 + |fraction| == |text| || !IsDigit(text[i + |whole| + 1 + |fraction|])
    ensures i < |text| && IsDigit(text[i]) && FirstDigit(text, 0) == i
    ensures MatchEnd(text, i) == i + |whole| + 1 + |fraction|
  {
    MatchStartOf(text, i, whole, sep, fraction);
    MatchEndOf(text, i, whole, sep, fraction);
  }

  lemma MatchStartOf(text: string, i: nat, whole: string, sep: char, fraction: string)
    requires |whole| > 0 && AllDigits(whole)
    requires i + |whole| + 1 + |fraction| <= |text|
    requires forall l :: 0 <= l < i ==> !IsDigit(text[l])
    requires text[i..i + |whole| + 1 + |fraction|] == whole + [sep] + fraction
    ensures i < |text| && IsDigit(text[i]) && FirstDigit(text, 0) == i
  {
    SplitToken(text, i, whole, sep, fraction);
    FirstDigitAt(text, 0, i);
  }

  lemma MatchEndOf(text: string, i: nat, whole: string, sep: char, fraction: string)
    requires |whole| > 0 && AllDigits(whole) && AllDigits(fraction) && IsSeparator(sep)
    requires i + |whole| + 1 + |fraction| <= |text|
    requires text[i..i + |whole| + 1 + |fraction|] == whole + [sep] + fraction
    requires i + |whole| + 1 + |fraction| == |text| || !IsDigit(text[i + |whole| + 1 + |fraction|])
    ensures i < |text| && IsDigit(text[i])
    ensures MatchEnd(text, i) == i + |whole| + 1 + |fraction|
  {
    var w := |whole|;
    var k := i + w + 1 + |fraction|;
    SplitToken(text, i, whole, sep, fraction);
    DigitRunAll(text, i, i + w);
    DigitRunAll(text, i + w + 1, k);
  }

  lemma SplitToken(text: string, i: nat, whole: string, sep: char, fraction: string)
    requires |whole| > 0 && i + |whole| + 1 + |fraction| <= |text|
    requires text[i..i + |whole| + 1 + |fraction|] == whole + [sep] + fraction
    ensures text[i..i + |whole|] == whole && text[i + |whole|] == sep
    ensures text[i + |whole| + 1..i + |whole| + 1 + |fraction|] == fraction
    ensures text[i] == whole[0]
  {
    var w := |whole|;
    var k := i + w + 1 + |fraction|;
    var u := text[i..k];
    assert text[i..i + w] == u[..w];
    assert text[i + w + 1..k] == u[w + 1..];
    assert u[w] == sep;
  }

  lemma ParsePriceAt(text: string, i: nat, k: nat)
    requires i < |text| && IsDigit(text[i]) && FirstDigit(text, 0) == i && MatchEnd(text, i) == k
    ensures ParsePrice(text) == Some(TokenValue(text[i..k]))
  {
    assert PriceMatch(text) == Some((i, k));
    NoBreakSpaceIrrelevant(text);
    ConvertToken(text[i..k]);
  }

  lemma {:induction false} FirstDigitAt(s: string, m: nat, i: nat)
    requires m <= i < |s| && IsDigit(s[i])
    requires forall l :: m <= l < i ==> !IsDigit(s[l])
    ensures FirstDigit(s, m) == i
    decreases i - m
  {
    if m < i {
      FirstDigitAt(s, m + 1, i);
    }
  }
}
