/**
  `consolidate` and `compute_kpis`: every transaction converted into the
  base currency with the FX rates, then rolled up per calendar day and per
  (day, source) into gross sales, refunds, fees and net revenue.
*/
module Kpis {
  import opened Wrappers
  import opened Text
  import opened Floats
  import opened Dates
  import opened Finance
  import opened FxRates

  /** A consolidated transaction: the original columns and the ones `consolidate` adds. */
  datatype Row = Row(tx: Transaction, fee: real, amountBase: Num, feeBase: Num, baseCurrency: string)

  /** `fx_rates.get(str(currency).upper(), nan)`. */
  function Rate(fx: Rates, currency: string): Num {
    if Upper(currency) in fx then fx[Upper(currency)] else None
  }

  /** Multiplication where NaN absorbs. */
  function Times(a: Num, b: Num): (p: Num)
    ensures p.Some? <==> a.Some? && b.Some?
  {
    if a.Some? && b.Some? then Some(a.value * b.value) else None
  }

  /** A value in `currency` expressed in the base currency: NaN when either it or the rate is NaN. */
  function InBase(x: Num, fx: Rates, currency: string): Num {
    Times(x, Rate(fx, currency))
  }

  /** One transaction consolidated: its fee as a number (NaN made 0), and amount and fee at the currency's rate. */
  function Consolidated(tx: Transaction, base: string, fx: Rates): Row {
    var fee := ToFloat(tx.fee).GetOr(0.0);
    Row(tx, fee, InBase(tx.amount, fx, tx.currency), InBase(Some(fee), fx, tx.currency), base)
  }

  /** `consolidate(transactions, base, fx)`: one row per transaction, in order; no transactions give no rows. */
  function Consolidate(txs: seq<Transaction>, base: string, fx: Rates): (rows: seq<Row>)
    ensures |rows| == |txs|
    ensures forall i :: 0 <= i < |txs| ==> rows[i] == Consolidated(txs[i], base, fx)
  {
    seq(|txs|, i requires 0 <= i < |txs| => Consolidated(txs[i], base, fx))
  }

  /**
    Amount and fee are both converted at the rate of the transaction's
    currency; a currency the rates do not know gives NaN base amounts; a
    NaN fee counts as 0; every row carries the base currency.
  */
  lemma ConsolidatedFacts(tx: Transaction, base: string, fx: Rates)
    ensures var r := Consolidated(tx, base, fx);
      && r.tx == tx && r.baseCurrency == base
      && r.amountBase == InBase(tx.amount, fx, tx.currency) && r.feeBase == InBase(Some(r.fee), fx, tx.currency)
      && (ToFloat(tx.fee).None? ==> r.fee == 0.0)
      && (ToFloat(tx.fee).Some? ==> r.fee == ToFloat(tx.fee).value)
      && (Upper(tx.currency) !in fx ==> r.amountBase.None? && r.feeBase.None?)
      && (r.amountBase.Some? <==> tx.amount.Some? && Rate(fx, tx.currency).Some?)
  {
  }

  /**
    With the rates `fetch_fx_timeseries` returns, an amount already in the
    base currency is kept as it is, and its fee too.
  */
  lemma BaseCurrencyKept(tx: Transaction, base: string, reply: FxReply)
    requires reply != FxPayload([])
    requires Upper(tx.currency) == Upper(base)
    ensures var r := Consolidated(tx, base, FxRatesOf(base, reply));
      r.amountBase == tx.amount && r.feeBase == Some(r.fee)
  {
    BasePinned(base, reply);
  }

  /** At a known rate, the base value is the value times the rate. */
  lemma AtRate(x: real, fx: Rates, currency: string, r: real)
    requires Rate(fx, currency) == Some(r)
    ensures InBase(Some(x), fx, currency).Some? && InBase(Some(x), fx, currency).value == x * r
  {
  }

  /** Multiplying by the inverse of `q` divides by `q`. */
  lemma TimesInverse(x: real, r: real, q: real)
    requires q != 0.0 && r == 1.0 / q
    ensures x * r == x / q
  {
  }

  /**
    For a currency whose rate is the inverse of a numeric non-zero quote `q`
    ("1 base = q currency"), as `FxRates.QuotedCurrency` shows for the
    currencies of the latest day, the base value is the value divided by `q`.
  */
  lemma ConversionAtQuote(x: real, fx: Rates, currency: string, quote: Value, q: real)
    requires Upper(currency) in fx && fx[Upper(currency)] == InvertRate(quote)
    requires FloatOf(quote) == Number(q) && q != 0.0 && Truthy(quote)
    ensures InBase(Some(x), fx, currency).Some? && InBase(Some(x), fx, currency).value == x / q
  {
    var r := RateOfQuote(fx, currency, Upper(currency), quote, q);
    TimesInverse(x, r, q);
    AtRate(x, fx, currency, r);
  }

  /** The rate stored for a quote is the inverse of the quoted number. */
  lemma RateOfQuote(fx: Rates, currency: string, code: string, quote: Value, q: real) returns (r: real)
    requires code in fx && fx[code] == InvertRate(quote) && FloatOf(quote) == Number(q) && q != 0.0 && Truthy(quote)
    requires Upper(currency) == code
    ensures Rate(fx, currency) == Some(r) && r == 1.0 / q
  {
    r := InvertRate(quote).value;
  }

  /** The rollup of a group of rows. */
  datatype Kpi = Kpi(gross: real, refunds: real, fees: real, net: real)

  /** The daily table, keyed by day number, and the table per (day number, source). */
  datatype Tables = Tables(daily: map<int, Kpi>, bySource: map<(int, string), Kpi>)

  /** What a row adds to gross sales: its base amount when positive (NaN is neither positive nor negative). */
  function Sale(r: Row): real {
    var a := r.amountBase;
    if a.Some? && a.value > 0.0 then a.value else 0.0
  }

  /** What a row adds to refunds: the size of its base amount when negative. */
  function Refund(r: Row): real {
    var a := r.amountBase;
    if a.Some? && a.value < 0.0 then -a.value else 0.0
  }

  /** What a row adds to fees: its base fee, NaN being skipped by `sum`. */
  function Fee(r: Row): real {
    r.feeBase.GetOr(0.0)
  }

  /** Its base amount whatever the sign, NaN counting as nothing. */
  function Known(r: Row): real {
    r.amountBase.GetOr(0.0)
  }

  /** The sum of `part` over the rows. */
  function Total(rows: seq<Row>, part: Row -> real): real
    decreases |rows|
  {
    if rows == [] then 0.0
    else Total(rows[..|rows| - 1], part) + part(rows[|rows| - 1])
  }

  /** `s[s > 0].sum()`, `-s[s < 0].sum()` and `fee_base.sum()` of a group, and the net revenue from them. */
  function KpiOf(rows: seq<Row>): Kpi {
    var g, r, f := Total(rows, Sale), Total(rows, Refund), Total(rows, Fee);
    Kpi(g, r, f, g - r - f)
  }

  function GrossOf(k: Kpi): real { k.gross }
  function RefundsOf(k: Kpi): real { k.refunds }
  function FeesOf(k: Kpi): real { k.fees }

  /**
    In every group, gross sales and refunds are never negative, and gross
    sales less refunds is the sum of the known base amounts, so net revenue
    is that sum less the fees.
  */
  lemma {:induction false} KpiSigns(rows: seq<Row>)
    ensures KpiOf(rows).gross >= 0.0 && KpiOf(rows).refunds >= 0.0
    ensures KpiOf(rows).gross - KpiOf(rows).refunds == Total(rows, Known)
    ensures KpiOf(rows).net == Total(rows, Known) - KpiOf(rows).fees
    decreases |rows|
  {
    if rows != [] {
      KpiSigns(rows[..|rows| - 1]);
    }
  }

  /**
    The day of a date text as `pd.to_datetime` reads it: the empty text and
    the spellings of NaT have none; an ISO date a `Timestamp` can hold has
    one; anything else raises.
  */
  function DayOf(date: string): (r: Result<Option<int>, string>)
    ensures r.Ok? <==> date in NaTStrings || date == "" || (ParseIso(date).Some? && InTimestampRange(ParseIso(date).value))
    ensures r.Ok? && r.value.Some? ==> ParseIso(date).Some? && r.value.value == DayNumber(ParseIso(date).value)
    ensures r == Ok(None) <==> date in NaTStrings || date == ""
  {
    if date in NaTStrings || date == "" then Ok(None)
    else
      match ParseIso(date)
      case None => Err("ValueError: unknown datetime format")
      case Some(d) => if InTimestampRange(d) then Ok(Some(DayNumber(d))) else Err("OutOfBoundsDatetime")
  }

  function RowDay(r: Row): Result<Option<int>, string> {
    DayOf(r.tx.date)
  }

  /** The day a row is grouped under: none when its date is missing or cannot be read. */
  function DayAt(r: Row): Option<int> {
    match DayOf(r.tx.date)
    case Ok(d) => d
    case Err(_) => None
  }

  function Same(r: Row): Row { r }

  /** The rows that pass `keep`, in order. */
  function Group(rows: seq<Row>, keep: Row -> bool): seq<Row> {
    MapFilter(rows, Same, keep)
  }

  /** Dated on day `d`. */
  function On(d: int): Row -> bool {
    (r: Row) => DayAt(r) == Some(d)
  }

  /** Dated on day `d`, from source `s`. */
  function OnFrom(d: int, s: string): Row -> bool {
    (r: Row) => DayAt(r) == Some(d) && r.tx.source == Some(s)
  }

  /** Dated on a day from `lo` to `hi`. */
  function Within(lo: int, hi: int): Row -> bool {
    (r: Row) => DayAt(r).Some? && lo <= DayAt(r).value <= hi
  }

  /** Dated at all. */
  function Dated(): Row -> bool {
    (r: Row) => DayAt(r).Some?
  }

  /** The day of each row. */
  function Days(rows: seq<Row>): (days: seq<Option<int>>)
    ensures |days| == |rows| && forall i :: 0 <= i < |rows| ==> days[i] == DayAt(rows[i])
  {
    seq(|rows|, i requires 0 <= i < |rows| => DayAt(rows[i]))
  }

  /** The first and last day of a sequence of days, or none when none is present. */
  function Span(days: seq<Option<int>>): (r: Option<(int, int)>)
    ensures r.None? <==> forall i :: 0 <= i < |days| ==> days[i].None?
    ensures r.Some? ==> r.value.0 <= r.value.1
    ensures r.Some? ==> forall i :: 0 <= i < |days| && days[i].Some? ==> r.value.0 <= days[i].value <= r.value.1
    ensures r.Some? ==> exists i :: 0 <= i < |days| && days[i] == Some(r.value.0)
    ensures r.Some? ==> exists i :: 0 <= i < |days| && days[i] == Some(r.value.1)
    decreases |days|
  {
    if days == [] then None
    else
      var n := |days| - 1;
      var s := Span(days[..n]);
      assert forall i :: 0 <= i < n ==> days[..n][i] == days[i];
      if days[n].None? then s
      else
        var d := days[n].value;
        if s.None? then Some((d, d))
        else
          Some((if d < s.value.0 then d else s.value.0, if d > s.value.1 then d else s.value.1))
  }

  /** Every day from the first to the last dated row, empty days included, with the rollup of that day's rows. */
  function Daily(rows: seq<Row>): map<int, Kpi> {
    match Span(Days(rows))
    case None => map[]
    case Some((lo, hi)) => map d | lo <= d <= hi :: KpiOf(Group(rows, On(d)))
  }

  /** The (day, source) pairs some row has: rows without a date or a source are in no group. */
  function Pairs(rows: seq<Row>): set<(int, string)> {
    set i | 0 <= i < |rows| && DayAt(rows[i]).Some? && rows[i].tx.source.Some? :: (DayAt(rows[i]).value, rows[i].tx.source.value)
  }

  /** One entry per (day, source) pair with the rollup of its rows. */
  function BySource(rows: seq<Row>): map<(int, string), Kpi> {
    map p | p in Pairs(rows) :: KpiOf(Group(rows, OnFrom(p.0, p.1)))
  }

  /**
    `compute_kpis(df)`: no rows give empty tables; a date that is neither
    ISO, missing nor empty raises; otherwise the daily and per-source tables.
  */
  function ComputeKpis(rows: seq<Row>): (r: Result<Tables, string>)
    ensures rows == [] ==> r == Ok(Tables(map[], map[]))
    ensures r.Err? <==> exists i :: 0 <= i < |rows| && DayOf(rows[i].tx.date).Err?
    ensures r.Ok? && rows != [] ==> r.value == Tables(Daily(rows), BySource(rows))
  {
    TryAllMeaning(rows, RowDay);
    if rows == [] then Ok(Tables(map[], map[]))
    else
      match TryAll(rows, RowDay)
      case Err(e) => Err(e)
      case Ok(_) => Ok(Tables(Daily(rows), BySource(rows)))
  }

  /** A row is in a group exactly when it is one of the rows and passes the group's test. */
  lemma GroupMeaning(rows: seq<Row>, keep: Row -> bool, r: Row)
    ensures r in Group(rows, keep) <==> r in rows && keep(r)
  {
    MapFilterMeaning(rows, Same, keep, r);
    if r in rows && keep(r) {
      var i :| 0 <= i < |rows| && rows[i] == r;
      assert Same(rows[i]) == r;
    }
  }

  lemma {:induction false} GroupNone(rows: seq<Row>, keep: Row -> bool)
    requires forall i :: 0 <= i < |rows| ==> !keep(rows[i])
    ensures Group(rows, keep) == []
    decreases |rows|
  {
    if rows != [] {
      var n := |rows| - 1;
      assert forall i :: 0 <= i < n ==> rows[..n][i] == rows[i];
      GroupNone(rows[..n], keep);
    }
  }

  lemma {:induction false} GroupSameKeep(rows: seq<Row>, k1: Row -> bool, k2: Row -> bool)
    requires forall i :: 0 <= i < |rows| ==> k1(rows[i]) == k2(rows[i])
    ensures Group(rows, k1) == Group(rows, k2)
    decreases |rows|
  {
    if rows != [] {
      var n := |rows| - 1;
      assert forall i :: 0 <= i < n ==> rows[..n][i] == rows[i];
      GroupSameKeep(rows[..n], k1, k2);
    }
  }

  /**
    The days of the daily table are exactly those that lie between the days
    of two dated rows: every day from the first to the last, and no other.
  */
  lemma DailyDays(rows: seq<Row>, d: int)
    ensures d in Daily(rows) <==>
      exists i, j :: 0 <= i < |rows| && 0 <= j < |rows| && DayAt(rows[i]).Some? && DayAt(rows[j]).Some?
        && DayAt(rows[i]).value <= d <= DayAt(rows[j]).value
  {
    var days := Days(rows);
    if Span(days).Some? {
      var (lo, hi) := Span(days).value;
      DailyDomain(rows, lo, hi);
      if lo <= d <= hi {
        var i, j := SpanEnds(rows, lo, hi);
        assert DayAt(rows[i]).value <= d <= DayAt(rows[j]).value;
      }
      if exists i, j :: (0 <= i < |rows| && 0 <= j < |rows| && DayAt(rows[i]).Some? && DayAt(rows[j]).Some?
        && DayAt(rows[i]).value <= d <= DayAt(rows[j]).value)
      {
        var i, j :| (0 <= i < |rows| && 0 <= j < |rows| && DayAt(rows[i]).Some? && DayAt(rows[j]).Some?
          && DayAt(rows[i]).value <= d <= DayAt(rows[j]).value);
        assert days[i] == DayAt(rows[i]) && days[j] == DayAt(rows[j]);
      }
    }
  }

  /** The rows dated on the first and on the last day. */
  lemma SpanEnds(rows: seq<Row>, lo: int, hi: int) returns (i: nat, j: nat)
    requires Span(Days(rows)) == Some((lo, hi))
    ensures i < |rows| && j < |rows| && DayAt(rows[i]) == Some(lo) && DayAt(rows[j]) == Some(hi)
  {
    var days := Days(rows);
    i :| 0 <= i < |days| && days[i] == Some(lo);
    j :| 0 <= j < |days| && days[j] == Some(hi);
  }

  /** The daily table holds the days from the first to the last, each with the rollup of the rows dated on it. */
  lemma DailyDomain(rows: seq<Row>, lo: int, hi: int)
    requires Span(Days(rows)) == Some((lo, hi))
    ensures forall d :: d in Daily(rows) <==> lo <= d <= hi
    ensures forall d :: lo <= d <= hi ==> Daily(rows)[d] == KpiOf(Group(rows, On(d)))
  {
  }

  /** A day of the table on which no row is dated has all four figures zero. */
  lemma EmptyDay(rows: seq<Row>, d: int)
    requires d in Daily(rows)
    requires forall i :: 0 <= i < |rows| ==> DayAt(rows[i]) != Some(d)
    ensures Daily(rows)[d] == Kpi(0.0, 0.0, 0.0, 0.0)
  {
    GroupNone(rows, On(d));
  }

  /** The per-source table has an entry exactly for each (day, source) some row carries. */
  lemma BySourcePairs(rows: seq<Row>, p: (int, string))
    ensures p in BySource(rows) <==>
      exists i :: 0 <= i < |rows| && DayAt(rows[i]) == Some(p.0) && rows[i].tx.source == Some(p.1)
  {
    if exists i :: 0 <= i < |rows| && DayAt(rows[i]) == Some(p.0) && rows[i].tx.source == Some(p.1) {
      var i :| 0 <= i < |rows| && DayAt(rows[i]) == Some(p.0) && rows[i].tx.source == Some(p.1);
      assert (DayAt(rows[i]).value, rows[i].tx.source.value) in Pairs(rows);
    }
  }

  /** The sum over the days from `lo` to `hi` of `part` over the rows of each day. */
  function DaySum(rows: seq<Row>, part: Row -> real, lo: int, hi: int): real
    decreases hi - lo
  {
    if hi < lo then 0.0
    else DaySum(rows, part, lo, hi - 1) + Total(Group(rows, On(hi)), part)
  }

  /** The sum of one figure of a daily table over the days from `lo` to `hi`. */
  function SumDaily(daily: map<int, Kpi>, lo: int, hi: int, field: Kpi -> real): real
    requires forall d :: lo <= d <= hi ==> d in daily
    decreases hi - lo
  {
    if hi < lo then 0.0
    else SumDaily(daily, lo, hi - 1, field) + field(daily[hi])
  }

  lemma TotalSnoc(rows: seq<Row>, x: Row, part: Row -> real)
    ensures Total(rows + [x], part) == Total(rows, part) + part(x)
  {
    assert (rows + [x])[..|rows|] == rows;
  }

  /** Summing over a group that is the disjoint union of two others. */
  lemma {:induction false} TotalSplit(rows: seq<Row>, part: Row -> real, k: Row -> bool, k1: Row -> bool, k2: Row -> bool)
    requires forall r :: k(r) == (k1(r) || k2(r))
    requires forall r :: !(k1(r) && k2(r))
    ensures Total(Group(rows, k), part) == Total(Group(rows, k1), part) + Total(Group(rows, k2), part)
    decreases |rows|
  {
    if rows != [] {
      var n := |rows| - 1;
      var init, x := rows[..n], rows[n];
      TotalSplit(init, part, k, k1, k2);
      assert Group(rows, k) == Group(init, k) + (if k(x) then [x] else []);
      assert Group(rows, k1) == Group(init, k1) + (if k1(x) then [x] else []);
      assert Group(rows, k2) == Group(init, k2) + (if k2(x) then [x] else []);
      assert k(x) == (k1(x) || k2(x)) && !(k1(x) && k2(x));
      if k1(x) {
        TotalSnoc(Group(init, k), x, part);
        TotalSnoc(Group(init, k1), x, part);
        assert Group(rows, k2) == Group(init, k2);
      } else if k2(x) {
        TotalSnoc(Group(init, k), x, part);
        TotalSnoc(Group(init, k2), x, part);
        assert Group(rows, k1) == Group(init, k1);
      } else {
        assert Group(rows, k) == Group(init, k);
        assert Group(rows, k1) == Group(init, k1);
        assert Group(rows, k2) == Group(init, k2);
      }
    }
  }

  /** Summing day by day over a range is summing over the rows dated in that range. */
  lemma {:induction false} Partition(rows: seq<Row>, part: Row -> real, lo: int, hi: int)
    ensures DaySum(rows, part, lo, hi) == Total(Group(rows, Within(lo, hi)), part)
    decreases hi - lo
  {
    if hi < lo {
      GroupNone(rows, Within(lo, hi));
    } else {
      Partition(rows, part, lo, hi - 1);
      TotalSplit(rows, part, Within(lo, hi), Within(lo, hi - 1), On(hi));
    }
  }

  /** A table holding each day's rollup sums, day by day, to the day-by-day totals of the rows. */
  lemma {:induction false} SumDailyIsDaySum(daily: map<int, Kpi>, rows: seq<Row>, lo: int, h: int, field: Kpi -> real, part: Row -> real)
    requires forall d :: lo <= d <= h ==> d in daily && daily[d] == KpiOf(Group(rows, On(d)))
    requires forall g :: field(KpiOf(g)) == Total(g, part)
    ensures SumDaily(daily, lo, h, field) == DaySum(rows, part, lo, h)
    decreases h - lo
  {
    if lo <= h {
      SumDailyIsDaySum(daily, rows, lo, h - 1, field, part);
      assert field(daily[h]) == Total(Group(rows, On(h)), part);
    }
  }

  /**
    The daily table accounts for every dated row exactly once: summed over
    all its days, gross sales, refunds and fees are those of all the rows
    that have a date.
  */
  lemma DailyTotals(rows: seq<Row>, lo: int, hi: int)
    requires Span(Days(rows)) == Some((lo, hi))
    ensures SumDaily(Daily(rows), lo, hi, GrossOf) == Total(Group(rows, Dated()), Sale)
    ensures SumDaily(Daily(rows), lo, hi, RefundsOf) == Total(Group(rows, Dated()), Refund)
    ensures SumDaily(Daily(rows), lo, hi, FeesOf) == Total(Group(rows, Dated()), Fee)
  {
    DatedWithinSpan(rows, lo, hi);
    FieldTotal(rows, lo, hi, GrossOf, Sale);
    FieldTotal(rows, lo, hi, RefundsOf, Refund);
    FieldTotal(rows, lo, hi, FeesOf, Fee);
  }

  /** The rows dated between the first and the last day are the rows that have a date. */
  lemma DatedWithinSpan(rows: seq<Row>, lo: int, hi: int)
    requires Span(Days(rows)) == Some((lo, hi))
    ensures Group(rows, Within(lo, hi)) == Group(rows, Dated())
  {
    var days := Days(rows);
    forall i | 0 <= i < |rows| ensures Within(lo, hi)(rows[i]) == Dated()(rows[i]) {
      assert days[i] == DayAt(rows[i]);
    }
    GroupSameKeep(rows, Within(lo, hi), Dated());
  }

  lemma FieldTotal(rows: seq<Row>, lo: int, hi: int, field: Kpi -> real, part: Row -> real)
    requires Span(Days(rows)) == Some((lo, hi))
    requires forall g :: field(KpiOf(g)) == Total(g, part)
    requires Group(rows, Within(lo, hi)) == Group(rows, Dated())
    ensures SumDaily(Daily(rows), lo, hi, field) == Total(Group(rows, Dated()), part)
  {
    DailyDomain(rows, lo, hi);
    SumDailyIsDaySum(Daily(rows), rows, lo, hi, field, part);
    Partition(rows, part, lo, hi);
  }
}
