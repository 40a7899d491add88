/**
  The decision logic of the competitor price monitor
  (`Motorizacion_Precios/Scripts/Motorizacion.py`): reading the targets
  table, comparing each competitor's price with ours, the two alert rules,
  one observation row per target, and the history those rows are appended to.
*/
module Monitor {
  import opened Wrappers
  import opened Text
  import opened Floats
  import opened Tables
  import opened PriceParsing
  import opened Fetcher

  /** One product to watch: our price (NaN when the table says so) and where the competitor's price is read. */
  datatype Target = Target(
    sku: string,
    name: string,
    ourPrice: Num,
    url: string,
    priceSelector: string,
    stockSelector: Option<string>)

  /** The text of a cell once `fillna("")` has run: a missing cell reads as "". */
  function CellText(row: seq<string>, j: nat): string {
    Cell(row, j).GetOr("")
  }

  /** `str(r[name]).strip()`: a column the table lacks raises `KeyError`. */
  function Required(header: seq<string>, row: seq<string>, name: string): (r: Result<string, string>)
    ensures r.Err? <==> name !in header
    ensures r.Ok? ==> r.value == Strip(CellText(row, ColumnIndex(header, name).value))
  {
    match ColumnIndex(header, name)
    case None => Err("KeyError: " + name)
    case Some(j) => Ok(Strip(CellText(row, j)))
  }

  /** `str(r.get(name, "")).strip()`: a column the table lacks reads as "". */
  function Optional(header: seq<string>, row: seq<string>, name: string): (r: string)
    ensures name !in header ==> r == ""
    ensures name in header ==> r == Strip(CellText(row, ColumnIndex(header, name).value))
  {
    match ColumnIndex(header, name)
    case None => ""
    case Some(j) => Strip(CellText(row, j))
  }

  /** `float(r["our_price"])`: text `float` rejects raises `ValueError`, "nan" in capitals gives NaN. */
  function OurPrice(header: seq<string>, row: seq<string>): (r: Result<Num, string>)
    ensures r.Err? <==> "our_price" !in header || ParseFloat(CellText(row, ColumnIndex(header, "our_price").value)).Invalid?
  {
    match ColumnIndex(header, "our_price")
    case None => Err("KeyError: our_price")
    case Some(j) =>
      match ParseFloat(CellText(row, j))
      case Number(v) => Ok(Some(v))
      case NotANumber => Ok(None)
      case Invalid => Err("ValueError: could not convert string to float")
  }

  /**
    The `Target` one row of the table yields. The fields are read in the
    order the constructor call lists them, so the first missing column or
    bad price is the error raised.
  */
  function TargetOf(header: seq<string>, row: seq<string>): Result<Target, string> {
    var sku := Required(header, row, "sku");
    if sku.Err? then Err(sku.error)
    else
      var name := Optional(header, row, "name");
      var price := OurPrice(header, row);
      if price.Err? then Err(price.error)
      else
        var url := Required(header, row, "url");
        if url.Err? then Err(url.error)
        else
          var selector := Required(header, row, "price_selector");
          if selector.Err? then Err(selector.error)
          else
            var stock := Optional(header, row, "stock_selector");
            Ok(Target(sku.value, name, price.value, url.value, selector.value, if stock == "" then None else Some(stock)))
  }

  /** The targets of the table's rows, in row order, or the first error a row raises. */
  function LoadedTargets(t: Table): Result<seq<Target>, string> {
    TryAll(t.rows, (row: seq<string>) => TargetOf(t.header, row))
  }

  /** `load_targets`: one target per row, appended in row order. */
  method LoadTargets(t: Table) returns (r: Result<seq<Target>, string>)
    ensures r == LoadedTargets(t)
  {
    r := TryEach(t.rows, (row: seq<string>) => TargetOf(t.header, row));
  }

  /**
    Loading succeeds exactly when every row yields a target, and then gives
    one target per row in row order; otherwise the first bad row's error is raised.
  */
  lemma TargetsMeaning(t: Table)
    ensures LoadedTargets(t).Ok? <==> forall i :: 0 <= i < |t.rows| ==> TargetOf(t.header, t.rows[i]).Ok?
    ensures LoadedTargets(t).Ok? ==>
      && |LoadedTargets(t).value| == |t.rows|
      && forall i :: 0 <= i < |t.rows| ==> LoadedTargets(t).value[i] == TargetOf(t.header, t.rows[i]).value
    ensures forall k ::
      (0 <= k < |t.rows| && TargetOf(t.header, t.rows[k]).Err? && (forall i :: 0 <= i < k ==> TargetOf(t.header, t.rows[i]).Ok?))
      ==> LoadedTargets(t) == Err(TargetOf(t.header, t.rows[k]).error)
  {
    var f := (row: seq<string>) => TargetOf(t.header, row);
    TryAllMeaning(t.rows, f);
    forall k | 0 <= k < |t.rows| && f(t.rows[k]).Err? && (forall i :: 0 <= i < k ==> f(t.rows[i]).Ok?)
      ensures TryAll(t.rows, f) == Err(f(t.rows[k]).error)
    {
      TryAllFirstError(t.rows, f, k);
    }
  }

  /** A table without data rows loads as no targets, whatever its columns: a missing column is only noticed on a row. */
  lemma NoRowsNoTargets(header: seq<string>)
    ensures LoadedTargets(Table(header, [])) == Ok([])
  {
  }

  /** Every text field of a loaded target is stripped, and an empty stock selector becomes `None`. */
  lemma TargetFieldsTrimmed(header: seq<string>, row: seq<string>)
    requires TargetOf(header, row).Ok?
    ensures var t := TargetOf(header, row).value;
      && Strip(t.sku) == t.sku && Strip(t.name) == t.name && Strip(t.url) == t.url
      && Strip(t.priceSelector) == t.priceSelector
      && (t.stockSelector.Some? ==> t.stockSelector.value != "" && Strip(t.stockSelector.value) == t.stockSelector.value)
  {
    var sku, url, selector := Required(header, row, "sku"), Required(header, row, "url"), Required(header, row, "price_selector");
    var name, stock := Optional(header, row, "name"), Optional(header, row, "stock_selector");
    assert sku.Ok? && url.Ok? && selector.Ok? && OurPrice(header, row).Ok?;
    assert TargetOf(header, row).value ==
      Target(sku.value, name, OurPrice(header, row).value, url.value, selector.value, if stock == "" then None else Some(stock));
    RequiredTrimmed(header, row, "sku");
    RequiredTrimmed(header, row, "url");
    RequiredTrimmed(header, row, "price_selector");
    OptionalTrimmed(header, row, "name");
    OptionalTrimmed(header, row, "stock_selector");
  }

  lemma RequiredTrimmed(header: seq<string>, row: seq<string>, name: string)
    ensures Required(header, row, name).Ok? ==> Strip(Required(header, row, name).value) == Required(header, row, name).value
  {
    if name in header {
      StripIdempotent(CellText(row, ColumnIndex(header, name).value));
    }
  }

  lemma OptionalTrimmed(header: seq<string>, row: seq<string>, name: string)
    ensures Strip(Optional(header, row, name)) == Optional(header, row, name)
  {
    if name in header {
      StripIdempotent(CellText(row, ColumnIndex(header, name).value));
    }
  }

  /** One row of the day's observations. */
  datatype Observation = Observation(
    date: string,
    sku: string,
    name: string,
    ourPrice: Num,
    competitorPrice: Num,
    diffAbs: Num,
    diffPct: Num,
    inStock: Option<bool>,
    url: string,
    error: Option<string>)

  datatype AlertReason = CompetitorCheaper | CompetitorOutOfStock

  datatype Alert = Alert(
    date: string,
    sku: string,
    name: string,
    ourPrice: Num,
    competitorPrice: Num,
    deltaPct: Num,
    reason: AlertReason)

  /**
    `diff_abs` and `diff_pct`: both NaN unless the competitor's price is known;
    NaN arithmetic when our price is NaN; and dividing by our price raises
    `ZeroDivisionError` when it is zero.
  */
  function Deltas(ourPrice: Num, competitorPrice: Num): (r: Result<(Num, Num), string>)
    ensures competitorPrice.None? || ourPrice.None? ==> r == Ok((None, None))
    ensures competitorPrice.Some? && ourPrice.Some? && ourPrice.value != 0.0 ==>
      r.Ok? && r.value.0.Some? && r.value.1.Some?
    ensures r.Err? <==> competitorPrice.Some? && ourPrice == Some(0.0)
    ensures r.Ok? && r.value.1.Some? ==> r.value.0.Some? && competitorPrice.Some? && ourPrice.Some?
    ensures r.Ok? && r.value.0.Some? ==>
      competitorPrice.Some? && ourPrice.Some? && competitorPrice.value == ourPrice.value + r.value.0.value
  {
    match competitorPrice
    case None => Ok((None, None))
    case Some(c) =>
      match ourPrice
      case None => Ok((None, None))
      case Some(o) =>
        if o == 0.0 then Err("float division by zero")
        else Ok((Some(c - o), Some((c - o) / o * 100.0)))
  }

  function Abs(x: real): real {
    if x < 0.0 then -x else x
  }

  /** The undercut rule: the competitor's price is known and `diff_pct < -abs(delta_pct)`. */
  predicate UndercutFires(competitorPrice: Num, diffPct: Num, threshold: real) {
    competitorPrice.Some? && diffPct.Some? && diffPct.value < -Abs(threshold)
  }

  /**
    What one target contributes: its observation row and its alerts. A failed
    fetch gives an error row with no price, no deltas, no stock status and
    the message cut to 200 characters.
  */
  function Observe(t: Target, fetched: Result<Page, string>, today: string, threshold: real): (Observation, seq<Alert>) {
    match fetched
    case Err(m) => (ErrorRow(t, m, today), [])
    case Ok(page) =>
      var (price, stockText) := ExtractPriceAndStock(page, t.priceSelector, t.stockSelector);
      Compare(t, price, InStock(stockText), today, threshold)
  }

  /** The comparison with the competitor's price and stock status; a division by a zero price of ours also gives an error row. */
  function Compare(t: Target, price: Num, inStock: Option<bool>, today: string, threshold: real): (Observation, seq<Alert>) {
    match Deltas(t.ourPrice, price)
    case Err(m) => (ErrorRow(t, m, today), [])
    case Ok((diffAbs, diffPct)) =>
      (Observation(today, t.sku, t.name, t.ourPrice, price, diffAbs, diffPct, inStock, t.url, None),
       AlertsFor(t, price, diffPct, inStock, today, threshold))
  }

  /** The two independent alert rules: the undercut alert first, then the stock alert. */
  function AlertsFor(t: Target, price: Num, diffPct: Num, inStock: Option<bool>, today: string, threshold: real): seq<Alert> {
    (if UndercutFires(price, diffPct, threshold)
     then [Alert(today, t.sku, t.name, t.ourPrice, price, diffPct, CompetitorCheaper)] else [])
    + (if inStock == Some(false)
       then [Alert(today, t.sku, t.name, t.ourPrice, price, diffPct, CompetitorOutOfStock)] else [])
  }

  predicate HasReason(alerts: seq<Alert>, reason: AlertReason) {
    exists i :: 0 <= i < |alerts| && alerts[i].reason == reason
  }

  function ErrorRow(t: Target, message: string, today: string): Observation {
    Observation(today, t.sku, t.name, t.ourPrice, None, None, None, None, t.url, Some(Take(message, 200)))
  }

  /** What each target yields, by its position among the targets. */
  function Visit(targets: seq<Target>, web: nat -> Server, today: string, threshold: real): nat --> (Observation, seq<Alert>) {
    (l: nat) requires l < |targets| => Outcome(targets, web, today, threshold, l)
  }

  /** The alerts `visit` yields for the positions `k` to `n - 1`, in order. */
  function AlertsOf(visit: nat --> (Observation, seq<Alert>), k: nat, n: nat): seq<Alert>
    requires forall l :: k <= l < n ==> visit.requires(l)
    decreases n - k
  {
    if k >= n then [] else visit(k).1 + AlertsOf(visit, k + 1, n)
  }

  /** The alerts of targets `k..`, in target order; `web(i)` is what the server answers the fetch for target `i`. */
  function AlertsFrom(targets: seq<Target>, web: nat -> Server, today: string, threshold: real, k: nat): seq<Alert>
    requires k <= |targets|
  {
    AlertsOf(Visit(targets, web, today, threshold), k, |targets|)
  }

  /** The outcome of one run: the day's rows, its alerts and the updated history. */
  datatype Run = Run(rows: seq<Observation>, alerts: seq<Alert>, history: seq<Observation>)

  /**
    `monitor`: loads the targets (a bad table aborts the run), observes each
    target in turn, and appends the day's rows to the history (or starts it).
  */
  method RunMonitor(config: Table, web: nat -> Server, threshold: real, today: string, history: Option<seq<Observation>>)
    returns (outcome: Result<Run, string>)
    ensures outcome.Err? <==> LoadedTargets(config).Err?
    ensures outcome.Ok? ==>
      var targets := LoadedTargets(config).value;
      var run := outcome.value;
      && |run.rows| == |targets|
      && (forall i :: 0 <= i < |targets| ==> run.rows[i] == Outcome(targets, web, today, threshold, i).0)
      && run.alerts == AlertsFrom(targets, web, today, threshold, 0)
      && run.history == history.GetOr([]) + run.rows
  {
    var loaded := LoadTargets(config);
    if loaded.Err? {
      return Err(loaded.error);
    }
    var targets := loaded.value;
    var rows, alerts := VisitTargets(targets, web, today, threshold, Visit(targets, web, today, threshold));
    var newHistory := history.GetOr([]) + rows;
    return Ok(Run(rows, alerts, newHistory));
  }

  /**
    The loop over the targets: one row per target, in order, and the alerts
    of each target after those of the targets before it. `visit` names what
    each target yields.
  */
  method VisitTargets(targets: seq<Target>, web: nat -> Server, today: string, threshold: real,
                      ghost visit: nat --> (Observation, seq<Alert>))
    returns (rows: seq<Observation>, alerts: seq<Alert>)
    requires forall l :: 0 <= l < |targets| ==> visit.requires(l)
    requires forall l {:trigger Outcome(targets, web, today, threshold, l)} ::
      0 <= l < |targets| ==> visit(l) == Outcome(targets, web, today, threshold, l)
    ensures |rows| == |targets| && forall l :: 0 <= l < |targets| ==> rows[l] == visit(l).0
    ensures alerts == AlertsOf(visit, 0, |targets|)
  {
    rows, alerts := [], [];
    var i := 0;
    while i < |targets|
      invariant 0 <= i <= |targets|
      invariant |rows| == i && forall l :: 0 <= l < i ==> rows[l] == visit(l).0
      invariant alerts + AlertsOf(visit, i, |targets|) == AlertsOf(visit, 0, |targets|)
      decreases |targets| - i
    {
      var row, found := ObserveTarget(targets, web, today, threshold, i);
      assert (row, found) == visit(i);
      forall l | 0 <= l < i + 1 ensures (rows + [row])[l] == visit(l).0 {
        if l < i {
          assert (rows + [row])[l] == rows[l];
        }
      }
      rows := rows + [row];
      alerts := alerts + found;
      i := i + 1;
    }
  }

  /** What target `i` contributes once its page has been fetched with retries. */
  function Outcome(targets: seq<Target>, web: nat -> Server, today: string, threshold: real, i: nat): (Observation, seq<Alert>)
    requires i < |targets|
  {
    Observe(targets[i], FetchFrom(targets[i].url, web(i), 1), today, threshold)
  }

  /** A target's row, error row or not, carries its sku, name, price of ours and url, and the run's date. */
  lemma RowCarriesTarget(targets: seq<Target>, web: nat -> Server, today: string, threshold: real, i: nat)
    requires i < |targets|
    ensures var row := Outcome(targets, web, today, threshold, i).0;
      && row.date == today && row.sku == targets[i].sku && row.name == targets[i].name
      && row.ourPrice == targets[i].ourPrice && row.url == targets[i].url
  {
  }

  /** The body of the loop over targets: fetch with retries, then compare. */
  method ObserveTarget(targets: seq<Target>, web: nat -> Server, today: string, threshold: real, i: nat)
    returns (row: Observation, found: seq<Alert>)
    requires i < |targets|
    ensures row == Outcome(targets, web, today, threshold, i).0
    ensures found == Outcome(targets, web, today, threshold, i).1
  {
    var fetched, _ := FetchWithRetry(targets[i].url, web(i));
    var outcome := Observe(targets[i], fetched, today, threshold);
    row, found := outcome.0, outcome.1;
  }

  /**
    The alert rules: a target raises the undercut alert exactly when the
    competitor's known price is below ours by more than the threshold, the
    stock alert exactly when the competitor is out of stock, and nothing else.
  */
  lemma AlertRules(t: Target, price: Num, diffPct: Num, inStock: Option<bool>, today: string, threshold: real)
    ensures var alerts := AlertsFor(t, price, diffPct, inStock, today, threshold);
      && |alerts| <= 2
      && (HasReason(alerts, CompetitorCheaper) <==> UndercutFires(price, diffPct, threshold))
      && (HasReason(alerts, CompetitorOutOfStock) <==> inStock == Some(false))
      && forall a :: a in alerts ==> a.sku == t.sku && a.competitorPrice == price && a.deltaPct == diffPct
  {
    var alerts := AlertsFor(t, price, diffPct, inStock, today, threshold);
    if UndercutFires(price, diffPct, threshold) {
      assert alerts[0].reason == CompetitorCheaper;
    }
    if inStock == Some(false) {
      assert alerts[|alerts| - 1].reason == CompetitorOutOfStock;
    }
  }

  /** The same rules seen from the observation row a target leaves. */
  lemma ObserveAlerts(t: Target, fetched: Result<Page, string>, today: string, threshold: real)
    ensures var (row, alerts) := Observe(t, fetched, today, threshold);
      && |alerts| <= 2
      && (HasReason(alerts, CompetitorCheaper) <==> UndercutFires(row.competitorPrice, row.diffPct, threshold))
      && (HasReason(alerts, CompetitorOutOfStock) <==> row.inStock == Some(false))
      && forall a :: a in alerts ==> a.sku == t.sku && a.competitorPrice == row.competitorPrice && a.deltaPct == row.diffPct
  {
    match fetched
    case Err(_) =>
    case Ok(page) =>
      var (price, stockText) := ExtractPriceAndStock(page, t.priceSelector, t.stockSelector);
      match Deltas(t.ourPrice, price)
      case Err(_) =>
      case Ok((_, diffPct)) =>
        AlertRules(t, price, diffPct, InStock(stockText), today, threshold);
  }

  /** A failed target still leaves one row: no price, no deltas, no stock status, and the error kept to 200 characters. */
  lemma ErrorRowShape(t: Target, fetched: Result<Page, string>, today: string, threshold: real)
    ensures var (row, alerts) := Observe(t, fetched, today, threshold);
      row.error.Some? ==>
        && alerts == []
        && row.competitorPrice.None? && row.diffAbs.None? && row.diffPct.None? && row.inStock.None?
        && |row.error.value| <= 200
    ensures fetched.Err? ==> Observe(t, fetched, today, threshold).0.error == Some(Take(fetched.error, 200))
  {
  }

  /** Every target adds at most two alerts to the day. */
  lemma {:induction false} AlertsBound(targets: seq<Target>, web: nat -> Server, today: string, threshold: real, k: nat)
    requires k <= |targets|
    ensures |AlertsFrom(targets, web, today, threshold, k)| <= 2 * (|targets| - k)
    decreases |targets| - k
  {
    if k < |targets| {
      ObserveAlerts(targets[k], FetchFrom(targets[k].url, web(k), 1), today, threshold);
      assert Outcome(targets, web, today, threshold, k) == Observe(targets[k], FetchFrom(targets[k].url, web(k), 1), today, threshold);
      AlertsBound(targets, web, today, threshold, k + 1);
    }
  }

  /** The history grows by exactly one row per target. */
  lemma HistoryGrowth(old_: seq<Observation>, run: Run, targets: seq<Target>)
    requires |run.rows| == |targets| && run.history == old_ + run.rows
    ensures |run.history| == |old_| + |targets|
    ensures run.history[..|old_|] == old_
  {
  }

  /** The percentage is the absolute difference as a share of our price, times 100. */
  lemma DeltasPercent(ourPrice: Num, competitorPrice: Num)
    requires Deltas(ourPrice, competitorPrice).Ok?
    ensures var (diffAbs, diffPct) := Deltas(ourPrice, competitorPrice).value;
      diffPct.Some? ==> diffPct.value * ourPrice.value == diffAbs.value * 100.0
  {
    if competitorPrice.Some? && ourPrice.Some? {
      var c, o := competitorPrice.value, ourPrice.value;
      assert (c - o) / o * 100.0 * o == (c - o) * 100.0;
    }
  }

  /** The sign of the configured threshold is ignored. */
  lemma ThresholdSignIgnored(competitorPrice: Num, diffPct: Num, threshold: real)
    ensures UndercutFires(competitorPrice, diffPct, threshold) == UndercutFires(competitorPrice, diffPct, -threshold)
  {
  }

  /**
    For a positive price of ours, the undercut rule fires exactly when the
    competitor is cheaper by more than the threshold's share of our price;
    so a gap of exactly the threshold does not alert.
  */
  lemma UndercutMeaning(our: real, competitor: real, threshold: real)
    requires our > 0.0
    ensures Deltas(Some(our), Some(competitor)).Ok?
    ensures var (_, diffPct) := Deltas(Some(our), Some(competitor)).value;
      UndercutFires(Some(competitor), diffPct, threshold) <==> (our - competitor) * 100.0 > Abs(threshold) * our
  {
    var d := (competitor - our) / our * 100.0;
    assert d * our == (competitor - our) * 100.0;
    if d < -Abs(threshold) {
      assert d * our < -Abs(threshold) * our;
    } else {
      assert d * our >= -Abs(threshold) * our;
    }
  }

  /**
    A competitor at 85 against our 100 is 15% cheaper; the rule fires only
    for thresholds strictly smaller than 15 in size.
  */
  lemma FifteenPercentCheaper(threshold: real)
    ensures var (_, diffPct) := Deltas(Some(100.0), Some(85.0)).value;
      diffPct == Some(-15.0) && (UndercutFires(Some(85.0), diffPct, threshold) <==> Abs(threshold) < 15.0)
  {
  }

  /** A comparison never needs a competitor price to be invented: no price means no deltas and no undercut alert. */
  lemma NoPriceNoUndercut(ourPrice: Num, threshold: real)
    ensures Deltas(ourPrice, None) == Ok((None, None))
    ensures !UndercutFires(None, None, threshold)
  {
  }
}
