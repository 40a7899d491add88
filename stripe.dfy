/**
  `fetch_stripe_charges`: the charges and then the refunds of a Stripe
  account, read page by page through the list endpoints and normalised to
  transactions. The requests are left out: the answers of the list
  endpoints, page after page, and of the balance-transaction lookup are
  parameters.
*/
module Stripe {
  import opened Wrappers
  import opened Text
  import opened Floats
  import opened Dates
  import opened Finance

  /** A charge or refund object of a list answer; a member it lacks is `None`. */
  datatype StripeObject = StripeObject(
    id: Option<string>,
    amount: Option<int>,
    currency: Option<string>,
    created: Option<int>,
    status: Option<string>,
    balanceTransaction: Option<string>)

  /** One answer of a list endpoint. */
  datatype ListAnswer =
    /** A status of 400 or more: the loop stops with what it has. */
    | ErrorStatus
    /** The request raised: nothing catches it. */
    | Raised(message: string)
    /** The objects of `data` and the `has_more` flag. */
    | Listed(data: seq<StripeObject>, hasMore: bool)

  /** The answer of `GET /v1/balance_transactions/{id}`. */
  datatype FeeAnswer =
    /** The request, or reading its body, raised. */
    | FeeRaised
    | FeeReply(status: int, fee: Option<int>)

  type FeeLookup = string -> FeeAnswer

  const SecondsPerDay: nat := 86400

  /**
    `datetime.fromtimestamp(created, tz=utc).date().isoformat()`: the day
    holding that second, or `ValueError` outside the years 1 to 9999.
  */
  function DateOfTimestamp(created: int): (r: Result<string, string>)
    ensures r.Ok? <==> -EpochOffset <= created / SecondsPerDay <= MaxDayNumber
    ensures r.Ok? ==> exists d :: Valid(d) && DayNumber(d) * SecondsPerDay <= created < (DayNumber(d) + 1) * SecondsPerDay && r.value == FormatIso(d)
  {
    var day := created / SecondsPerDay;
    if -EpochOffset <= day <= MaxDayNumber then
      var d := FromDayNumber(day);
      assert DayNumber(d) * SecondsPerDay <= created < (DayNumber(d) + 1) * SecondsPerDay;
      Ok(FormatIso(d))
    else Err("ValueError: year is out of range")
  }

  /**
    The fee of a charge: when it names a balance transaction and looking it
    up answers below 400, that transaction's `fee` (default 0) in units;
    otherwise 0, since a failed lookup is ignored.
  */
  function ChargeFee(balanceTransaction: Option<string>, lookup: FeeLookup): (fee: real)
    ensures balanceTransaction.None? || balanceTransaction == Some("") ==> fee == 0.0
    ensures balanceTransaction.Some? && balanceTransaction.value != "" ==>
      var answer := lookup(balanceTransaction.value);
      && (answer.FeeReply? && answer.status < 400 ==> fee == answer.fee.GetOr(0) as real / 100.0)
      && (answer.FeeRaised? || answer.status >= 400 ==> fee == 0.0)
  {
    if balanceTransaction.None? || balanceTransaction.value == "" then 0.0
    else
      match lookup(balanceTransaction.value)
      case FeeRaised => 0.0
      case FeeReply(status, fee) => if status < 400 then fee.GetOr(0) as real / 100.0 else 0.0
  }

  /** The row of a charge: its amount in units, its fee, its day, its upper-cased currency. */
  function ChargeRow(ch: StripeObject, lookup: FeeLookup): (r: Result<Transaction, string>)
    ensures r.Ok? <==> ch.created.Some? && DateOfTimestamp(ch.created.value).Ok?
    ensures r.Ok? ==>
      && r.value.amount == Some(ch.amount.GetOr(0) as real / 100.0)
      && r.value.fee == Float(Some(ChargeFee(ch.balanceTransaction, lookup)))
      && r.value.date == DateOfTimestamp(ch.created.value).value
      && r.value.currency == Upper(ch.currency.GetOr(""))
      && r.value.source == Some("stripe") && r.value.kind == Some("charge")
      && r.value.status == Some(ch.status.GetOr("")) && r.value.reference == Some(ch.id.GetOr(""))
  {
    var fee := ChargeFee(ch.balanceTransaction, lookup);
    match ch.created
    case None => Err("KeyError: 'created'")
    case Some(c) =>
      match DateOfTimestamp(c)
      case Err(e) => Err(e)
      case Ok(date) =>
        Ok(Transaction(date, Some(ch.amount.GetOr(0) as real / 100.0), Upper(ch.currency.GetOr("")),
          Float(Some(fee)), Some("stripe"), Some("charge"), Some(ch.status.GetOr("")), Some(ch.id.GetOr(""))))
  }

  function Abs(x: real): real {
    if x < 0.0 then -x else x
  }

  /** The row of a refund: minus the absolute amount in units, whatever its sign, and no fee. */
  function RefundRow(rf: StripeObject): (r: Result<Transaction, string>)
    ensures r.Ok? <==> rf.created.Some? && DateOfTimestamp(rf.created.value).Ok?
    ensures r.Ok? ==>
      && r.value.amount.Some? && r.value.amount.value <= 0.0
      && Abs(r.value.amount.value) == Abs(rf.amount.GetOr(0) as real / 100.0)
      && r.value.fee == Float(Some(0.0))
      && r.value.date == DateOfTimestamp(rf.created.value).value
      && r.value.currency == Upper(rf.currency.GetOr(""))
      && r.value.source == Some("stripe") && r.value.kind == Some("refund")
  {
    match rf.created
    case None => Err("KeyError: 'created'")
    case Some(c) =>
      match DateOfTimestamp(c)
      case Err(e) => Err(e)
      case Ok(date) =>
        Ok(Transaction(date, Some(-Abs(rf.amount.GetOr(0) as real / 100.0)), Upper(rf.currency.GetOr("")),
          Float(Some(0.0)), Some("stripe"), Some("refund"), Some(rf.status.GetOr("")), Some(rf.id.GetOr(""))))
  }

  /**
    The rows of the cursor loop from answer `n` on. Each page's objects are
    turned into rows in order; the loop ends after a page without
    `has_more`, or at an error status; a page with `has_more` must end with
    an object carrying an `id` (the next cursor), or the script raises. The
    answers are those of as many requests as the sequence holds; one past
    its end is read as an error status.
  */
  function Pages(answers: seq<ListAnswer>, n: nat, row: StripeObject -> Result<Transaction, string>): Result<seq<Transaction>, string>
    decreases |answers| - n
  {
    if n >= |answers| then Ok([])
    else
      match answers[n]
      case ErrorStatus => Ok([])
      case Raised(m) => Err(m)
      case Listed(data, hasMore) =>
        match TryAll(data, row)
        case Err(e) => Err(e)
        case Ok(rows) =>
          if !hasMore then Ok(rows)
          else if data == [] then Err("IndexError: list index out of range")
          else if data[|data| - 1].id.None? then Err("KeyError: 'id'")
          else Prepend(rows, Pages(answers, n + 1, row))
  }

  /** One `while True` cursor loop of `fetch_stripe_charges`. */
  method CollectPages(answers: seq<ListAnswer>, row: StripeObject -> Result<Transaction, string>)
    returns (r: Result<seq<Transaction>, string>)
    ensures r == Pages(answers, 0, row)
  {
    var rows: seq<Transaction> := [];
    var n := 0;
    PrependNothing(Pages(answers, 0, row));
    while n < |answers|
      invariant 0 <= n <= |answers|
      invariant Pages(answers, 0, row) == Prepend(rows, Pages(answers, n, row))
      decreases |answers| - n
    {
      var answer := answers[n];
      if answer.ErrorStatus? {
        break;
      }
      if answer.Raised? {
        return Err(answer.message);
      }
      var page := TryEach(answer.data, row);
      if page.Err? {
        return Err(page.error);
      }
      if !answer.hasMore {
        PrependRows(rows, Pages(answers, n, row));
        return Ok(rows + page.value);
      }
      if answer.data == [] {
        return Err("IndexError: list index out of range");
      }
      if answer.data[|answer.data| - 1].id.None? {
        return Err("KeyError: 'id'");
      }
      PrependTwice(rows, page.value, Pages(answers, n + 1, row));
      rows := rows + page.value;
      n := n + 1;
    }
    PrependRows(rows, Pages(answers, n, row));
    assert rows + [] == rows;
    return Ok(rows);
  }

  lemma PrependRows(rows: seq<Transaction>, r: Result<seq<Transaction>, string>)
    requires r.Ok?
    ensures Prepend(rows, r) == Ok(rows + r.value)
  {
  }

  /**
    The rows `fetch_stripe_charges` returns: none without an API key;
    otherwise the window's ends must be `YYYY-MM-DD` dates (the only form
    of `fromisoformat` modelled) and the end not the very
    last date (a day is added to it), and then the charges' rows come before
    the refunds' rows.
  */
  function StripeTransactions(apiKey: string, window: Window, charges: seq<ListAnswer>, refunds: seq<ListAnswer>, lookup: FeeLookup)
    : Result<seq<Transaction>, string>
  {
    if apiKey == "" then Ok([])
    else if ParseIso(window.start).None? || ParseIso(window.end).None? then Err("ValueError: Invalid isoformat string")
    else if ParseIso(window.end).value == LastDate then Err("OverflowError: date value out of range")
    else
      match Pages(charges, 0, (ch: StripeObject) => ChargeRow(ch, lookup))
      case Err(e) => Err(e)
      case Ok(c) => Prepend(c, Pages(refunds, 0, RefundRow))
  }

  method FetchStripeCharges(apiKey: string, window: Window, charges: seq<ListAnswer>, refunds: seq<ListAnswer>, lookup: FeeLookup)
    returns (r: Result<seq<Transaction>, string>)
    ensures r == StripeTransactions(apiKey, window, charges, refunds, lookup)
  {
    if apiKey == "" {
      return Ok([]);
    }
    var start, end := ParseIso(window.start), ParseIso(window.end);
    if start.None? || end.None? {
      return Err("ValueError: Invalid isoformat string");
    }
    if end.value == LastDate {
      return Err("OverflowError: date value out of range");
    }
    var c := CollectPages(charges, (ch: StripeObject) => ChargeRow(ch, lookup));
    if c.Err? {
      return Err(c.error);
    }
    var f := CollectPages(refunds, RefundRow);
    return Prepend(c.value, f);
  }

  /** What every row of a Stripe charge satisfies. */
  predicate ChargeShaped(t: Transaction) {
    t.source == Some("stripe") && t.kind == Some("charge") && Upper(t.currency) == t.currency
  }

  /** What every row of a Stripe refund satisfies: never a positive amount, never a fee. */
  predicate RefundShaped(t: Transaction) {
    && t.source == Some("stripe") && t.kind == Some("refund") && Upper(t.currency) == t.currency
    && t.amount.Some? && t.amount.value <= 0.0 && t.fee == Float(Some(0.0))
  }

  /** When every row the loop can produce has a property, so has every row it collects. */
  lemma {:induction false} PagesAll(answers: seq<ListAnswer>, n: nat, row: StripeObject -> Result<Transaction, string>, P: Transaction -> bool)
    requires forall o :: row(o).Ok? ==> P(row(o).value)
    requires Pages(answers, n, row).Ok?
    ensures forall i :: 0 <= i < |Pages(answers, n, row).value| ==> P(Pages(answers, n, row).value[i])
    decreases |answers| - n
  {
    if n < |answers| && answers[n].Listed? {
      var data := answers[n].data;
      TryAllMeaning(data, row);
      if answers[n].hasMore && data != [] && data[|data| - 1].id.Some? {
        PagesAll(answers, n + 1, row, P);
      }
    }
  }

  /**
    Every Stripe row is a charge or a refund from Stripe with an upper-case
    currency, and every refund row is sign-normalised: its amount is never
    positive and it carries no fee.
  */
  lemma StripeRowsShape(apiKey: string, window: Window, charges: seq<ListAnswer>, refunds: seq<ListAnswer>, lookup: FeeLookup)
    requires StripeTransactions(apiKey, window, charges, refunds, lookup).Ok?
    ensures var rows := StripeTransactions(apiKey, window, charges, refunds, lookup).value;
      forall i :: 0 <= i < |rows| ==> ChargeShaped(rows[i]) || RefundShaped(rows[i])
  {
    if apiKey != "" {
      var chargeRow := (ch: StripeObject) => ChargeRow(ch, lookup);
      forall o | chargeRow(o).Ok? ensures ChargeShaped(chargeRow(o).value) {
        UpperIdempotent(o.currency.GetOr(""));
      }
      forall o | RefundRow(o).Ok? ensures RefundShaped(RefundRow(o).value) {
        UpperIdempotent(o.currency.GetOr(""));
      }
      PagesAll(charges, 0, chargeRow, ChargeShaped);
      PagesAll(refunds, 0, RefundRow, RefundShaped);
    }
  }

  /** Without an API key nothing is requested and there are no rows, whatever the window. */
  lemma NoKeyNoRows(window: Window, charges: seq<ListAnswer>, refunds: seq<ListAnswer>, lookup: FeeLookup)
    ensures StripeTransactions("", window, charges, refunds, lookup) == Ok([])
  {
  }

  /** A single page without `has_more` gives one row per object, in order. */
  lemma SinglePage(data: seq<StripeObject>, row: StripeObject -> Result<Transaction, string>)
    requires forall i :: 0 <= i < |data| ==> row(data[i]).Ok?
    ensures Pages([Listed(data, false)], 0, row).Ok?
    ensures var rows := Pages([Listed(data, false)], 0, row).value;
      |rows| == |data| && forall i :: 0 <= i < |data| ==> rows[i] == row(data[i]).value
  {
    TryAllMeaning(data, row);
  }
}
