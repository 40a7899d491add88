/**
  `fetch_fx_timeseries`: the latest day of the exchange-rate time series,
  each quote "1 base = r currency" inverted into "1 currency = 1/r base",
  and the base currency pinned to 1. The request itself is left out: the
  reply is a parameter.
*/
module FxRates {
  import opened Wrappers
  import opened Text
  import opened Floats

  /** One day's entry of the `rates` object: its members in order, or a value that is not an object. */
  datatype Quotes = QuoteObject(members: seq<(string, Value)>) | NotAnObject

  /** What the time-series request produced. */
  datatype FxReply =
    /** The request raised, the status was an error, or the body was not a JSON object. */
    | FxFailed
    /** The members of `rates` in order (none when it is missing or empty): each a day and its quotes. */
    | FxPayload(days: seq<(string, Quotes)>)

  /** Currency code to its value in the base currency; `None` is NaN. */
  type Rates = map<string, Num>

  /** `sorted(days)[-1]`: the position of the greatest day (the last of equal ones, as a dict keeps the last). */
  function LatestDay(days: seq<(string, Quotes)>): (i: nat)
    requires days != []
    ensures i < |days|
    decreases |days|
  {
    var n := |days| - 1;
    if n == 0 then 0
    else
      var i := LatestDay(days[..n]);
      if LessEq(days[i].0, days[n].0) then n else i
  }

  /** No day of the series comes after the latest one. */
  lemma {:induction false} LatestDayIsLatest(days: seq<(string, Quotes)>)
    requires days != []
    ensures forall j :: 0 <= j < |days| ==> LessEq(days[j].0, days[LatestDay(days)].0)
    decreases |days|
  {
    var n := |days| - 1;
    if n > 0 {
      var init := days[..n];
      var i := LatestDay(init);
      LatestDayIsLatest(init);
      forall j | 0 <= j < |days| ensures LessEq(days[j].0, days[LatestDay(days)].0) {
        if j < n {
          assert init[j] == days[j] && init[i] == days[i];
          if LessEq(days[i].0, days[n].0) {
            LessEqTransitive(days[j].0, days[i].0, days[n].0);
          }
        } else if !LessEq(days[i].0, days[n].0) {
          LessTotal(days[i].0, days[n].0);
        }
      }
    }
  }

  /** `1.0 / float(rate) if rate else nan`, where any exception (a zero or non-numeric rate) gives NaN. */
  function InvertRate(rate: Value): (q: Num)
    ensures q.Some? <==> Truthy(rate) && FloatOf(rate).Number? && FloatOf(rate).value != 0.0
    ensures q.Some? ==> q.value == 1.0 / FloatOf(rate).value
  {
    if !Truthy(rate) then None
    else match FloatOf(rate)
      case Number(r) => if r != 0.0 then Some(1.0 / r) else None
      case _ => None
  }

  /** The `inv` dict after its loop has run over `members`: upper-cased codes, the last quote of a code winning. */
  function InvertAll(members: seq<(string, Value)>): (inv: Rates)
    ensures inv.Keys == set i | 0 <= i < |members| :: Upper(members[i].0)
    decreases |members|
  {
    if members == [] then map[]
    else
      var n := |members| - 1;
      var inv := InvertAll(members[..n]);
      assert forall i :: 0 <= i < n ==> members[..n][i] == members[i];
      inv[Upper(members[n].0) := InvertRate(members[n].1)]
  }

  /** A code holds the inverse of the last quote whose code upper-cases to it. */
  lemma {:induction false} InvertAllLastWins(members: seq<(string, Value)>, i: nat)
    requires i < |members|
    requires forall j :: i < j < |members| ==> Upper(members[j].0) != Upper(members[i].0)
    ensures InvertAll(members)[Upper(members[i].0)] == InvertRate(members[i].1)
    decreases |members|
  {
    var n := |members| - 1;
    var init := members[..n];
    assert InvertAll(members) == InvertAll(init)[Upper(members[n].0) := InvertRate(members[n].1)];
    if i < n {
      assert init[i] == members[i];
      forall j | i < j < n ensures Upper(init[j].0) != Upper(init[i].0) {
        assert init[j] == members[j];
      }
      InvertAllLastWins(init, i);
    }
  }

  /** The loop filling `inv`. */
  method InvertQuotes(members: seq<(string, Value)>) returns (inv: Rates)
    ensures inv == InvertAll(members)
  {
    inv := map[];
    var k := 0;
    while k < |members|
      invariant 0 <= k <= |members|
      invariant inv == InvertAll(members[..k])
      decreases |members| - k
    {
      assert members[..k + 1][..k] == members[..k];
      inv := inv[Upper(members[k].0) := InvertRate(members[k].1)];
      k := k + 1;
    }
    assert members[..k] == members;
  }

  /**
    The rates `fetch_fx_timeseries` returns: nothing when there are no rates,
    `{base: 1.0}` when the request (or reading the latest day) failed, and
    otherwise the inverted quotes of the latest day with the base pinned to 1.
  */
  function FxRatesOf(base: string, reply: FxReply): Rates {
    var b := Upper(base);
    match reply
    case FxFailed => map[b := Some(1.0)]
    case FxPayload(days) =>
      if days == [] then map[]
      else
        match days[LatestDay(days)].1
        case NotAnObject => map[b := Some(1.0)]
        case QuoteObject(members) => InvertAll(members)[b := Some(1.0)]
  }

  method FetchFxTimeseries(base: string, reply: FxReply) returns (fx: Rates)
    ensures fx == FxRatesOf(base, reply)
  {
    var b := Upper(base);
    if reply.FxFailed? {
      return map[b := Some(1.0)];
    }
    var days := reply.days;
    if days == [] {
      return map[];
    }
    var latest := days[LatestDay(days)].1;
    if latest.NotAnObject? {
      return map[b := Some(1.0)];
    }
    var inv := InvertQuotes(latest.members);
    fx := inv[b := Some(1.0)];
  }

  /** Unless the reply has no rates at all, the base currency is worth exactly 1. */
  lemma BasePinned(base: string, reply: FxReply)
    requires reply != FxPayload([])
    ensures Upper(base) in FxRatesOf(base, reply) && FxRatesOf(base, reply)[Upper(base)] == Some(1.0)
  {
  }

  /** A reply without rates converts nothing, and a failed request converts only the base currency. */
  lemma NoRates(base: string)
    ensures FxRatesOf(base, FxPayload([])) == map[]
    ensures FxRatesOf(base, FxFailed) == map[Upper(base) := Some(1.0)]
  {
  }

  /**
    A currency quoted on the latest day, other than the base, is worth the
    inverse of its last quote: a numeric non-zero rate `r` gives `q` with
    `q * r == 1`, anything else gives NaN.
  */
  lemma QuotedCurrency(base: string, days: seq<(string, Quotes)>, i: nat)
    requires days != [] && days[LatestDay(days)].1.QuoteObject?
    requires var members := days[LatestDay(days)].1.members;
      && i < |members|
      && Upper(members[i].0) != Upper(base)
      && forall j :: i < j < |members| ==> Upper(members[j].0) != Upper(members[i].0)
    ensures var members := days[LatestDay(days)].1.members;
      var fx := FxRatesOf(base, FxPayload(days));
      && Upper(members[i].0) in fx
      && fx[Upper(members[i].0)] == InvertRate(members[i].1)
  {
    var members := days[LatestDay(days)].1.members;
    InvertAllLastWins(members, i);
  }

  /** Every code in the rates is upper case, so looking up an upper-cased currency finds it. */
  lemma CodesUpperCase(base: string, reply: FxReply)
    ensures forall k :: k in FxRatesOf(base, reply) ==> Upper(k) == k
  {
    UpperIdempotent(base);
    forall k | k in FxRatesOf(base, reply) ensures Upper(k) == k {
      if k != Upper(base) {
        var members := reply.days[LatestDay(reply.days)].1.members;
        var i :| 0 <= i < |members| && Upper(members[i].0) == k;
        UpperIdempotent(members[i].0);
      }
    }
  }
}
