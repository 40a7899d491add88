/**
  `fetch_generic_json`: a JSON list of order-like objects, each normalised
  to a transaction with defaults and kept when its date falls in the
  window, compared as ISO text. The request is left out: its outcome is a
  parameter.
*/
module GenericJson {
  import opened Wrappers
  import opened Text
  import opened Floats
  import opened Finance

  /**
    An object of the list: `text` holds `str()` of each member that is
    present, `amount` and `fee` its raw amount and fee (`Null` when absent,
    as `o.get` gives `None`).
  */
  datatype Record = Record(text: map<string, string>, amount: Value, fee: Value)

  datatype JsonItem = Object(record: Record) | NotAnObject

  /** What the request produced. */
  datatype JsonReply =
    /** The request raised, the status was an error, or the body was not JSON. */
    | JsonFailed
    /** The body was JSON but not a list. */
    | NotAList
    | JsonList(items: seq<JsonItem>)

  /** `str(o.get(key, default))`. */
  function Get(text: map<string, string>, key: string, default: string): string {
    if key in text then text[key] else default
  }

  /** The normalised record of one object. */
  function Normalise(o: Record): Transaction {
    var currency := Upper(Get(o.text, "currency", ""));
    Transaction(
      Take(Get(o.text, "date", ""), 10),
      ToFloat(o.amount),
      if currency == "" then "EUR" else currency,
      Float(ToFloat(o.fee)),
      Some(Get(o.text, "source", "generic")),
      Some(Get(o.text, "type", "order")),
      Some(Get(o.text, "status", "")),
      Some(Get(o.text, "reference", "")))
  }

  /**
    The normalised date is the first ten characters of the given one; the
    currency is upper case and "EUR" when none is given; the amount and fee
    go through `to_float`; the text fields default to "generic", "order"
    and the empty text.
  */
  lemma NormaliseDefaults(o: Record)
    ensures var t := Normalise(o);
      && |t.date| <= 10 && t.date == Take(Get(o.text, "date", ""), 10)
      && t.amount == ToFloat(o.amount) && t.fee == Float(ToFloat(o.fee))
      && t.currency != "" && Upper(t.currency) == t.currency
      && (Upper(Get(o.text, "currency", "")) == "" ==> t.currency == "EUR")
      && (Upper(Get(o.text, "currency", "")) != "" ==> t.currency == Upper(o.text["currency"]))
      && ("source" !in o.text ==> t.source == Some("generic"))
      && ("type" !in o.text ==> t.kind == Some("order"))
      && ("status" !in o.text ==> t.status == Some(""))
      && ("reference" !in o.text ==> t.reference == Some(""))
  {
    UpperIdempotent(Get(o.text, "currency", ""));
    UpperIdempotent("EUR");
  }

  /** `d["date"] and start <= d["date"] <= end`. */
  predicate InWindow(t: Transaction, w: Window) {
    t.date != "" && LessEq(w.start, t.date) && LessEq(t.date, w.end)
  }

  function Keep(w: Window): Transaction -> bool {
    (t: Transaction) => InWindow(t, w)
  }

  predicate AllObjects(items: seq<JsonItem>) {
    forall i :: 0 <= i < |items| ==> items[i].Object?
  }

  function Records(items: seq<JsonItem>): (rs: seq<Record>)
    requires AllObjects(items)
    ensures |rs| == |items| && forall i :: 0 <= i < |items| ==> rs[i] == items[i].record
  {
    seq(|items|, i requires 0 <= i < |items| => items[i].record)
  }

  /**
    The rows `fetch_generic_json` returns: none without a URL or when the
    request fails or does not give a list; none either when an element is
    not an object (`o.get` raises, and the handler returns an empty frame);
    otherwise the normalised records in the window, in order.
  */
  function GenericTransactions(url: string, w: Window, reply: JsonReply): seq<Transaction> {
    if url == "" then []
    else
      match reply
      case JsonList(items) =>
        if AllObjects(items) then MapFilter(Records(items), Normalise, Keep(w)) else []
      case _ => []
  }

  method FetchGenericJson(url: string, w: Window, reply: JsonReply) returns (norm: seq<Transaction>)
    ensures norm == GenericTransactions(url, w, reply)
  {
    if url == "" || !reply.JsonList? {
      return [];
    }
    var items := reply.items;
    norm := [];
    var k := 0;
    while k < |items|
      invariant 0 <= k <= |items|
      invariant AllObjects(items[..k])
      invariant norm == MapFilter(Records(items[..k]), Normalise, Keep(w))
      decreases |items| - k
    {
      var o := items[k];
      if o.NotAnObject? {
        assert !AllObjects(items);
        return [];
      }
      var d := Normalise(o.record);
      KeptStep(items, w, k);
      if InWindow(d, w) {
        norm := norm + [d];
      }
      k := k + 1;
    }
    assert items[..k] == items;
  }

  /** What one more object adds to the kept records. */
  lemma KeptStep(items: seq<JsonItem>, w: Window, k: nat)
    requires k < |items| && items[k].Object? && AllObjects(items[..k])
    ensures AllObjects(items[..k + 1])
    ensures var d := Normalise(items[k].record);
      MapFilter(Records(items[..k + 1]), Normalise, Keep(w))
        == MapFilter(Records(items[..k]), Normalise, Keep(w)) + (if InWindow(d, w) then [d] else [])
  {
    RecordsSnoc(items, k);
    MapFilterSnoc(Records(items[..k]), items[k].record, Normalise, Keep(w));
  }

  lemma RecordsSnoc(items: seq<JsonItem>, k: nat)
    requires k < |items| && items[k].Object? && AllObjects(items[..k])
    ensures AllObjects(items[..k + 1])
    ensures Records(items[..k + 1]) == Records(items[..k]) + [items[k].record]
  {
    assert forall i :: 0 <= i < k ==> items[..k + 1][i] == items[..k][i];
  }

  /**
    A record is returned exactly when the list holds only objects, one of
    them normalises to it, and its date lies in the window.
  */
  lemma GenericRowsMeaning(url: string, w: Window, items: seq<JsonItem>, t: Transaction)
    requires url != ""
    ensures t in GenericTransactions(url, w, JsonList(items)) <==>
      && AllObjects(items)
      && (exists i :: 0 <= i < |items| && Normalise(items[i].record) == t)
      && InWindow(t, w)
  {
    if AllObjects(items) {
      var rs := Records(items);
      MapFilterMeaning(rs, Normalise, Keep(w), t);
      if exists i :: 0 <= i < |items| && Normalise(items[i].record) == t {
        var i :| 0 <= i < |items| && Normalise(items[i].record) == t;
        assert rs[i] == items[i].record;
      }
    }
  }

  /** Every returned record lies in the window, both ends included. */
  lemma GenericRowsInWindow(url: string, w: Window, reply: JsonReply)
    ensures forall t :: t in GenericTransactions(url, w, reply) ==> InWindow(t, w)
  {
    if url != "" && reply.JsonList? {
      forall t | t in GenericTransactions(url, w, reply) ensures InWindow(t, w) {
        GenericRowsMeaning(url, w, reply.items, t);
      }
    }
  }

  /** Without a URL, or with one element that is not an object, nothing is returned. */
  lemma NothingReturned(url: string, w: Window, reply: JsonReply, i: nat)
    requires url == "" || (reply.JsonList? && i < |reply.items| && reply.items[i].NotAnObject?)
    ensures GenericTransactions(url, w, reply) == []
  {
  }
}
