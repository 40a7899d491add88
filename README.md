# Price monitor and financial consolidation — a Dafny model

This project models the decision logic of two scripts. Each part is a
Dafny module and is proved against its own specification.

**The competitor price monitor** (`Motorizacion_Precios/Scripts/Motorizacion.py`):
- reading a price out of scraped text (`PRICE_PATTERN`, `parse_price`);
- the out-of-stock heuristic;
- loading the targets table;
- the retry policy of `fetch_html`;
- the per-target comparison with our price and its two alert rules;
- the loop in `monitor` that builds one observation row per target and appends the day's rows to the history.

**The financial consolidation** (`Consolidacion_Financiera/.github/Consolidacion.py`):
- `env`, `daterange_default` and `to_float`;
- the inversion of the exchange-rate time series;
- normalisation of the three transaction sources (Stripe charges and refunds, a generic JSON list, local CSV files) with their date windows;
- `consolidate`, which converts each row into the base currency;
- `compute_kpis`, which rolls the rows up per calendar day and per (day, source).

## How the model is built

Modules:
- Shared helpers:
  - `Wrappers`: `Option`, `Result`, and generic folds (`TryAll`, `MapFilter`, `ConcatMap`) with their loops and lemmas.
  - `Text`: Python string operations on ASCII.
  - `Floats`: Python's `float(str)` and the scalar values pandas hands over.
  - `Dates`: the proleptic Gregorian calendar as day numbers, ISO text and `Timestamp` bounds.
  - `Tables`: a CSV table as pandas reads it.
- Price monitor: `PriceParsing`, `Fetcher`, `Monitor`.
- Consolidation: `Finance`, `FxRates`, `Stripe`, `GenericJson`, `LocalCsv`, `Kpis`.

Conventions:
- NaN is `None` in `Num = Option<real>`.
- An exception the source raises is `Err` in a `Result`.
- The loops of the source are methods. Each method is proved equal to a function, and the properties are proved about that function:
  - the attempt loop;
  - the loop over targets;
  - `load_targets`;
  - the Stripe cursor loops;
  - the JSON loop;
  - the CSV directory loop;
  - the loop filling the inverted rates.

Things not modelled directly become parameters:
- What the network answers: for each target, a server answering attempt by attempt. Also the Stripe pages and the FX reply.
- The directory listing.
- The clock, as `today`.
- The environment, as a map.

## Where the code and its description differ (the model follows the code)

- **A price with both separators.** "1.234,56" is read as 1.234, not 1234.56. `PRICE_PATTERN` stops at the second separator, so the European branch of `parse_price` can never fire on a token it extracted. See `PriceParsing.EuropeanBranchUnreachable` and `PriceParsing.EuropeanThousandsCut`.
- **The undercut threshold.** The rule's comparison is strict. A competitor exactly 15% cheaper alerts only when the threshold is smaller than 15 in size (`Monitor.FifteenPercentCheaper`).
- **Retry waits.** `wait_exponential` adds no jitter. The waits actually used are 1, 2 and 4 seconds (`Fetcher.BackoffSchedule`).
- **Missing cells.** pandas reads the default missing-value markers (such as "nan" or "NA") in a CSV cell as a missing value. Such a cell is therefore not text.
- **Missing dates in the KPIs.** `compute_kpis` puts rows whose date is empty or a spelling of NaT ("NaT", "nat", "NAT", "nan", "NaN", "NAN") under no day. A date text that is none of these and not ISO raises. The date column of a local CSV file reads those spellings as NaT in the same way.
- **A price of zero.** When our price is 0 and a competitor price is known, the percentage divides by zero and raises. That target then gets an error row.

## Model

| member | source | states |
|---|---|---|
| PriceParsing.PriceMatch | Motorizacion_Precios/Scripts/Motorizacion.py:32 | the leftmost match of `\d+[.,]?\d*`: none exactly when the text has no digit; otherwise no digit before it, the token shape, and the match cannot be extended |
| PriceParsing.EuropeanBranchUnreachable | Motorizacion_Precios/Scripts/Motorizacion.py:32 | a token of the pattern's shape never holds both a comma and a point, so the "both separators" branch cannot fire |
| PriceParsing.NormalisedIsPointForm | Motorizacion_Precios/Scripts/Motorizacion.py:74-79 | normalising a matched token turns its one separator, comma or point, into the decimal point and keeps the digits |
| PriceParsing.ParsePriceMeaning | Motorizacion_Precios/Scripts/Motorizacion.py:68-83 | `parse_price` gives nothing exactly when the text has no digit; otherwise it gives the value of the first token, with either separator as the decimal point (the conversion never fails) |
| PriceParsing.NoBreakSpaceIrrelevant | Motorizacion_Precios/Scripts/Motorizacion.py:70 | turning non-breaking spaces into spaces changes neither the place nor the text of the match |
| PriceParsing.ConvertToken | Motorizacion_Precios/Scripts/Motorizacion.py:80-81 | `float` accepts every normalised token and returns the token's value |
| PriceParsing.EitherSeparatorIsDecimal | Motorizacion_Precios/Scripts/Motorizacion.py:68-83 | "19,99", "19.99" and "€45,00"-style texts read as whole + fraction with either separator |
| PriceParsing.EuropeanThousandsCut | Motorizacion_Precios/Scripts/Motorizacion.py:69-77 | "w.ttt,cc" reads as w.ttt, because the match stops at the comma |
| PriceParsing.MentionsAny | Motorizacion_Precios/Scripts/Motorizacion.py:150 | `any(k in text for k in phrases)` holds exactly when some phrase occurs in the text |
| PriceParsing.InStock | Motorizacion_Precios/Scripts/Motorizacion.py:147-150 | no text gives unknown; False exactly when one of the four phrases occurs; True exactly when none does |
| PriceParsing.ExtractPriceAndStock | Motorizacion_Precios/Scripts/Motorizacion.py:85-95 | a missing price element gives no price, otherwise the parse of its stripped text; the stock text appears exactly when a non-empty stock selector matches, and is lower-cased |
| PriceParsing.ShoutedPhrase | Motorizacion_Precios/Scripts/Motorizacion.py:94 | a phrase written in capitals is still recognised, because the text is lower-cased first |
| PriceParsing.GetTextSingle | Motorizacion_Precios/Scripts/Motorizacion.py:88 | `get_text(strip=True)` of a single text piece is that piece stripped |
| Fetcher.Attempt | Motorizacion_Precios/Scripts/Motorizacion.py:59-66 | one attempt succeeds exactly on a reply below 400 and returns its page; a status of 400 or more raises "HTTP status on url"; a connection error raises its own message |
| Fetcher.Backoff | Motorizacion_Precios/Scripts/Motorizacion.py:56 | the wait after a failed attempt lies between 1 and 16 seconds |
| Fetcher.WaitsBefore | Motorizacion_Precios/Scripts/Motorizacion.py:53-58 | k attempts are separated by k−1 waits, the i-th being the backoff after attempt i |
| Fetcher.FetchWithRetry | Motorizacion_Precios/Scripts/Motorizacion.py:53-59 | the attempt loop returns the retry outcome, and the waits it records are exactly those between the attempts made |
| Fetcher.FetchSucceedsIff | Motorizacion_Precios/Scripts/Motorizacion.py:53-58 | fetching succeeds exactly when one of the at most four attempts succeeds; the page is then that of the first successful attempt, and every earlier attempt failed |
| Fetcher.FetchFailsWithLastError | Motorizacion_Precios/Scripts/Motorizacion.py:54-57 | when every attempt fails, four attempts are made and the last attempt's error is re-raised |
| Fetcher.BackoffSchedule | Motorizacion_Precios/Scripts/Motorizacion.py:56-57 | the waits of four attempts are 1, 2 and 4 seconds; the clamp at 16 is never reached |
| Fetcher.FourthAttemptSucceeds | Motorizacion_Precios/Scripts/Motorizacion.py:53-58 | three connection failures followed by a good reply give that reply's page, after waits of 1, 2 and 4 |
| Monitor.Required | Motorizacion_Precios/Scripts/Motorizacion.py:119-123 | a required column raises exactly when the table lacks it; otherwise its cell is read as stripped text, with missing read as "" |
| Monitor.Optional | Motorizacion_Precios/Scripts/Motorizacion.py:120-124 | an optional column the table lacks reads as ""; otherwise its cell is stripped |
| Monitor.OurPrice | Motorizacion_Precios/Scripts/Motorizacion.py:121 | `float(r["our_price"])` raises exactly when the column is missing or `float` rejects the text |
| Monitor.LoadTargets | Motorizacion_Precios/Scripts/Motorizacion.py:113-126 | the loop over the rows returns the targets of the rows in order, or the first error |
| Monitor.TargetsMeaning | Motorizacion_Precios/Scripts/Motorizacion.py:113-126 | loading succeeds exactly when every row yields a target; there is then one target per row, in row order; otherwise the first bad row's error is raised |
| Monitor.NoRowsNoTargets | Motorizacion_Precios/Scripts/Motorizacion.py:114-117 | a table without rows loads as no targets, whatever its columns |
| Monitor.TargetFieldsTrimmed | Motorizacion_Precios/Scripts/Motorizacion.py:118-125 | every text field of a target is stripped, and an empty stock selector becomes None |
| Monitor.Deltas | Motorizacion_Precios/Scripts/Motorizacion.py:146-153 | no competitor price (or no price of ours) gives NaN deltas, never 0; both known with ours non-zero gives both deltas; a division by our zero price raises; a known difference is competitor minus ours |
| Monitor.DeltasPercent | Motorizacion_Precios/Scripts/Motorizacion.py:153 | the percentage times our price equals the difference times 100 |
| Monitor.AlertRules | Motorizacion_Precios/Scripts/Motorizacion.py:167-189 | at most two alerts; the undercut alert exactly when the rule fires; the stock alert exactly when the competitor is out of stock; each alert carries the target's sku, price and percentage |
| Monitor.ObserveAlerts | Motorizacion_Precios/Scripts/Motorizacion.py:142-199 | the same rules, stated against the row a target leaves |
| Monitor.ErrorRowShape | Motorizacion_Precios/Scripts/Motorizacion.py:194-199 | an error row has no alerts, NaN price and deltas, unknown stock and a message of at most 200 characters; a failed fetch keeps the first 200 characters of its error |
| Monitor.UndercutMeaning | Motorizacion_Precios/Scripts/Motorizacion.py:168 | for a positive price of ours, the undercut fires exactly when (ours − competitor)·100 > \|threshold\|·ours, so a gap of exactly the threshold does not alert |
| Monitor.ThresholdSignIgnored | Motorizacion_Precios/Scripts/Motorizacion.py:168 | a threshold and its negation fire on the same inputs |
| Monitor.FifteenPercentCheaper | Motorizacion_Precios/Scripts/Motorizacion.py:168 | 85 against 100 gives −15%, which alerts only when the threshold is smaller than 15 in size |
| Monitor.NoPriceNoUndercut | Motorizacion_Precios/Scripts/Motorizacion.py:146-153 | without a competitor price the deltas are NaN and the undercut cannot fire |
| Monitor.ObserveTarget | Motorizacion_Precios/Scripts/Motorizacion.py:143-199 | one pass of the loop body, the fetch with retries and then the comparison, yields the target's row and alerts |
| Monitor.VisitTargets | Motorizacion_Precios/Scripts/Motorizacion.py:139-199 | the loop leaves exactly one row per target, in target order, and the alerts are those of each target in order |
| Monitor.RunMonitor | Motorizacion_Precios/Scripts/Motorizacion.py:131-209 | a bad targets table aborts the run; otherwise one row per target in order; the day's alerts; the new history is the old one (or nothing) followed by the day's rows |
| Monitor.RowCarriesTarget | Motorizacion_Precios/Scripts/Motorizacion.py:155-165 | every row, the error row included, carries the date of the run and its target's sku, name, price of ours and url |
| Monitor.AlertsBound | Motorizacion_Precios/Scripts/Motorizacion.py:167-189 | the day has at most two alerts per target |
| Monitor.HistoryGrowth | Motorizacion_Precios/Scripts/Motorizacion.py:204-209 | the history grows by exactly the number of targets and keeps the old rows as its prefix |
| Finance.Env | Consolidacion_Financiera/.github/Consolidacion.py:31-33 | the variable's value when it is set and not empty, otherwise the default |
| Finance.DateRangeDefault | Consolidacion_Financiera/.github/Consolidacion.py:38-45 | the end is END_DATE or today; a given START_DATE is kept; otherwise it succeeds exactly when the end is an ISO date at least thirty days after 0001-01-01 |
| Finance.DefaultWindowSpan | Consolidacion_Financiera/.github/Consolidacion.py:38-45 | the default start is an ISO date exactly thirty days before the end |
| Finance.ToFloat | Consolidacion_Financiera/.github/Consolidacion.py:50-58 | None and NaN give NaN; numbers are kept; text is stripped and its commas made points before `float`; any failure gives NaN |
| Finance.ToFloatDecimal | Consolidacion_Financiera/.github/Consolidacion.py:54-56 | " 12,50 " and "12.50" both read as 12.5 |
| Finance.ToFloatNoDigit | Consolidacion_Financiera/.github/Consolidacion.py:56-58 | text without a digit reads as NaN instead of raising |
| Finance.ToFloatIdempotent | Consolidacion_Financiera/.github/Consolidacion.py:50-58 | applying `to_float` to its own result changes nothing |
| FxRates.LatestDayIsLatest | Consolidacion_Financiera/.github/Consolidacion.py:78 | the day picked is not before any other day of the series |
| FxRates.InvertRate | Consolidacion_Financiera/.github/Consolidacion.py:84-87 | a quote inverts exactly when it is truthy, numeric and not zero, to one over its value; anything else gives NaN |
| FxRates.InvertAll | Consolidacion_Financiera/.github/Consolidacion.py:82-87 | the inverted table has exactly the upper-cased codes of the quotes |
| FxRates.InvertAllLastWins | Consolidacion_Financiera/.github/Consolidacion.py:83-87 | a code holds the inverse of the last quote whose code upper-cases to it |
| FxRates.InvertQuotes | Consolidacion_Financiera/.github/Consolidacion.py:82-87 | the loop filling `inv` builds that table |
| FxRates.FetchFxTimeseries | Consolidacion_Financiera/.github/Consolidacion.py:64-91 | the rates returned for a reply |
| FxRates.BasePinned | Consolidacion_Financiera/.github/Consolidacion.py:88-91 | unless the reply has no rates, the base currency is worth exactly 1 |
| FxRates.NoRates | Consolidacion_Financiera/.github/Consolidacion.py:76-77 | no rates give an empty table, and a failed request gives {base: 1} |
| FxRates.QuotedCurrency | Consolidacion_Financiera/.github/Consolidacion.py:78-88 | a currency of the latest day, other than the base, holds the inverse of its last quote |
| FxRates.CodesUpperCase | Consolidacion_Financiera/.github/Consolidacion.py:69-88 | every code in the table is upper case |
| Stripe.DateOfTimestamp | Consolidacion_Financiera/.github/Consolidacion.py:140 | a timestamp gives the ISO day that holds that second; outside the years 1 to 9999 it raises |
| Stripe.ChargeFee | Consolidacion_Financiera/.github/Consolidacion.py:129-138 | no balance transaction gives a fee of 0; a lookup answering below 400 gives its `fee` (default 0) over 100; a lookup that raises or answers 400 or more leaves the fee at 0 |
| Stripe.ChargeRow | Consolidacion_Financiera/.github/Consolidacion.py:127-148 | a charge row: amount in cents/100, the looked-up fee, its day, the upper-cased currency, and source "stripe" with type "charge" |
| Stripe.RefundRow | Consolidacion_Financiera/.github/Consolidacion.py:164-174 | a refund row: amount −\|cents/100\|, never positive; fee 0; upper-cased currency; type "refund" |
| Stripe.CollectPages | Consolidacion_Financiera/.github/Consolidacion.py:113-178 | the `while True` cursor loop returns the rows of the pages up to the one without `has_more` or the first error status; a raised request or a missing cursor raises |
| Stripe.FetchStripeCharges | Consolidacion_Financiera/.github/Consolidacion.py:97-180 | no API key gives no rows; a window that is not ISO raises; otherwise the charge rows and then the refund rows |
| Stripe.PagesAll | Consolidacion_Financiera/.github/Consolidacion.py:115-151 | a property held by every row the page loop can make is held by every row it collects |
| Stripe.StripeRowsShape | Consolidacion_Financiera/.github/Consolidacion.py:113-180 | every row is a Stripe charge or refund with an upper-case currency, and every refund has no positive amount and no fee |
| Stripe.NoKeyNoRows | Consolidacion_Financiera/.github/Consolidacion.py:102-103 | without an API key there are no rows |
| Stripe.SinglePage | Consolidacion_Financiera/.github/Consolidacion.py:127-150 | a single page without `has_more` gives one row per object, in order |
| GenericJson.NormaliseDefaults | Consolidacion_Financiera/.github/Consolidacion.py:207-216 | the date is the first 10 characters; the currency is upper case, with "EUR" when empty; amount and fee go through `to_float`; source, type, status and reference default to "generic", "order", "" and "" |
| GenericJson.FetchGenericJson | Consolidacion_Financiera/.github/Consolidacion.py:193-222 | the loop over the list returns the normalised records in the window, in order; there are none without a URL, with a failed request, when the body is not a list, or when an element is not an object |
| GenericJson.GenericRowsMeaning | Consolidacion_Financiera/.github/Consolidacion.py:205-220 | a record is returned exactly when the list holds only objects, one of them normalises to it, and its date is non-empty and between start and end |
| GenericJson.GenericRowsInWindow | Consolidacion_Financiera/.github/Consolidacion.py:218 | every returned record lies in the window, both ends included |
| GenericJson.NothingReturned | Consolidacion_Financiera/.github/Consolidacion.py:193-204 | a missing URL, or one element that is not an object, gives no records |
| LocalCsv.ColumnsOf | Consolidacion_Financiera/.github/Consolidacion.py:243-249 | a file is usable exactly when date, amount and currency columns are found |
| LocalCsv.ColumnsFound | Consolidacion_Financiera/.github/Consolidacion.py:243-249 | those columns are found case-insensitively, exactly when some column that keeps its own name lower-cases to the key |
| LocalCsv.DateCell | Consolidacion_Financiera/.github/Consolidacion.py:251 | a missing date, or one spelling NaT, reads "NaT"; an ISO date a Timestamp can hold is kept, with the same date; anything else raises |
| LocalCsv.LoadLocalCsvs | Consolidacion_Financiera/.github/Consolidacion.py:228-265 | the loop over the directory returns the rows of each usable file, in listing order |
| LocalCsv.TableRowsMeaning | Consolidacion_Financiera/.github/Consolidacion.py:250-264 | a file is used exactly when every date converts, and it then contributes exactly its rows inside the window |
| LocalCsv.LocalRowsInWindow | Consolidacion_Financiera/.github/Consolidacion.py:237-265 | every row lies in the window and comes from a usable entry named `.csv` |
| LocalCsv.DefaultSource | Consolidacion_Financiera/.github/Consolidacion.py:256 | without a source column, every row of `stem.csv` has source `stem` |
| Kpis.Consolidate | Consolidacion_Financiera/.github/Consolidacion.py:271-279 | one consolidated row per transaction, in order; no transactions give no rows |
| Kpis.ConsolidatedFacts | Consolidacion_Financiera/.github/Consolidacion.py:275-278 | amount and fee are converted at the currency's rate; an unknown currency gives NaN; a NaN fee counts as 0; the base currency is set on every row |
| Kpis.BaseCurrencyKept | Consolidacion_Financiera/.github/Consolidacion.py:271-279 | with the returned rates, an amount already in the base currency is kept as it is, and so is its fee |
| Kpis.ConversionAtQuote | Consolidacion_Financiera/.github/Consolidacion.py:271-279 | for a currency quoted at q, the base amount is the amount divided by q |
| Kpis.KpiSigns | Consolidacion_Financiera/.github/Consolidacion.py:288-292 | in every group, gross and refunds are never negative, gross − refunds is the sum of the known amounts, and net = that sum − fees |
| Kpis.DayOf | Consolidacion_Financiera/.github/Consolidacion.py:284 | the spellings of NaT and "" give no day (and only they do); an ISO date within Timestamp range gives its day; anything else raises |
| Kpis.Span | Consolidacion_Financiera/.github/Consolidacion.py:286 | the first and last of the days present, or none when no day is present |
| Kpis.ComputeKpis | Consolidacion_Financiera/.github/Consolidacion.py:281-302 | no rows give empty tables; it fails exactly when some date cannot be read; otherwise it gives the daily and per-source tables |
| Kpis.DailyDays | Consolidacion_Financiera/.github/Consolidacion.py:286-293 | the daily table has exactly the days that lie between the days of two dated rows, empty days included |
| Kpis.DailyDomain | Consolidacion_Financiera/.github/Consolidacion.py:286-293 | each day from the first to the last holds the rollup of the rows dated on it |
| Kpis.EmptyDay | Consolidacion_Financiera/.github/Consolidacion.py:291 | a day without rows has all four figures zero |
| Kpis.BySourcePairs | Consolidacion_Financiera/.github/Consolidacion.py:295-299 | the per-source table has an entry exactly for each (day, source) pair some row carries |
| Kpis.GroupMeaning | Consolidacion_Financiera/.github/Consolidacion.py:284-299 | a row is in a group exactly when it is one of the rows and passes the group's test |
| Kpis.Partition | Consolidacion_Financiera/.github/Consolidacion.py:286-290 | summing day by day over a range equals summing over the rows dated in that range |
| Kpis.DailyTotals | Consolidacion_Financiera/.github/Consolidacion.py:286-293 | summed over all days, the daily gross, refunds and fees equal those of all dated rows: each dated row is counted exactly once |
| Tables.PickColumn | Consolidacion_Financiera/.github/Consolidacion.py:243-244 | `{c.lower(): c}` lookup: the last column keeping its name that lower-cases to the key, or none |
| Dates.MinusDays | Consolidacion_Financiera/.github/Consolidacion.py:44 | subtracting days succeeds exactly when the result is not before 0001-01-01, and it is that many days earlier |
| Dates.ParseFormatIso | Consolidacion_Financiera/.github/Consolidacion.py:44 | `isoformat()` text parses back to the same date |
| Wrappers.TryAllMeaning | Motorizacion_Precios/Scripts/Motorizacion.py:117-126 | converting every element succeeds exactly when each one does, and then gives each one's result in order |
| Wrappers.MapFilterMeaning | Consolidacion_Financiera/.github/Consolidacion.py:206-219 | an item is kept exactly when it is the mapped form of an element that passes the test |
| Wrappers.ConcatMapMeaning | Consolidacion_Financiera/.github/Consolidacion.py:237-265 | an item of the concatenation comes from one of the elements |

## Left out

- HTTP requests, `time.sleep` throttling, random user agents and the request headers (including the bearer header of the JSON source) are left out. What each request answers is a parameter.
- Waits are recorded, not slept: `FetchWithRetry` returns them.
- BeautifulSoup's HTML parsing and CSS selection are left out. A page is a map from selector to the first element it selects. Only `get_text` over that element's text pieces is modelled.
- Slack and e-mail notifications, writing the alerts CSV and summary file, the history CSV I/O, `write_summary`, `main`, argparse and `os.makedirs` are file and network I/O. The history is passed in (or absent) and returned.
- The wall clock is left out. `today` is a parameter.
- The `symbols` parameter of the FX request only narrows what the server returns. The reply is a parameter, so the parameter has no effect in the model.
- Stripe's server-side filtering by `created` is left out. The rows are those the pages hold.
- Pages beyond those given are treated as an error status, which ends the loop.
- Monitor.AlertRules: `delta_pct` is kept unrounded and the reason text is left out. `round(…, 2)` is floating-point rounding.
- Amounts are exact reals. IEEE rounding, `inf`, underscores in numerals and other `float` syntax beyond digits, a point, an exponent and a sign are not modelled.
- NaN is `None`, so NaN comparisons are false and sums skip NaN, as pandas does.
- `str()` of non-text JSON members is taken as given. A record's text fields hold it.
- The order of duplicate JSON keys is not modelled: the last one wins, as in Python.
- Upper- and lower-casing cover ASCII letters only.
- pandas type inference of CSV columns is left out. Cells are text, or missing when they hold a default missing marker.
- `to_datetime` formats other than ISO `YYYY-MM-DD` are read as errors.
- Finance.DateRangeDefault: END_DATE is read only in the `YYYY-MM-DD` form. `isoparse` also accepts forms such as `20240701`, `2024-07` or a date with a time; on those the model raises where the source computes a window.
- Stripe.FetchStripeCharges: the window's ends are read only in the `YYYY-MM-DD` form. `fromisoformat` also accepts a date with a time and other ISO forms; on those the model raises where the source lists the charges.
- PriceParsing.PriceMatch: `\d` is taken as the ASCII digits 0-9. Python's `\d` matches every Unicode decimal digit (such as Arabic-Indic or full-width digits); on text holding those the source can find a different first number, or one where the model finds none.
- PriceParsing.ParsePriceMeaning: holds for ASCII digits only, as for `PriceMatch`. `float` also converts other Unicode decimal digits, so `parse_price` of "٤٥" is 45.0 in the source and nothing in the model.
- Duplicate column names work as pandas reads them: the first for `df[name]` and the last for the lower-case lookup. Other uses of duplicates are not modelled.
- Kpis.DailyTotals: conservation is proved for the daily table only. For the per-source table, only which entries exist is proved (`Kpis.BySourcePairs`).
