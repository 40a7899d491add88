/**
  `load_local_csvs`: every `.csv` file of the data directory that has a
  date, an amount and a currency column (found case-insensitively) becomes
  transactions, with defaults for the optional columns, filtered to the
  window by ISO text. Listing the directory and parsing the files are left
  out: the directory is given as its listing, each file as its table.
*/
module LocalCsv {
  import opened Wrappers
  import opened Text
  import opened Floats
  import opened Dates
  import opened Tables
  import opened Finance

  /** A directory entry: its name and, when `read_csv` can read it, its table. */
  datatype CsvFile = CsvFile(name: string, table: Option<Table>)

  /** The data directory: missing, or its entries in the order `os.listdir` gives them. */
  datatype DataDir = NoDirectory | Listing(files: seq<CsvFile>)

  /** `name.lower().endswith(".csv")`. */
  predicate IsCsvName(name: string) {
    EndsWith(Lower(name), ".csv")
  }

  /** The columns `pick` found: the three required ones and those of the optional ones that exist. */
  datatype Columns = Columns(
    date: nat, amount: nat, currency: nat,
    fee: Option<nat>, source: Option<nat>, kind: Option<nat>, status: Option<nat>, reference: Option<nat>)

  /** The columns of a header, or nothing when one of date, amount and currency is missing. */
  function ColumnsOf(header: seq<string>): (c: Option<Columns>)
    ensures c.Some? <==> PickColumn(header, "date").Some? && PickColumn(header, "amount").Some? && PickColumn(header, "currency").Some?
  {
    var date, amount, currency := PickColumn(header, "date"), PickColumn(header, "amount"), PickColumn(header, "currency");
    if date.None? || amount.None? || currency.None? then None
    else
      Some(Columns(date.value, amount.value, currency.value,
        PickColumn(header, "fee"), PickColumn(header, "source"), PickColumn(header, "type"),
        PickColumn(header, "status"), PickColumn(header, "reference")))
  }

  /** The cell as pandas hands it over: its text, or NaN when it is missing. */
  function CellValue(row: seq<string>, j: nat): Value {
    match Cell(row, j)
    case None => Float(None)
    case Some(s) => Str(s)
  }

  /** The text `pd.to_datetime` gives a missing date, once turned back into text. */
  const NotATime: string := "NaT"

  /**
    `pd.to_datetime(cell).date()` written back as text: an ISO date stays
    as it is; a missing cell, or one spelling NaT ("NaT", "nat", "NAT",
    "NAN"), reads "NaT"; and a date `to_datetime` cannot read (or a
    `Timestamp` cannot hold) raises.
  */
  function DateCell(row: seq<string>, j: nat): (r: Result<string, string>)
    ensures Cell(row, j).None? ==> r == Ok(NotATime)
    ensures Cell(row, j).Some? && row[j] in NaTStrings ==> r == Ok(NotATime)
    ensures Cell(row, j).Some? ==>
      (r.Ok? <==> row[j] in NaTStrings || (ParseIso(row[j]).Some? && InTimestampRange(ParseIso(row[j]).value)))
    ensures Cell(row, j).Some? && row[j] !in NaTStrings && r.Ok? ==> ParseIso(r.value) == ParseIso(row[j])
  {
    match Cell(row, j)
    case None => Ok(NotATime)
    case Some(s) =>
      if s in NaTStrings then Ok(NotATime)
      else
        match ParseIso(s)
        case None => Err("ValueError: unknown datetime format")
        case Some(d) =>
          if InTimestampRange(d) then
            ParseFormatIso(d);
            Ok(FormatIso(d))
          else Err("OutOfBoundsDatetime")
  }

  /**
    One row of a table: the date column as text, the amount through
    `to_float`, the currency upper-cased (a missing one reads "NAN"), and
    each optional column's cell or its default: fee 0, the file's name
    without ".csv", "order", and the empty text.
  */
  function RowOf(name: string, c: Columns, row: seq<string>): Result<Transaction, string> {
    match DateCell(row, c.date)
    case Err(e) => Err(e)
    case Ok(date) =>
      Ok(Transaction(
        date,
        ToFloat(CellValue(row, c.amount)),
        Upper(Cell(row, c.currency).GetOr("nan")),
        if c.fee.Some? then CellValue(row, c.fee.value) else Float(Some(0.0)),
        if c.source.Some? then Cell(row, c.source.value) else Some(RemoveAll(name, ".csv")),
        if c.kind.Some? then Cell(row, c.kind.value) else Some("order"),
        if c.status.Some? then Cell(row, c.status.value) else Some(""),
        if c.reference.Some? then Cell(row, c.reference.value) else Some("")))
  }

  /** `(df_out["date"] >= start) & (df_out["date"] <= end)`. */
  predicate InWindow(t: Transaction, w: Window) {
    LessEq(w.start, t.date) && LessEq(t.date, w.end)
  }

  function Keep(w: Window): Transaction -> bool {
    (t: Transaction) => InWindow(t, w)
  }

  /** The rows of a table once its columns are known: none when a date cannot be converted. */
  function TableRows(name: string, c: Columns, rows: seq<seq<string>>, w: Window): Option<seq<Transaction>> {
    match TryAll(rows, (row: seq<string>) => RowOf(name, c, row))
    case Err(_) => None
    case Ok(converted) => Some(MapFilter(converted, (x: Transaction) => x, Keep(w)))
  }

  /**
    The rows one directory entry contributes, or nothing when it is skipped:
    it is not named `.csv`, it cannot be read, a required column is missing,
    or its date column cannot be converted.
  */
  function FileRows(file: CsvFile, w: Window): Option<seq<Transaction>> {
    if !IsCsvName(file.name) || file.table.None? then None
    else
      var t := file.table.value;
      match ColumnsOf(t.header)
      case None => None
      case Some(c) => TableRows(file.name, c, t.rows, w)
  }

  /** What an entry adds to the result: its rows, or nothing when it is skipped. */
  function Frame(w: Window): CsvFile -> seq<Transaction> {
    (file: CsvFile) => FileRows(file, w).GetOr([])
  }

  /** The rows of the directory, file after file in listing order. */
  function LocalTransactions(dir: DataDir, w: Window): seq<Transaction> {
    match dir
    case NoDirectory => []
    case Listing(files) => ConcatMap(files, Frame(w))
  }

  method LoadLocalCsvs(dir: DataDir, w: Window) returns (rows: seq<Transaction>)
    ensures rows == LocalTransactions(dir, w)
  {
    if dir.NoDirectory? {
      return [];
    }
    var files := dir.files;
    rows := [];
    var k := 0;
    while k < |files|
      invariant 0 <= k <= |files|
      invariant rows == ConcatMap(files[..k], Frame(w))
      decreases |files| - k
    {
      FrameStep(files, k, w);
      var frame := FileRows(files[k], w);
      if frame.Some? {
        rows := rows + frame.value;
      }
      k := k + 1;
    }
    assert files[..k] == files;
  }

  /** What one more entry adds to the rows. */
  lemma FrameStep(files: seq<CsvFile>, k: nat, w: Window)
    requires k < |files|
    ensures ConcatMap(files[..k + 1], Frame(w)) == ConcatMap(files[..k], Frame(w)) + FileRows(files[k], w).GetOr([])
  {
    assert files[..k + 1] == files[..k] + [files[k]];
    ConcatMapSnoc(files[..k], files[k], Frame(w));
  }

  /** A column is found when some column keeping its own name lower-cases to the key. */
  predicate HasColumn(header: seq<string>, key: string) {
    exists j :: 0 <= j < |header| && KeepsName(header, j) && Lower(header[j]) == key
  }

  /** A file is usable exactly when it has date, amount and currency columns, in any case of letters. */
  lemma ColumnsFound(header: seq<string>)
    ensures ColumnsOf(header).Some? <==>
      HasColumn(header, "date") && HasColumn(header, "amount") && HasColumn(header, "currency")
  {
    PickIffHas(header, "date");
    PickIffHas(header, "amount");
    PickIffHas(header, "currency");
  }

  lemma PickIffHas(header: seq<string>, key: string)
    requires '.' !in key
    ensures PickColumn(header, key).Some? <==> HasColumn(header, key)
  {
    var j := PickColumn(header, key);
    if j.Some? {
      assert 0 <= j.value < |header| && KeepsName(header, j.value) && Lower(header[j.value]) == key;
    }
  }

  /**
    A file that is used contributes exactly the rows of its table that fall in
    the window, and fails as a whole when a single date cannot be read.
  */
  lemma TableRowsMeaning(name: string, c: Columns, rows: seq<seq<string>>, w: Window, t: Transaction)
    ensures TableRows(name, c, rows, w).Some? <==> forall i :: 0 <= i < |rows| ==> DateCell(rows[i], c.date).Ok?
    ensures TableRows(name, c, rows, w).Some? ==>
      (t in TableRows(name, c, rows, w).value <==> exists i :: 0 <= i < |rows| && RowOf(name, c, rows[i]) == Ok(t) && InWindow(t, w))
  {
    var f := (row: seq<string>) => RowOf(name, c, row);
    TryAllMeaning(rows, f);
    if TryAll(rows, f).Ok? {
      var converted := TryAll(rows, f).value;
      MapFilterMeaning(converted, (x: Transaction) => x, Keep(w), t);
      if exists i :: 0 <= i < |rows| && RowOf(name, c, rows[i]) == Ok(t) && InWindow(t, w) {
        var i :| 0 <= i < |rows| && RowOf(name, c, rows[i]) == Ok(t) && InWindow(t, w);
        assert converted[i] == t;
      }
    }
  }

  /** No row outside the window, and every row comes from a usable entry named `.csv`. */
  lemma LocalRowsInWindow(dir: DataDir, w: Window, t: Transaction)
    requires t in LocalTransactions(dir, w)
    ensures InWindow(t, w)
    ensures exists k :: 0 <= k < |dir.files| && IsCsvName(dir.files[k].name) && FileRows(dir.files[k], w).Some?
  {
    ConcatMapMeaning(dir.files, Frame(w), t);
    var k :| 0 <= k < |dir.files| && t in Frame(w)(dir.files[k]);
    FileRowsInWindow(dir.files[k], w, t);
  }

  lemma FileRowsInWindow(file: CsvFile, w: Window, t: Transaction)
    requires t in FileRows(file, w).GetOr([])
    ensures InWindow(t, w) && IsCsvName(file.name) && FileRows(file, w).Some?
  {
    var c := ColumnsOf(file.table.value.header).value;
    TableRowsMeaning(file.name, c, file.table.value.rows, w, t);
  }

  /** Without a source column, every row of `stem.csv` takes `stem` as its source. */
  lemma DefaultSource(stem: string, table: Table, w: Window, t: Transaction)
    requires '.' !in stem
    requires ColumnsOf(table.header).Some? && ColumnsOf(table.header).value.source.None?
    requires var file := CsvFile(stem + ".csv", Some(table));
      FileRows(file, w).Some? && t in FileRows(file, w).value
    ensures t.source == Some(stem)
  {
    var c := ColumnsOf(table.header).value;
    TableRowsMeaning(stem + ".csv", c, table.rows, w, t);
    RemoveAllSuffix(stem, ".csv");
  }
}
