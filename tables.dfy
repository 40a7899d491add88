/**
  A CSV file as `pandas.read_csv` hands it over: the header row and the
  data rows, each cell the raw text of its field. A field that is absent
  (a short row) or whose text is one of pandas' default missing-value
  markers reads as missing (NaN).
*/
module Tables {
  import opened Wrappers
  import opened Text

  datatype Table = Table(header: seq<string>, rows: seq<seq<string>>)

  /** The texts `read_csv` reads as a missing value by default. */
  const MissingMarkers: set<string> := {
    "", "#N/A", "#N/A N/A", "#NA", "-1.#IND", "-1.#QNAN", "-NaN", "-nan",
    "1.#IND", "1.#QNAN", "<NA>", "N/A", "NA", "NULL", "NaN", "None", "n/a", "nan", "null"
  }

  /** The cell in column `j` of `row`: `None` when it is missing. */
  function Cell(row: seq<string>, j: nat): (c: Option<string>)
    ensures c.None? <==> j >= |row| || row[j] in MissingMarkers
    ensures c.Some? ==> c.value == row[j]
  {
    if j < |row| && row[j] !in MissingMarkers then Some(row[j]) else None
  }

  /**
    The column `df[name]` reads: the first one with that exact header (pandas
    renames later duplicates `name.1`, `name.2`, ...), or none.
  */
  function ColumnIndex(header: seq<string>, name: string): (j: Option<nat>)
    ensures j.None? <==> name !in header
    ensures j.Some? ==> j.value < |header| && header[j.value] == name && name !in header[..j.value]
  {
    if header == [] then None
    else if header[0] == name then
      assert header[..0] == [];
      Some(0)
    else
      match ColumnIndex(header[1..], name)
      case None => None
      case Some(j) =>
        assert header[..j + 1] == [header[0]] + header[1..][..j];
        Some(j + 1)
  }

  /** Column `j` keeps its own name: no earlier column has the same header. */
  predicate KeepsName(header: seq<string>, j: nat)
    requires j < |header|
  {
    header[j] !in header[..j]
  }

  /**
    The column that `{c.lower(): c for c in df.columns}.get(key)` picks: the
    last column whose (pandas-renamed) name lower-cases to `key`. A renamed
    duplicate carries a `.n` suffix, so it only matches a key holding a point.
  */
  function PickColumn(header: seq<string>, key: string): (j: Option<nat>)
    requires '.' !in key
    ensures j.Some? ==> j.value < |header| && KeepsName(header, j.value) && Lower(header[j.value]) == key
    ensures j.Some? ==> forall l :: j.value < l < |header| && KeepsName(header, l) ==> Lower(header[l]) != key
    ensures j.None? ==> forall l :: 0 <= l < |header| && KeepsName(header, l) ==> Lower(header[l]) != key
    decreases |header|
  {
    if header == [] then None
    else
      var last := |header| - 1;
      if KeepsName(header, last) && Lower(header[last]) == key then Some(last)
      else
        var j := PickColumn(header[..last], key);
        assert forall l :: 0 <= l < last ==> header[..last][..l] == header[..l];
        j
  }
}
