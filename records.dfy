/**
 * Imported spreadsheet rows, as the importer hands them to the matcher:
 * each row is an object of column name to cell value, read in the order
 * `Object.entries` lists it.
 */
module Records {
  import opened Wrappers
  import opened JsArray

  /**
   * A cell value. The importer fills blank cells with the empty string, so a
   * cell is text, a number or a boolean. `Number` carries the number as
   * JavaScript's `String(n)` prints it.
   */
  datatype Cell = Text(s: string) | Number(shown: string) | Boolean(b: bool)

  /** JavaScript's `String(v)`. */
  function CellString(c: Cell): string {
    match c
    case Text(s) => s
    case Number(shown) => shown
    case Boolean(b) => if b then "true" else "false"
  }

  /** JavaScript falsiness: the empty string, 0 (printed "0", also for -0), NaN and false. */
  predicate Falsy(c: Cell) {
    match c
    case Text(s) => s == ""
    case Number(shown) => shown == "0" || shown == "NaN"
    case Boolean(b) => !b
  }

  type Entry = (string, Cell)

  /** One spreadsheet row: its entries in column order. */
  type Row = seq<Entry>

  /** An object never holds a key twice. */
  predicate WellFormed(row: Row) {
    forall i, j :: 0 <= i < j < |row| ==> row[i].0 != row[j].0
  }

  /** `Object.keys(row)`. */
  function Keys(row: Row): (keys: seq<string>)
    ensures |keys| == |row| && forall i :: 0 <= i < |row| ==> keys[i] == row[i].0
  {
    if row == [] then [] else [row[0].0] + Keys(row[1..])
  }

  function HasKey(key: string): Entry -> bool {
    (e: Entry) => e.0 == key
  }

  /** `row[key]`: the value stored under `key`, or `None` (undefined) when the row lacks it. */
  function Get(row: Row, key: string): (r: Option<Cell>)
    ensures r.None? <==> forall i :: 0 <= i < |row| ==> row[i].0 != key
    ensures WellFormed(row) ==> forall i :: 0 <= i < |row| && row[i].0 == key ==> r == Some(row[i].1)
  {
    match FindIndex(row, HasKey(key))
    case None => None
    case Some(i) => Some(row[i].1)
  }
}
