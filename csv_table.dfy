/** The table that Ruby's CSV library yields in header mode (`CSV::Table`),
    seen as a header row and data rows whose cells are addressed by
    position, together with the library itself, which the model takes as
    given functions. */
module CsvTable {
  import opened Common

  /** A parsed table. Cell `rows[i][j]` belongs to the column headed
      `headers[j]`; a field Ruby holds as `nil` is the empty string here. */
  datatype Table = Table(headers: seq<string>, rows: seq<seq<string>>) {
    /** Every row has one cell per header (the CSV library pads short rows
        with `nil` fields). */
    predicate Rectangular() {
      forall i :: 0 <= i < |rows| ==> |rows[i]| == |headers|
    }
  }

  /** A rectangular table: what the library's parser yields. */
  type Grid = t: Table | t.Rectangular() witness Table([], [])

  /** The CSV lexer and writer, which are external to the import core:
      `lex(text, colSep)` is `CSV.parse(text, headers: true, col_sep:,
      liberal_parsing: true)` before any converter runs, and
      `generate(colSep, t)` is `CSV.generate` writing the header row of `t`
      followed by its rows. */
  datatype CsvLibrary = CsvLibrary(lex: (string, string) -> Grid, generate: (string, Table) -> string)

  /** The column of the first header equal to `h`, where `CSV::Row#[]`,
      `CSV::Row#[]=` and `CSV::Row#fetch` look a header up. */
  function ColumnOf(headers: seq<string>, h: string): (r: Option<nat>)
    ensures r.Some? ==> r.value < |headers| && headers[r.value] == h
    ensures r.Some? ==> forall j :: 0 <= j < r.value ==> headers[j] != h
    ensures r.None? <==> h !in headers
  {
    FirstWhere(headers, x => x == h)
  }

  /** Column `j` is the first one headed `h`. */
  predicate FirstColumnAt(headers: seq<string>, h: string, j: int) {
    0 <= j < |headers| && headers[j] == h && forall k :: 0 <= k < j ==> headers[k] != h
  }

  /** `row.fetch(h, "")` on data row `i`: the cell under the first column
      headed `h`, or `""` when no column has that header. */
  function Fetch(t: Grid, i: nat, h: string): (r: string)
    requires i < |t.rows|
    ensures h !in t.headers ==> r == ""
    ensures h in t.headers ==> exists j :: FirstColumnAt(t.headers, h, j) && r == t.rows[i][j]
  {
    match ColumnOf(t.headers, h)
    case Some(j) => t.rows[i][j]
    case None => ""
  }

  /** The converter `->(str) { str&.strip }` applied to every data cell;
      header cells are not converted. */
  function StripCells(t: Grid): (u: Grid)
    ensures u.headers == t.headers && |u.rows| == |t.rows|
    ensures forall i, j :: 0 <= i < |t.rows| && 0 <= j < |t.headers| ==> u.rows[i][j] == Strip(t.rows[i][j])
  {
    Table(t.headers, seq(|t.rows|, i requires 0 <= i < |t.rows| =>
      seq(|t.headers|, j requires 0 <= j < |t.headers| => Strip(t.rows[i][j]))))
  }

  /** `Import::Csv.parse_csv`: strip the whole text, lex it in header mode,
      then strip every data cell. */
  function ParseCsv(lib: CsvLibrary, text: string, colSep: string): (t: Grid)
    ensures var raw := lib.lex(Strip(text), colSep);
      && t.headers == raw.headers && |t.rows| == |raw.rows|
      && forall i, j :: 0 <= i < |raw.rows| && 0 <= j < |raw.headers| ==> t.rows[i][j] == Strip(raw.rows[i][j])
  {
    StripCells(lib.lex(Strip(text), colSep))
  }

  /** Every data cell of a parsed table is already stripped. */
  lemma ParsedCellsTrimmed(lib: CsvLibrary, text: string, colSep: string, i: nat, j: nat)
    requires i < |ParseCsv(lib, text, colSep).rows| && j < |ParseCsv(lib, text, colSep).headers|
    ensures Strip(ParseCsv(lib, text, colSep).rows[i][j]) == ParseCsv(lib, text, colSep).rows[i][j]
  {
    var raw := lib.lex(Strip(text), colSep);
    StripIdempotent(raw.rows[i][j]);
  }

  /** The table with cell (`r`, `c`) replaced by `x`: the header row, the
      number of rows and every other cell are those of `t`. */
  function SetCell(t: Grid, r: nat, c: nat, x: string): (u: Grid)
    requires r < |t.rows| && c < |t.headers|
    ensures u.headers == t.headers && |u.rows| == |t.rows|
    ensures u.rows[r][c] == x
    ensures forall i, j :: 0 <= i < |t.rows| && 0 <= j < |t.headers| && (i != r || j != c) ==> u.rows[i][j] == t.rows[i][j]
  {
    Table(t.headers, t.rows[r := t.rows[r][c := x]])
  }
}
