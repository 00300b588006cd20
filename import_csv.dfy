/** `Import::Csv`: an import session over one CSV text. It remaps an
    arbitrary source table onto the expected field keys, keeps per-header
    registries of validators and preprocessors, memoises the parsed table
    (normalising its `"amount"` column when the table is built), validates
    cells and whole tables, and edits single cells. */
module ImportCsv {
  import opened Common
  import opened CsvTable
  import opened ImportField

  const DEFAULT_COL_SEP: string := ","

  /** The one column that `table` normalises eagerly. */
  const AMOUNT: string := "amount"

  type Validators = map<string, string -> bool>
  type Preprocessors = map<string, string -> string>

  datatype CsvError =
    | HeaderNotFound(headerKey: string)
    | IndexOutOfRange(row: nat, col: nat)
    | UndefinedName(name: string)

  datatype Result<+T> = Ok(value: T) | Err(error: CsvError)

  /* ---------- Registry lookups with their default functions ---------- */

  /** `get_validator_by_header`: the registered validator, or one that
      accepts everything. */
  function ValidatorFor(vs: Validators, h: string): (v: string -> bool)
    ensures h in vs ==> v == vs[h]
    ensures h !in vs ==> forall x :: v(x)
  {
    if h in vs then vs[h] else _ => true
  }

  /** `get_preprocessor_by_header`: the registered preprocessor, or the
      identity. */
  function PreprocessorFor(ps: Preprocessors, h: string): (p: string -> string)
    ensures h in ps ==> p == ps[h]
    ensures h !in ps ==> forall x :: p(x) == x
  {
    if h in ps then ps[h] else x => x
  }

  /** `table.headers.find { |h| h.strip == header_key }`: the first header
      that equals the key once stripped. */
  function FindHeader(headers: seq<string>, headerKey: string): (r: Option<nat>)
    ensures r.Some? ==> r.value < |headers| && Strip(headers[r.value]) == headerKey
    ensures r.Some? ==> forall j :: 0 <= j < r.value ==> Strip(headers[j]) != headerKey
    ensures r.None? <==> forall h :: h in headers ==> Strip(h) != headerKey
  {
    FirstWhere(headers, h => Strip(h) == headerKey)
  }

  /* ---------- Remapping onto the field keys (create_with_field_mappings) ---------- */

  /** `fields.map { |f| f.key }`. */
  function Keys(fields: seq<Field>): (keys: seq<string>)
    ensures |keys| == |fields|
    ensures forall j :: 0 <= j < |fields| ==> keys[j] == fields[j].key
  {
    seq(|fields|, j requires 0 <= j < |fields| => fields[j].key)
  }

  /** The source header to read for a field key: the user's mapping for it,
      or the key itself when the mapping is absent or has no entry. */
  function MappedHeader(key: string, mapping: Option<map<string, string>>): (h: string)
    ensures mapping.None? ==> h == key
    ensures mapping.Some? && key in mapping.value ==> h == mapping.value[key]
    ensures mapping.Some? && key !in mapping.value ==> h == key
  {
    if mapping.Some? && key in mapping.value then mapping.value[key] else key
  }

  /** The values that source row `i` contributes, one per key. */
  function RemappedRow(src: Grid, i: nat, keys: seq<string>, mapping: Option<map<string, string>>): seq<string>
    requires i < |src.rows|
  {
    seq(|keys|, j requires 0 <= j < |keys| => Fetch(src, i, MappedHeader(keys[j], mapping)))
  }

  /** The remapped table: header row `keys`, one row per source row. */
  function Remapped(src: Grid, keys: seq<string>, mapping: Option<map<string, string>>): (t: Grid)
    ensures t.headers == keys && |t.rows| == |src.rows|
  {
    Table(keys, seq(|src.rows|, i requires 0 <= i < |src.rows| => RemappedRow(src, i, keys, mapping)))
  }

  /** The nested loops of `create_with_field_mappings`: for every source
      row, and for every field in order, read the mapped column. */
  method RemapRows(src: Grid, fields: seq<Field>, mapping: Option<map<string, string>>) returns (t: Grid)
    ensures t == Remapped(src, Keys(fields), mapping)
  {
    var keys := Keys(fields);
    var rows: seq<seq<string>> := [];
    var i := 0;
    while i < |src.rows|
      invariant 0 <= i <= |src.rows|
      invariant |rows| == i
      invariant forall k :: 0 <= k < i ==> rows[k] == RemappedRow(src, k, keys, mapping)
    {
      var rowValues: seq<string> := [];
      var j := 0;
      while j < |fields|
        invariant 0 <= j <= |fields|
        invariant |rowValues| == j
        invariant forall l :: 0 <= l < j ==> rowValues[l] == Fetch(src, i, MappedHeader(keys[l], mapping))
      {
        var mappedHeader := MappedHeader(fields[j].key, mapping);
        rowValues := rowValues + [Fetch(src, i, mappedHeader)];
        j := j + 1;
      }
      assert rowValues == RemappedRow(src, i, keys, mapping);
      rows := rows + [rowValues];
      i := i + 1;
    }
    t := Table(keys, rows);
    assert rows == Remapped(src, keys, mapping).rows;
  }

  /** Cell (`i`, `j`) of the remapped table is the source row's value in the
      first column headed by the mapped header, and `""` when the source
      has no such column; no row is skipped. */
  lemma RemapCell(src: Grid, keys: seq<string>, mapping: Option<map<string, string>>, i: nat, j: nat)
    requires i < |src.rows| && j < |keys|
    ensures var h := MappedHeader(keys[j], mapping);
      && (h in src.headers ==> Remapped(src, keys, mapping).rows[i][j] == src.rows[i][ColumnOf(src.headers, h).value])
      && (h !in src.headers ==> Remapped(src, keys, mapping).rows[i][j] == "")
  {
  }

  /** A field whose mapped header is missing from the source yields a
      column of empty strings. */
  lemma RemapMissingColumn(src: Grid, keys: seq<string>, mapping: Option<map<string, string>>, j: nat)
    requires j < |keys| && MappedHeader(keys[j], mapping) !in src.headers
    ensures forall i :: 0 <= i < |src.rows| ==> Remapped(src, keys, mapping).rows[i][j] == ""
  {
    forall i | 0 <= i < |src.rows| ensures Remapped(src, keys, mapping).rows[i][j] == "" {
      RemapCell(src, keys, mapping, i, j);
    }
  }

  predicate Distinct(hs: seq<string>) {
    forall a, b :: 0 <= a < b < |hs| ==> hs[a] != hs[b]
  }

  /** Under distinct headers, each header's first column is its own. */
  lemma ColumnOfDistinct(hs: seq<string>, j: nat)
    requires Distinct(hs) && j < |hs|
    ensures ColumnOf(hs, hs[j]) == Some(j)
  {
    assert hs[j] in hs;
  }

  /** Remapping a table with distinct headers onto its own headers, with a
      mapping that sends every header to itself (or no mapping), gives the
      table back. */
  lemma RemapIdentity(src: Grid, mapping: Option<map<string, string>>)
    requires Distinct(src.headers)
    requires forall h :: h in src.headers ==> MappedHeader(h, mapping) == h
    ensures Remapped(src, src.headers, mapping) == src
  {
    var t := Remapped(src, src.headers, mapping);
    forall i, j | 0 <= i < |src.rows| && 0 <= j < |src.headers| ensures t.rows[i][j] == src.rows[i][j] {
      assert src.headers[j] in src.headers;
      ColumnOfDistinct(src.headers, j);
    }
    forall i | 0 <= i < |src.rows| ensures t.rows[i] == src.rows[i] {
    }
  }

  /** Remapping the remapped table again with the same keys and no mapping
      is a fixed point, also when a key occurs more than once: all columns
      with the same key were read from the same source column. */
  lemma RemapIdempotent(src: Grid, keys: seq<string>, mapping: Option<map<string, string>>)
    ensures Remapped(Remapped(src, keys, mapping), keys, None) == Remapped(src, keys, mapping)
  {
    var t := Remapped(src, keys, mapping);
    var u := Remapped(t, keys, None);
    forall i, j | 0 <= i < |t.rows| && 0 <= j < |keys| ensures u.rows[i][j] == t.rows[i][j] {
      assert keys[j] in keys;
      var c := ColumnOf(keys, keys[j]).value;
      assert u.rows[i][j] == t.rows[i][c];
      assert keys[c] == keys[j];
    }
    forall i | 0 <= i < |t.rows| ensures u.rows[i] == t.rows[i] {
    }
  }

  /* ---------- The table as built by `table` ---------- */

  /** The pass over a freshly parsed table: each row's cell in the first
      `"amount"` column becomes `p` of itself; a table without that column
      is left as it is. */
  function AmountPass(t: Grid, p: string -> string): (u: Grid)
    ensures u.headers == t.headers && |u.rows| == |t.rows|
    ensures forall i, j :: 0 <= i < |t.rows| && 0 <= j < |t.headers| ==>
      u.rows[i][j] == if ColumnOf(t.headers, AMOUNT) == Some(j) then p(t.rows[i][j]) else t.rows[i][j]
  {
    match ColumnOf(t.headers, AMOUNT)
    case None => t
    case Some(a) => Table(t.headers, seq(|t.rows|, i requires 0 <= i < |t.rows| => t.rows[i][a := p(t.rows[i][a])]))
  }

  /** Without an `"amount"` column the pass changes nothing. */
  lemma AmountPassWithoutAmountColumn(t: Grid, p: string -> string)
    requires AMOUNT !in t.headers
    ensures AmountPass(t, p) == t
  {
  }

  /** The pass as the source writes it: `row["amount"] = ...` on a row
      without an `"amount"` field appends one, holding `p` of the missing
      value (`nil`, here `""`), and the table's header row, which is taken
      from its first row, gains `"amount"`. */
  function AmountPassAsWritten(t: Grid, p: string -> string): (u: Grid)
    ensures AMOUNT in t.headers || |t.rows| == 0 ==> u == AmountPass(t, p)
  {
    if AMOUNT in t.headers || |t.rows| == 0 then AmountPass(t, p)
    else Table(t.headers + [AMOUNT], seq(|t.rows|, i requires 0 <= i < |t.rows| => t.rows[i] + [p("")]))
  }

  /** On a non-empty table without an `"amount"` column the pass as written
      adds a column, where the intended pass leaves the table unchanged:
      `Table(["date"], [["2024-01-05"]])` becomes a two-column table. */
  lemma AmountPassAsWrittenAddsColumn(t: Grid, p: string -> string)
    requires AMOUNT !in t.headers && |t.rows| > 0
    ensures AmountPassAsWritten(t, p).headers == t.headers + [AMOUNT]
    ensures AmountPassAsWritten(t, p) != AmountPass(t, p)
  {
    AmountPassWithoutAmountColumn(t, p);
    assert |AmountPassAsWritten(t, p).headers| != |t.headers|;
  }

  /** The loop of `table`: every row's `"amount"` cell is overwritten in
      turn. */
  method NormaliseAmounts(t: Grid, p: string -> string) returns (u: Grid)
    ensures u == AmountPass(t, p)
  {
    var rows := t.rows;
    var i := 0;
    while i < |rows|
      invariant 0 <= i <= |rows| == |t.rows|
      invariant forall k :: 0 <= k < i ==> rows[k] == AmountPass(t, p).rows[k]
      invariant forall k :: i <= k < |rows| ==> rows[k] == t.rows[k]
    {
      var column := ColumnOf(t.headers, AMOUNT);
      if column.Some? {
        var a := column.value;
        rows := rows[i := rows[i][a := p(rows[i][a])]];
      }
      i := i + 1;
    }
    u := Table(t.headers, rows);
    assert u.rows == AmountPass(t, p).rows;
  }

  /* ---------- Validation ---------- */

  /** `cell_valid?` on a given table: the column's validator applied to its
      preprocessor applied to the cell. A column index past the header row
      has no header, so both defaults apply and the cell is valid; a row
      index past the last row reads `nil`, here `""`. */
  function CellValidIn(t: Grid, vs: Validators, ps: Preprocessors, r: nat, c: nat): (ok: bool)
    ensures r < |t.rows| && c < |t.headers| ==>
      ok == ValidatorFor(vs, t.headers[c])(PreprocessorFor(ps, t.headers[c])(t.rows[r][c]))
    ensures r >= |t.rows| && c < |t.headers| ==>
      ok == ValidatorFor(vs, t.headers[c])(PreprocessorFor(ps, t.headers[c])(""))
    ensures c >= |t.headers| ==> ok
  {
    if c < |t.headers| then
      var h := t.headers[c];
      var value := if r < |t.rows| then t.rows[r][c] else "";
      ValidatorFor(vs, h)(PreprocessorFor(ps, h)(value))
    else
      true
  }

  /** The inner `all?` of `valid?`: the cells of row `r` from column `c` on. */
  function CellsValidFrom(t: Grid, vs: Validators, ps: Preprocessors, r: nat, c: nat): (ok: bool)
    requires r < |t.rows| && c <= |t.headers|
    ensures ok <==> forall j :: c <= j < |t.headers| ==> CellValidIn(t, vs, ps, r, j)
    decreases |t.headers| - c
  {
    c == |t.headers| || (CellValidIn(t, vs, ps, r, c) && CellsValidFrom(t, vs, ps, r, c + 1))
  }

  /** The outer `all?` of `valid?`: the rows from `r` on, row by row. */
  function RowsValidFrom(t: Grid, vs: Validators, ps: Preprocessors, r: nat): (ok: bool)
    requires r <= |t.rows|
    ensures ok <==> forall i, j :: r <= i < |t.rows| && 0 <= j < |t.headers| ==> CellValidIn(t, vs, ps, i, j)
    decreases |t.rows| - r
  {
    r == |t.rows| || (CellsValidFrom(t, vs, ps, r, 0) && RowsValidFrom(t, vs, ps, r + 1))
  }

  /** `valid?` on a given table: every cell of every row is valid. */
  function TableValid(t: Grid, vs: Validators, ps: Preprocessors): (ok: bool)
    ensures ok <==> forall i, j :: 0 <= i < |t.rows| && 0 <= j < |t.headers| ==> CellValidIn(t, vs, ps, i, j)
  {
    RowsValidFrom(t, vs, ps, 0)
  }

  /** In the built table the `"amount"` cells have been through the amount
      preprocessor once already, and `cell_valid?` runs it again. */
  lemma AmountCellPreprocessedTwice(t: Grid, vs: Validators, ps: Preprocessors, r: nat, a: nat)
    requires r < |t.rows| && ColumnOf(t.headers, AMOUNT) == Some(a)
    ensures var p := PreprocessorFor(ps, AMOUNT);
      CellValidIn(AmountPass(t, p), vs, ps, r, a) == ValidatorFor(vs, AMOUNT)(p(p(t.rows[r][a])))
  {
  }

  /** A table whose first `"amount"` cell is rejected once preprocessed
      twice is not valid after the amount pass. */
  lemma AmountRejectedTableInvalid(t: Grid, vs: Validators, ps: Preprocessors, r: nat, a: nat)
    requires r < |t.rows| && ColumnOf(t.headers, AMOUNT) == Some(a)
    requires var p := PreprocessorFor(ps, AMOUNT); !ValidatorFor(vs, AMOUNT)(p(p(t.rows[r][a])))
    ensures !TableValid(AmountPass(t, PreprocessorFor(ps, AMOUNT)), vs, ps)
  {
    AmountCellPreprocessedTwice(t, vs, ps, r, a);
  }

  /** A field's `validate` and the session's per-header validation agree
      when the registries hold exactly the field's functions under a
      header. */
  lemma FieldValidateMatchesRegistry(f: Field, vs: Validators, ps: Preprocessors, h: string, x: string)
    requires f.validator.Some? <==> h in vs
    requires h in vs ==> vs[h] == f.validator.value
    requires f.preprocessor.Some? <==> h in ps
    requires h in ps ==> ps[h] == f.preprocessor.value
    ensures f.Validate(x) == ValidatorFor(vs, h)(PreprocessorFor(ps, h)(x))
  {
  }

  /* ---------- Editing one cell (update_cell) ---------- */

  /** `update_cell` on a given table, with the header read as
      `table.headers[col_idx]`: the table with cell (`r`, `c`) set to the
      column's preprocessor applied to `v`. */
  function UpdateIn(t: Grid, ps: Preprocessors, r: nat, c: nat, v: string): (res: Result<Grid>)
    ensures res.Ok? <==> r < |t.rows| && c < |t.headers|
    ensures res.Err? ==> res.error == IndexOutOfRange(r, c)
    ensures res.Ok? ==> res.value.headers == t.headers && |res.value.rows| == |t.rows|
    ensures res.Ok? ==> res.value.rows[r][c] == PreprocessorFor(ps, t.headers[c])(v)
    ensures res.Ok? ==> forall i, j :: 0 <= i < |t.rows| && 0 <= j < |t.headers| && (i != r || j != c) ==>
      res.value.rows[i][j] == t.rows[i][j]
  {
    if r < |t.rows| && c < |t.headers| then
      Ok(SetCell(t, r, c, PreprocessorFor(ps, t.headers[c])(v)))
    else
      Err(IndexOutOfRange(r, c))
  }

  /** `update_cell` as the source writes it: it asks for the preprocessor
      of `header`, a name that is not defined there, so every call raises
      `NameError`. */
  function UpdateInAsWritten(t: Grid, ps: Preprocessors, r: nat, c: nat, v: string): (res: Result<Grid>)
    ensures res.Err?
  {
    Err(UndefinedName("header"))
  }

  /** Every in-range edit fails as written and succeeds as intended. */
  lemma UpdateInAsWrittenAlwaysFails(t: Grid, ps: Preprocessors, r: nat, c: nat, v: string)
    requires r < |t.rows| && c < |t.headers|
    ensures UpdateInAsWritten(t, ps, r, c, v).Err?
    ensures UpdateIn(t, ps, r, c, v).Ok?
  {
  }

  /* ---------- The import session ---------- */

  class Csv {
    const lib: CsvLibrary
    const csvStr: string
    const colSep: string
    var validators: Validators
    var preprocessors: Preprocessors
    /** `@table`: `None` until `table` builds it, and again after a
        preprocessor is registered. */
    var cache: Option<Grid>

    /** The table read from the text, before the `"amount"` pass. */
    function Parsed(): Grid {
      ParseCsv(lib, csvStr, colSep)
    }

    /** What `table` builds when nothing is cached. */
    ghost function Built(): Grid
      reads this
    {
      AmountPass(Parsed(), PreprocessorFor(preprocessors, AMOUNT))
    }

    /** What `table` returns: the cached table, or else a freshly built one. */
    ghost function Memo(): Grid
      reads this
    {
      if cache.Some? then cache.value else Built()
    }

    /** A cached table always has the header row and the row count of the
        text: edits change cells only. */
    ghost predicate Valid()
      reads this
    {
      cache.Some? ==> cache.value.headers == Parsed().headers && |cache.value.rows| == |Parsed().rows|
    }

    /** `Import::Csv.new(csv_str, column_validators: nil,
        column_preprocessors: nil, col_sep: ",")`. */
    constructor (lib: CsvLibrary, csvStr: string, validators: Option<Validators> := None,
                 preprocessors: Option<Preprocessors> := None, colSep: string := DEFAULT_COL_SEP)
      ensures Valid()
      ensures this.lib == lib && this.csvStr == csvStr && this.colSep == colSep
      ensures this.validators == (if validators.Some? then validators.value else map[])
      ensures this.preprocessors == (if preprocessors.Some? then preprocessors.value else map[])
      ensures cache == None
    {
      this.lib := lib;
      this.csvStr := csvStr;
      this.colSep := colSep;
      this.validators := if validators.Some? then validators.value else map[];
      this.preprocessors := if preprocessors.Some? then preprocessors.value else map[];
      cache := None;
    }

    /** `create_with_field_mappings`: parse the raw text, remap it onto the
        fields' keys, write it out with the same separator, and open a new
        session on that text with empty registries. */
    static method CreateWithFieldMappings(lib: CsvLibrary, rawCsvStr: string, colSep: string,
                                          fields: seq<Field>, mapping: Option<map<string, string>>)
      returns (imp: Csv)
      ensures fresh(imp) && imp.Valid()
      ensures imp.csvStr == lib.generate(colSep, Remapped(ParseCsv(lib, rawCsvStr, colSep), Keys(fields), mapping))
      ensures imp.lib == lib && imp.colSep == colSep
      ensures imp.validators == map[] && imp.preprocessors == map[] && imp.cache == None
    {
      var raw := ParseCsv(lib, rawCsvStr, colSep);
      var generated := RemapRows(raw, fields, mapping);
      imp := new Csv(lib, lib.generate(colSep, generated), colSep := colSep);
    }

    /** `table`: the memoised table; when nothing is cached it is parsed,
        its `"amount"` column normalised with the current amount
        preprocessor, and cached. */
    method GetTable() returns (t: Grid)
      requires Valid()
      modifies this`cache
      ensures Valid()
      ensures t == old(Memo()) && cache == Some(t)
      ensures old(cache).Some? ==> t == old(cache).value
      ensures old(cache).None? ==> t == AmountPass(Parsed(), PreprocessorFor(preprocessors, AMOUNT))
    {
      if cache.None? {
        var parsed := ParseCsv(lib, csvStr, colSep);
        var normalised := NormaliseAmounts(parsed, PreprocessorFor(preprocessors, AMOUNT));
        cache := Some(normalised);
      }
      t := cache.value;
    }

    /** `define_validator`: store `v` under the first header that equals
        `headerKey` once stripped, replacing any earlier validator; fail with
        `HeaderNotFound`, storing nothing, when there is none. The table is
        built if need be and stays cached. */
    method DefineValidator(headerKey: string, v: string -> bool) returns (r: Result<string>)
      requires Valid()
      modifies this`cache, this`validators
      ensures Valid()
      ensures cache == Some(old(Memo()))
      ensures preprocessors == old(preprocessors)
      ensures match FindHeader(Parsed().headers, headerKey)
        case None => (r == Err(HeaderNotFound(headerKey)) && validators == old(validators))
        case Some(i) => (r == Ok(Parsed().headers[i]) && validators == old(validators)[Parsed().headers[i] := v])
    {
      var t := GetTable();
      match FindHeader(t.headers, headerKey)
      case None =>
        r := Err(HeaderNotFound(headerKey));
      case Some(i) =>
        validators := validators[t.headers[i] := v];
        r := Ok(t.headers[i]);
    }

    /** `define_preprocessor`: as `DefineValidator`, for the preprocessor
        registry; on success the cached table is dropped, so that the next
        `table` is rebuilt with the registry as it now is. */
    method DefinePreprocessor(headerKey: string, p: string -> string) returns (r: Result<string>)
      requires Valid()
      modifies this`cache, this`preprocessors
      ensures Valid()
      ensures validators == old(validators)
      ensures match FindHeader(Parsed().headers, headerKey)
        case None =>
          (r == Err(HeaderNotFound(headerKey)) && preprocessors == old(preprocessors) && cache == Some(old(Memo())))
        case Some(i) =>
          (r == Ok(Parsed().headers[i]) && preprocessors == old(preprocessors)[Parsed().headers[i] := p] && cache == None)
    {
      var t := GetTable();
      match FindHeader(t.headers, headerKey)
      case None =>
        r := Err(HeaderNotFound(headerKey));
      case Some(i) =>
        preprocessors := preprocessors[t.headers[i] := p];
        r := Ok(t.headers[i]);
        cache := None;
    }

    /** `cell_valid?` on the session's table. */
    method CellValid(r: nat, c: nat) returns (ok: bool)
      requires Valid()
      modifies this`cache
      ensures Valid()
      ensures cache == Some(old(Memo()))
      ensures ok == CellValidIn(old(Memo()), validators, preprocessors, r, c)
    {
      var t := GetTable();
      ok := CellValidIn(t, validators, preprocessors, r, c);
    }

    /** `valid?` on the session's table. */
    method IsValid() returns (ok: bool)
      requires Valid()
      modifies this`cache
      ensures Valid()
      ensures cache == Some(old(Memo()))
      ensures ok <==> forall i, j :: 0 <= i < |old(Memo()).rows| && 0 <= j < |old(Memo()).headers| ==>
        CellValidIn(old(Memo()), validators, preprocessors, i, j)
    {
      var t := GetTable();
      ok := TableValid(t, validators, preprocessors);
    }

    /** `update_cell`, with the header read as `table.headers[col_idx]`. The
        copy made by `by_col_or_row` shares its rows with the cached table,
        so the write shows in the cache as well. */
    method UpdateCell(r: nat, c: nat, v: string) returns (res: Result<Grid>)
      requires Valid()
      modifies this`cache
      ensures Valid()
      ensures res == UpdateIn(old(Memo()), preprocessors, r, c, v)
      ensures cache == if res.Ok? then Some(res.value) else Some(old(Memo()))
    {
      var t := GetTable();
      if r < |t.rows| && c < |t.headers| {
        var header := t.headers[c];
        var preprocessor := PreprocessorFor(preprocessors, header);
        var copy := SetCell(t, r, c, preprocessor(v));
        cache := Some(copy);
        res := Ok(copy);
      } else {
        res := Err(IndexOutOfRange(r, c));
      }
    }
  }

  /** Registering a preprocessor and then reading the table: on success the
      table is rebuilt from the text with the new registry (so earlier cell
      edits are gone); on failure the earlier table is returned. */
  method TableAfterDefinePreprocessor(imp: Csv, headerKey: string, p: string -> string)
    returns (r: Result<string>, t: Grid)
    requires imp.Valid()
    modifies imp
    ensures imp.Valid()
    ensures r.Ok? ==> t == AmountPass(imp.Parsed(), PreprocessorFor(old(imp.preprocessors)[r.value := p], AMOUNT))
    ensures r.Ok? && r.value == AMOUNT ==> t == AmountPass(imp.Parsed(), p)
    ensures r.Err? ==> t == old(imp.Memo())
  {
    r := imp.DefinePreprocessor(headerKey, p);
    t := imp.GetTable();
  }

  /** Registering a validator never drops the cached table. */
  method TableAfterDefineValidator(imp: Csv, headerKey: string, v: string -> bool)
    returns (r: Result<string>, t: Grid)
    requires imp.Valid()
    modifies imp
    ensures imp.Valid()
    ensures t == old(imp.Memo())
  {
    r := imp.DefineValidator(headerKey, v);
    t := imp.GetTable();
  }

  /** The decimal-comma example, remapping: a source table headed
      `Fecha,Monto` is remapped onto `date,amount`. */
  lemma DecimalCommaRemap()
    ensures Remapped(Table(["Fecha", "Monto"], [["2024-01-05", "1.234,56"]]), ["date", "amount"],
                     Some(map["date" := "Fecha", "amount" := "Monto"]))
         == Table(["date", "amount"], [["2024-01-05", "1.234,56"]])
  {
    var src: Grid := Table(["Fecha", "Monto"], [["2024-01-05", "1.234,56"]]);
    var keys := ["date", "amount"];
    var mapping := Some(map["date" := "Fecha", "amount" := "Monto"]);
    assert MappedHeader(keys[0], mapping) == "Fecha";
    assert MappedHeader(keys[1], mapping) == "Monto";
    assert ColumnOf(src.headers, "Fecha") == Some(0);
    assert ColumnOf(src.headers, "Monto") == Some(1);
    assert RemappedRow(src, 0, keys, mapping) == ["2024-01-05", "1.234,56"];
  }

  /** The decimal preprocessor turns `1.234,56` into `1.234.56`. */
  lemma DecimalCommaConverted()
    ensures BigDecimalPreprocessor("1.234,56") == "1.234.56"
  {
    var r := BigDecimalPreprocessor("1.234,56");
    assert |r| == 8;
    forall k | 0 <= k < 8 ensures r[k] == "1.234.56"[k] {
    }
  }

  /** A decimal parser that rejects `1.234.56` rejects the twice
      preprocessed `1.234,56`. */
  lemma DecimalCommaRejected(isDecimal: string -> bool)
    requires !isDecimal("1.234.56")
    ensures !isDecimal(BigDecimalPreprocessor(BigDecimalPreprocessor("1.234,56")))
  {
    DecimalCommaConverted();
    BigDecimalPreprocessorIdempotent("1.234,56");
  }

  /** The decimal-comma example, validation: with the decimal preprocessor
      on `"amount"`, the cell `1.234,56` is read as `1.234.56`, which a
      decimal parser rejects, so the remapped table is not valid. */
  lemma DecimalCommaInvalid(isDate: string -> bool, isDecimal: string -> bool)
    requires !isDecimal("1.234.56")
    ensures !TableValid(AmountPass(Table(["date", "amount"], [["2024-01-05", "1.234,56"]]), BigDecimalPreprocessor),
                        map["date" := isDate, "amount" := isDecimal], map["amount" := BigDecimalPreprocessor])
  {
    DecimalCommaRejected(isDecimal);
    var t: Grid := Table(["date", "amount"], [["2024-01-05", "1.234,56"]]);
    var vs := map["date" := isDate, "amount" := isDecimal];
    var ps := map["amount" := BigDecimalPreprocessor];
    assert ColumnOf(t.headers, AMOUNT) == Some(1);
    assert ValidatorFor(vs, AMOUNT) == isDecimal;
    assert PreprocessorFor(ps, AMOUNT) == BigDecimalPreprocessor;
    AmountRejectedTableInvalid(t, vs, ps, 0, 1);
  }
}
