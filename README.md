# CSV import core, modelled in Dafny

This project models the CSV import pipeline of `app/models/import/`:

- `Import::Field` (module `ImportField`): one expected target column with a
  key, a label, an optional flag, one replaceable validator and one
  replaceable preprocessor, and `validate`; plus the comma-to-period
  `bigdecimal_preprocessor`.
- `Import::Csv` (module `ImportCsv`): an import session over one CSV text.
  - `create_with_field_mappings` remaps a source table with arbitrary
    headers onto a table headed by the field keys.
  - `table` memoises the parsed table. When the table is built, its
    `"amount"` column is run through the amount preprocessor.
  - Two per-header registries hold validators and preprocessors;
    `define_validator` and `define_preprocessor` fill them.
  - `define_preprocessor` drops the cached table.
  - `cell_valid?` and `valid?` validate cells and the whole table.
  - `update_cell` edits one cell.
- The table that Ruby's CSV library produces (module `CsvTable`) is a
  header row plus rows of cells addressed by position. A `Grid` is a table
  whose rows all have one cell per header.
- Ruby's `String#strip` and the first-match search of `find`/`assoc` live in
  module `Common`.

The CSV lexer and writer belong to Ruby's `CSV` library, outside this core.
They appear as the function values of `CsvTable.CsvLibrary`, which a session
receives when it is created. `parse_csv` is modelled as: strip the whole
text, hand it to the lexer, then strip every data cell (the converter).
Validators and preprocessors are total function values; the registries are
maps from header to function. The memoised table is an `Option<Grid>` field
of the class `ImportCsv.Csv`.

The session's specification functions are `Csv.Built()` (what `table`
builds from the text and the current amount preprocessor) and `Csv.Memo()`
(what `table` returns: the cached table, or else `Built()`). Every session
method states the new cache and registries in terms of these. `Csv.Valid()`
states that a cached table always has the header row and row count of the
parsed text.

In two places the code does something other than what its names suggest,
and the model follows the code:

- `cell_valid?` does not raise on an index past the table.
  - A column index past the header row has no header, so both default
    functions apply and the cell is valid.
  - A row index past the last row reads `nil`.
- `update_cell` returns `copy`, which `by_col_or_row` builds by duplicating
  the list of rows, not the rows themselves. The write therefore lands in
  the cached table too, and the model says so: after a successful edit the
  cache holds the edited table.

## Model

| member | source | states |
|---|---|---|
| `Common.Strip` | app/models/import/csv.rb:74 | `String#strip`: the result is a slice of the input, every character outside that slice is white space (null, tab, line feed, vertical tab, form feed, carriage return, space), and the slice neither starts nor ends with white space; so exactly the white space at the two ends is removed |
| `Common.StripIdempotent` | app/models/import/csv.rb:5 | stripping an already stripped value changes nothing |
| `CsvTable.Fetch` | app/models/import/csv.rb:20 | `row.fetch(h, "")`: the cell under the first column headed `h`, or `""` when no column has that header |
| `CsvTable.ParseCsv` | app/models/import/csv.rb:4-6 | the parsed table is the lexed, stripped text with the same header row and row count, and every data cell stripped |
| `CsvTable.ColumnOf` | app/models/import/csv.rb:20 | a header lookup on a row finds the first column with that header, and finds none exactly when the header is absent |
| `CsvTable.StripCells` | app/models/import/csv.rb:5 | the strip converter keeps the header row and the row count and replaces every data cell by its stripped form |
| `CsvTable.ParsedCellsTrimmed` | app/models/import/csv.rb:5 | every data cell of a parsed table is already stripped |
| `CsvTable.SetCell` | app/models/import/csv.rb:53 | writing one cell keeps the header row and row count, sets that cell, and leaves every other cell as it was |
| `ImportField.BigDecimalPreprocessor` | app/models/import/field.rb:16-18 | the output has the input's length; each `,` becomes `.` and every other character is kept |
| `ImportField.BigDecimalPreprocessorNoComma` | app/models/import/field.rb:16-18 | the output contains no `,` |
| `ImportField.BigDecimalPreprocessorIdempotent` | app/models/import/field.rb:16-18 | preprocessing twice equals preprocessing once |
| `ImportField.Field.constructor` | app/models/import/field.rb:22-32 | key, label, validator and preprocessor are those given; `optional?` returns the given flag, false by default; validator and preprocessor default to none |
| `ImportField.Field.DefineValidator` | app/models/import/field.rb:34-36 | the validator is replaced outright (last write wins); the preprocessor is unchanged, and key, label and flag are constants |
| `ImportField.Field.DefinePreprocessor` | app/models/import/field.rb:38-40 | the preprocessor is replaced outright; the validator is unchanged |
| `ImportField.Field.Validate` | app/models/import/field.rb:42-46 | without a validator every value is valid, whatever the preprocessor; with validator V alone the result is V(v); with preprocessor P as well it is V(P(v)) |
| `ImportCsv.ValidatorFor` | app/models/import/csv.rb:95-97 | the registered validator of a header, or one that accepts every value |
| `ImportCsv.PreprocessorFor` | app/models/import/csv.rb:99-101 | the registered preprocessor of a header, or the identity |
| `ImportCsv.FindHeader` | app/models/import/csv.rb:74 | finds the first header that equals the key once stripped; finds nothing exactly when no header strips to the key |
| `ImportCsv.Keys` | app/models/import/csv.rb:11 | the field keys, one per field, in field order |
| `ImportCsv.MappedHeader` | app/models/import/csv.rb:17-18 | the header to read is the mapping's entry for the key; it is the key itself when there is no mapping or the mapping has no entry for it |
| `ImportCsv.Remapped` | app/models/import/csv.rb:11-24 | the remapped table is headed by the keys in order and has one row per source row |
| `ImportCsv.RemapRows` | app/models/import/csv.rb:12-24 | the nested loops build exactly the remapped table |
| `ImportCsv.RemapCell` | app/models/import/csv.rb:15-20 | each remapped cell is the source row's value under the mapped header (the mapping's entry for the key, else the key itself, also when there is no mapping); it is `""` when the source has no such column |
| `ImportCsv.RemapMissingColumn` | app/models/import/csv.rb:20 | a field whose mapped header is missing from the source gets a column of empty strings, in every row |
| `ImportCsv.RemapIdentity` | app/models/import/csv.rb:11-24 | remapping a table with distinct headers onto its own headers, with no mapping or a mapping that sends each header to itself, gives the table back |
| `ImportCsv.RemapIdempotent` | app/models/import/csv.rb:11-24 | remapping the remapped table again with the same keys and no mapping changes nothing, duplicate keys included |
| `ImportCsv.AmountPass` | app/models/import/csv.rb:42-44 | the built table keeps the header row and row count; each cell of the first `"amount"` column is P(raw cell), and every other cell is the parsed cell |
| `ImportCsv.AmountPassWithoutAmountColumn` | app/models/import/csv.rb:42-44 | without an `"amount"` column, building the table changes nothing |
| `ImportCsv.AmountPassAsWritten` | app/models/import/csv.rb:43 | the pass as written agrees with the intended one when an `"amount"` column exists or the table has no rows |
| `ImportCsv.AmountPassAsWrittenAddsColumn` | app/models/import/csv.rb:43 | on a non-empty table without `"amount"`, the pass as written adds an `"amount"` header, unlike the intended pass |
| `ImportCsv.NormaliseAmounts` | app/models/import/csv.rb:42-44 | the loop over the rows builds exactly the amount-normalised table |
| `ImportCsv.CellValidIn` | app/models/import/csv.rb:65-71 | a cell is valid iff V(P(cell)) holds for its column's validator and preprocessor (with their defaults); a column past the header row is valid; a row past the table reads `nil`, here `""` |
| `ImportCsv.CellsValidFrom` | app/models/import/csv.rb:59-61 | a row's cells from a column on are all valid iff each of them is |
| `ImportCsv.RowsValidFrom` | app/models/import/csv.rb:58-62 | the rows from a row on are all valid iff every cell in them is; the rows are checked in order |
| `ImportCsv.TableValid` | app/models/import/csv.rb:57-63 | a table is valid iff every cell of every row is valid |
| `ImportCsv.AmountCellPreprocessedTwice` | app/models/import/csv.rb:68-70 | an `"amount"` cell of the built table is validated as V(P(P(raw))): the preprocessor has already run once when the table was built |
| `ImportCsv.AmountRejectedTableInvalid` | app/models/import/csv.rb:57-71 | if the validator rejects an `"amount"` cell preprocessed twice, the built table is not valid |
| `ImportCsv.FieldValidateMatchesRegistry` | app/models/import/field.rb:42-46 | a field's `validate` equals the session's per-header validation when the registries hold exactly the field's functions: both default to "always valid" and identity |
| `ImportCsv.UpdateIn` | app/models/import/csv.rb:48-55 | an in-range edit returns the table with cell (r, c) set to P(v), P being the preprocessor of header c; header row, row count and every other cell are unchanged; an index past the table is `IndexOutOfRange` |
| `ImportCsv.UpdateInAsWritten` | app/models/import/csv.rb:51 | as written, every call fails |
| `ImportCsv.UpdateInAsWrittenAlwaysFails` | app/models/import/csv.rb:51 | every in-range edit fails as written and succeeds as intended |
| `ImportCsv.Csv.constructor` | app/models/import/csv.rb:33-38 | the session keeps its text and separator (`","` by default); the registries are those given, else empty; nothing is cached |
| `ImportCsv.Csv.CreateWithFieldMappings` | app/models/import/csv.rb:8-28 | the new session's text is the library's rendering of the remapped table; the session keeps the separator, its registries are empty and nothing is cached |
| `ImportCsv.Csv.GetTable` | app/models/import/csv.rb:40-46 | memoised: a cached table is returned as it is; otherwise the amount-normalised parse, built with the current amount preprocessor, is returned and cached |
| `ImportCsv.Csv.DefineValidator` | app/models/import/csv.rb:73-78 | with no header that strips to the key: `HeaderNotFound` and the registry is unchanged; otherwise the validator is stored under that original header, replacing any earlier one; the preprocessor registry is untouched and the table stays cached |
| `ImportCsv.Csv.DefinePreprocessor` | app/models/import/csv.rb:80-88 | with no matching header: `HeaderNotFound`, the registry is unchanged and the table stays cached; otherwise the preprocessor is stored under the original header and the cache is dropped; the validator registry is untouched |
| `ImportCsv.Csv.CellValid` | app/models/import/csv.rb:65-71 | the result is the cell validity on the memoised table under the current registries |
| `ImportCsv.Csv.IsValid` | app/models/import/csv.rb:57-63 | true iff every cell of the memoised table is valid |
| `ImportCsv.Csv.UpdateCell` | app/models/import/csv.rb:48-55 | the result is the edit of the memoised table; after a successful edit the cached table is the edited one, because the copy shares its rows with the cache |
| `ImportCsv.TableAfterDefinePreprocessor` | app/models/import/csv.rb:80-88 | after a successful registration the next table is rebuilt from the text with the new registry, earlier edits gone; under `"amount"` it is normalised with the new preprocessor; after a failure the earlier table is returned |
| `ImportCsv.TableAfterDefineValidator` | app/models/import/csv.rb:73-78 | registering a validator, successful or not, leaves the next table as it was |
| `ImportCsv.DecimalCommaConverted` | app/models/import/field.rb:16-18 | `1.234,56` is preprocessed to `1.234.56` |
| `ImportCsv.DecimalCommaRejected` | app/models/import/field.rb:16-18 | a decimal check that rejects `1.234.56` also rejects `1.234,56` preprocessed twice |
| `ImportCsv.DecimalCommaRemap` | app/models/import/csv.rb:15-20 | the source headed `Fecha,Monto`, mapped with `date => Fecha` and `amount => Monto`, remaps to a table headed `date,amount` with the same row |
| `ImportCsv.DecimalCommaInvalid` | app/models/import/csv.rb:57-71 | with the decimal preprocessor on `"amount"`, that table is not valid when the decimal check rejects `1.234.56` |

## Left out

- CSV lexing and writing (`CSV.parse` with `liberal_parsing`, quoting, `CSV.generate`) belong to Ruby's library. They are the given functions `CsvLibrary.lex` and `CsvLibrary.generate`, so no generate-then-parse round trip is stated. The remap's properties are stated on tables.
- `iso_date_validator` and `bigdecimal_validator` wrap `Date.parse` and `BigDecimal` and catch their exceptions. They are not modelled; a lemma that needs such a check takes it as a `string -> bool` parameter (`isDate`, `isDecimal`).
- Ruby's `nil` is not modelled. A `nil` text (`csv_str || ""`) is not a possible input. A `nil` cell (padding of short rows, a missing field, a row read past the table) is the empty string. Rows longer than the header row, whose extra fields have no header, are outside `Grid`.
- `CsvTable.Fetch`: an empty header field, `nil` in Ruby, is `""` in the model, so a lookup of `""` finds that column, where Ruby's does not. `row.fetch("", "")` at csv.rb:20 goes through `assoc("")`, which no `nil` header matches, so Ruby yields `""`. The model yields the cell under the empty header instead. This covers a remap whose mapping value or field key is `""` (`ImportCsv.Remapped`), a `""` key in the registries given to `ImportCsv.Csv.constructor`, and a `define_*` call with the key `""`.
- `ImportCsv.Csv.DefineValidator`, `ImportCsv.Csv.DefinePreprocessor`: CSV reads an empty header field as `nil`, and `h.strip` at csv.rb:74 and csv.rb:81 then raises `NoMethodError` as soon as `find` reaches that header. The model reads such a header as `""`, so its `FindHeader` passes over it unless the key is `""`. With any other key it finds a later header or returns `HeaderNotFound`. With the key `""` it finds that header, and the function is stored under `""` where Ruby raises.
- `ImportCsv.Csv.constructor`: `initialize` keeps the caller's Hash objects as registries, so a later `define_validator` or `define_preprocessor` also changes the caller's hash. The model's registries are map values, so that sharing is not modelled.
- `CsvTable.ParseCsv`: `CSV.parse` can raise `MalformedCSVError` even with `liberal_parsing`, for example on an unclosed quote. The model's `lex` is total, so that error path is not modelled.
- Validators and preprocessors are total functions. Exceptions they raise, such as `gsub` on a `nil` cell, are not modelled.
- Passing a function as an argument or as a block (`validator || block`) is one function argument. A `define_validator` call with neither is not modelled.
- `ImportCsv.Csv.DefineValidator` and `ImportCsv.Csv.DefinePreprocessor` return, in the model, the header the function was stored under. In the source `Import::Csv#define_validator` returns the function it stored, and `Import::Csv#define_preprocessor` returns `nil`, the value of its last line `@table = nil`.
- `ImportField.Field.DefineValidator` and `ImportField.Field.DefinePreprocessor` return nothing in the model. In the source `Import::Field#define_validator` and `#define_preprocessor` return the function they store (field.rb:35, field.rb:39).
- `key.to_s`: the model takes the key already as a string, so symbol keys are not modelled. The label is stored and has no behaviour.
- `ImportCsv.Csv.UpdateCell`: Ruby's negative indices are not modelled. A column index past the end of a row, which `CSV::Row#[]=` pads with `nil` fields, is `IndexOutOfRange` in the model. A row index past the table, which makes Ruby call `[]=` on `nil`, is `IndexOutOfRange` too.
- `ImportCsv.Csv.UpdateCell`: the returned copy is a value. The aliasing between it and the cache is modelled only as far as the write reaching the cached table; later mutation of the returned object is not modelled.
- Concurrency does not arise: the session is single-threaded.

## Findings

| source | as written | input that shows it | evidently intended | confidence | as-written member | corrected member |
|---|---|---|---|---|---|---|
| app/models/import/csv.rb:51 | `get_preprocessor_by_header(header)` names `header`, which `update_cell` never defines, so every call raises `NameError` | `update_cell(0, 0, "x")` on any table with one row and one column | the preprocessor of `table.headers[col_idx]`, as in `cell_valid?` | high; not executed | `ImportCsv.UpdateInAsWritten` | `ImportCsv.UpdateIn` |
| app/models/import/csv.rb:43 | when the table has no `"amount"` column, `row["amount"] = ...` appends an `"amount"` field to every row, so the table's headers gain `"amount"` | a text with header `date` and one row `2024-01-05` | leave a table without an `"amount"` column unchanged | medium; not executed | `ImportCsv.AmountPassAsWritten` | `ImportCsv.AmountPass` |
