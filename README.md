# fcp `/jawab` handler, modelled in Dafny

The program is a small HTTP server. A `POST /jawab` request carries CSV text and a
question in Indonesian. The handler turns the CSV into a column map (header name to
that column's values). It has the question translated by a remote translation model,
sends the table and the translated question to a remote table-question-answering
model, and writes back `{"success": false}` or the model's answer. A body whose JSON
value is `null` makes the handler panic, and no reply is written.

This project models the logic in that path:

- **`CsvPivot`** (`csv_pivot.dfy`): the header-to-column pivot of `CsvToSlice`. The
  methods keep the Go code's loops: `EmptyTable` puts one empty list per header,
  `AppendRecord` appends the fields of one data row to their headers' lists, and
  `CsvToSlice` runs the row loop over them. `CsvToSlice` is proved equal to the
  specification function `Pivoted`. Lemmas about `Pivoted` cover:
  - the key set;
  - column lengths;
  - positional values when headers are distinct;
  - row-major merging when a header repeats.
- **`Translation`** (`translation.dfy`): choosing the translated text from the decoded
  response array.
- **`Jawab`** (`jawab.dfy`): the handler's chain of early returns, and how the answer
  text is built. Everything the handler calls but cannot see is a field of `Externals`:
  - the CSV reader;
  - the translation request and its decoding;
  - the answering request and its decoding;
  - the floating-point SUM.

  `HandleJawab` returns the reply together with the list of steps it ran.
  This is how "no later step runs" is stated.
- **`Outcomes`** (`outcomes.dfy`): `Option`, `Result` and the error causes.

The CSV reader fixes the number of fields per record from the first record, and it
rejects any record of another width. So a reader success is typed `Records`: a record
list that is rectangular by construction. The pivot can therefore index `headers[i]`
for every field without a precondition.

Three behaviours of the code are easy to miss:

- Duplicate header names do not make distinct keys. Their columns merge into one list
  of `k × rows` values (main.go:63-67). So the columns of a table do not all have the
  same length in that case.
- The translation call never checks the HTTP status (main.go:158-178). A failed
  translation request ends the request only because its body does not decode as an
  array, or because the array is empty. `Externals.fetchTranslation` stands for that
  whole outcome.
- An empty CSV gives no map and no error (main.go:51-53). The request then goes on
  with a nil table, which is `Inputs(None, query)` here.

## Model

| member | source | states |
|---|---|---|
| `CsvPivot.Pivoted` | main.go:43-71 | A reader error comes back unchanged, with no map. An empty record list gives no map and no error. Otherwise the key set is exactly the set of header-row fields. Header-only input maps every header to `[]`. |
| `CsvPivot.EmptyTable` | main.go:55-61 | After the header loop the map's keys are exactly the header names, and every list is empty. |
| `CsvPivot.AppendRecord` | main.go:64-67 | The field loop turns the table of the first `n` data rows into the table of the first `n + 1` rows. Its invariant says which fields of row `n` have been appended so far. |
| `CsvPivot.CsvToSlice` | main.go:43-71 | The pivot, with its row loop, returns exactly `Pivoted` of the reader outcome. The loop invariant says the map is the table of the rows appended so far. |
| `CsvPivot.PicksDistinct` | main.go:64-66 | With distinct headers, the fields of a row filed under `headers[j]` are exactly `[row[j]]`. |
| `CsvPivot.ColumnDistinct` | main.go:63-67 | With distinct headers, the list of header `j` has one value per data row, and value `r` is field `j` of row `r`. |
| `CsvPivot.DistinctHeadersArePositional` | main.go:57-68 | With distinct headers, `result[headers[j]]` is the sequence of `records[r+1][j]` over all data rows, in row order. Its length is `len(records) - 1`. |
| `CsvPivot.PicksLength` | main.go:64-66 | The number of fields a row files under `h` equals the number of times `h` occurs in the header row. |
| `CsvPivot.ColumnLength` | main.go:59-68 | A header that occurs `m` times gets a list of `m × n` values after `n` data rows. |
| `CsvPivot.ColumnPrefix` | main.go:66 | Values are only appended: the list after `n` data rows is the list after `p` rows followed by more values. |
| `CsvPivot.ColumnBlock` | main.go:63-67 | Data row `r`'s fields under a header follow, in the final list, all the values of the rows before it. |
| `CsvPivot.ColumnRowBlock` | main.go:63-67 | Row-major order: block `r` of `m` values in a header's list holds data row `r`'s fields under that header, left to right. |
| `CsvPivot.DuplicateHeadersMerge` | main.go:57-68 | For the full pivot, a header that occurs `m` times maps to one list of `(len(records) - 1) × m` values. Block `r` of that list comes from record `r + 1`. |
| `Translation.TranslateText` | main.go:172-184 | Success exactly when the decoded array is non-empty, and then the result is the first element's `translation_text`. An earlier failure passes through. An empty array gives the "no translation found" error. |
| `Jawab.RenderCells` | main.go:269 | The `%+v` rendering of the cells is bracketed. |
| `Jawab.JoinRoundTrip` | main.go:269 | Splitting the space-joined cells on spaces gives back the cells, for a non-empty list in which no cell holds a space. (`[]` and `[""]` both render as `[]`.) |
| `Jawab.RenderCellsRoundTrip` | main.go:269 | The rendering between the brackets loses no cell, for a non-empty list in which no cell holds a space. |
| `Jawab.AnswerText` | main.go:256-270 | With aggregator `"SUM"`, the answer is the SUM formatter's text. Otherwise it starts with `"AI Model Response: \n"` and the rest is the cells rendering. |
| `Jawab.HandleJawab` | main.go:203-297 | The steps run in order: decode, pivot, translation, query. A `null` body decodes without error into a nil request, and the handler then crashes at main.go:218 with no reply and no step run. Every step before the last one succeeded. The reply is `{success:false}` exactly when decoding failed or the last step run failed. The payload is the pivoted table with the translated query. On success all three calls were made, and the reply copies coordinates, cells and aggregator unchanged next to the answer text. |
| `Jawab.ExamplePivot` | main.go:43-71 | The records `name,age / Alice,30 / Bob,25` pivot to `{name: [Alice, Bob], age: [30, 25]}`. |
| `Jawab.ExampleRequest` | main.go:203-297 | For that CSV, with a translation and a model answer `Alice` under aggregator `NONE`, the reply is `success:true` with answer `"AI Model Response: \n[Alice]"` and the model's coordinates, cells and aggregator. |

## Left out

- The recovery of the panic at main.go:218: the server's own code, which logs it and closes the connection. The model stops at the `Crashed` reply.
- The HTTP server, routing, `main` and `handleIndex` (main.go:188-199, 300-318): process plumbing and a template read from disk.
- The outbound requests of `ConnectAIModel` (main.go:74-104), the request part of `translateText` (main.go:142-178) and the unused `callGPT2Model` (main.go:107-139): network I/O. Their results are the `Externals` fields `queryModel` and `fetchTranslation`. The non-200 check of `ConnectAIModel` lies inside `queryModel`.
- JSON decoding of the request body and JSON encoding of the reply: library code. The handler takes the decoded request as a `Result` whose `None` is the nil request a `null` body leaves, and the reply is the `Reply` datatype.
- CSV tokenising (`encoding/csv`): library code. `Externals.readAll` gives its outcome.
- The SUM branch (main.go:256-267): it uses `strconv.ParseFloat`, float addition and `%f` formatting. It is the opaque `Externals.formatSum`.
- The error check at main.go:273-281: unreachable. The `err` it tests is still nil there, because the one at main.go:260 is a new variable scoped to the loop. So post-processing cannot fail in the model.
- Error messages: errors are kept as `Error` constructors carrying the cause, not as formatted strings. They are only logged, and the reply never shows them.
- The bearer token and the `fmt.Print*` diagnostics: configuration and logging.
- `Jawab.RenderCells`: models `%+v` of a `[]string` only, not Go's general value formatting.
