# JSON table store — a Dafny model

These two Go programs keep a database table in one JSON file. The Dafny
project models the in-memory part of both: how each operation changes the
decoded table before writing it back.

- **`dbmodule.go`** (module `DbModule`) is a console tool.
  - Insert, delete and update each list the table and prompt for input.
  - Insert converts each typed value according to the column's type string
    (`int`, `float64`, `bool`, anything else is text).
  - A value that fails to convert is asked for again.
  - The row it appends holds the primary-key values first, then the others.
  - Delete removes a row by its listed 1-based number.
  - Update overwrites one cell by row and column number. It stores the
    converted value even when the conversion failed.
- **`JSON-Database/jsondb/database.go`** (module `JsonDb`) is a small library
  plus a demo `main`.
  - `generatePrimaryKey` draws keys from a process-wide counter `pkCounter`.
  - `addRowToJsonFile` puts a fresh key in front of the given values and
    appends the row.
  - `deleteRowFromJsonFile` drops every row whose first cell is a float64
    that truncates to the given key.
- **`Coercion`** holds what both programs share: the cell and column types, and
  the conversion switch with the Go parsers it calls. `strconv.Atoi` and
  `strconv.ParseBool` are modelled exactly. That includes the values they
  return on failure, which are what an update stores. It also holds what a
  JSON save and load does to a cell (`NormalizeCell`), since both programs
  decode their file the same way.

How the model represents the programs:

- **Console input** is a sequence of tokens, one per prompt. Once the tokens
  run out, a prompt reads the empty text, as `fmt.Scanln` does at end of input.
  The re-prompt loop therefore either accepts some token or the empty text, or
  it never ends. A never-ending loop is modelled as "no row added".
- **A file** is modelled by the table it holds (`FileContent`): empty, a
  table, or undecodable.
- **A JSON save followed by a load** is modelled by `Reload`. It leaves a table
  unchanged except that every integer cell comes back as a float64. This is why
  the demo's delete matches keys that the inserts wrote as ints.
- **`pkCounter`** is a field of the class `KeyAllocator`. The `dbmodule.go`
  table is the class `DbModule.Table`, whose methods update its `rows`.
- **The table `DbModule.Table` holds** is the one `json.Unmarshal` decoded, so
  the int cells of earlier saves are float64 cells in it. Only a row inserted
  in the same call still holds int cells. `DbModule.Conforms`, the well-typed
  table the conformance lemmas speak about, therefore accepts in an int column
  both an int and an integral float64. `DbModule.ReloadKeepsConformance`
  shows that a save and load keeps a conforming table conforming.

Where the code differs from what a reader might expect of this design, the
model follows the code:

- `addRowToJsonFile` checks neither the number of values nor their types
  against the columns.
- `AddRowFromUser` never fails on a bad value. It re-prompts until the value
  converts, so it always collects one value of its column's type per column.
- Update discards conversion errors. It stores 0, false or the parser's value.
- An update whose column number is valid for the schema but past the end of the
  chosen row panics. The model reports this as the `IndexPanic` outcome.
- Keys come from the counter, not from the largest key already in the file.
- Neither delete returns an error when nothing is deleted. The positional one
  prints a message and returns nil. The one by key writes the table back
  unchanged.

## Model

| member | source | states |
|---|---|---|
| Coercion.Atoi | dbmodule.go:80 | succeeds exactly on an optionally signed decimal text within the 64-bit range, with its value; on failure gives the bound of the text's sign when its leading digits overflow (even with junk after them), and 0 otherwise |
| Coercion.ParseBool | dbmodule.go:84 | succeeds exactly on the six true and six false spellings; the value is true exactly on a true spelling |
| Coercion.Coerce | dbmodule.go:78-87 | the cell always has the dynamic type its column's type string selects |
| Coercion.CoerceMeaning | dbmodule.go:78-87 | int succeeds exactly on in-range integer text and then holds it; bool succeeds exactly on its spellings and holds whether it is a true one; any other type passes the text through and never fails |
| Coercion.AtoiFormatRoundTrip | dbmodule.go:165-173 | parsing the decimal rendering of any 64-bit int gives that int back |
| Coercion.MalformedIntIsZero | dbmodule.go:238-239 | a malformed integer text of at most 20 characters parses as 0 with an error, so update stores 0 |
| Coercion.NonNumericIntRejected | dbmodule.go:79-80 | the text "abc" is rejected by the int conversion |
| Coercion.MalformedBoolIsFalse | dbmodule.go:242-243 | any text that is not a bool spelling is rejected and stores false |
| DbModule.AcceptFrom | dbmodule.go:72-99 | the re-prompt loop ends on the first token that converts, with that value; it never ends exactly when every remaining token and the empty text are rejected |
| DbModule.Gather | dbmodule.go:71-100 | one value per column, each of the type its column declares, read in column order |
| DbModule.PromptColumn | dbmodule.go:72-99 | the inner loop's value and stopping position are the ones AcceptFrom describes |
| DbModule.ReadRowValues | dbmodule.go:66-100 | the loops end exactly when every column's loop ends, and then collect the primary-key values and the other values, each in column order |
| DbModule.SelectPartitions | dbmodule.go:89-94 | the primary and non-primary lists together hold every collected value once |
| DbModule.SelectMembers | dbmodule.go:89-94 | a value is in a list exactly when some column with that primary flag holds it |
| DbModule.AssembledRowPermutesValues | dbmodule.go:102 | the new row is a permutation of the collected values, one cell per column |
| DbModule.PrimaryFirstKeepsSchemaOrder | dbmodule.go:89-102 | when the primary columns come first, the new row is in schema order |
| DbModule.SchemaOrderIffPrimaryFirst | dbmodule.go:89-102 | for distinct values, the new row is in schema order exactly when no primary column follows a non-primary one |
| DbModule.ReloadKeepsConformance | dbmodule.go:61 | decoding a saved conforming table, which turns its int cells into float64 cells, leaves it conforming |
| DbModule.InsertKeepsConformance | dbmodule.go:71-104 | with the primary columns first, an insert into a conforming loaded table keeps every row one admitted cell per column |
| DbModule.Table.AddRowFromUser | dbmodule.go:66-104 | a row is appended exactly when every prompt loop ends: the primary-key values, then the others; otherwise the rows are unchanged |
| DbModule.WithoutRow | dbmodule.go:180 | removes exactly the k-th row; the rows before it and after it keep their places in order |
| DbModule.WithoutRowRemovesOne | dbmodule.go:180 | the remaining rows plus the deleted one are the original rows as a multiset |
| DbModule.ListedNumberSelectsRow | dbmodule.go:165-180 | typing back the number listed for row i is accepted and deletes exactly row i |
| DbModule.DeleteKeepsConformance | dbmodule.go:180 | deleting a row keeps a conforming table conforming |
| DbModule.Table.DeleteRowFromUser | dbmodule.go:159-180 | a row is deleted exactly when there are rows and the text parses to a number in 1..count; then that row is spliced out, otherwise nothing changes |
| DbModule.WithCell | dbmodule.go:248 | the chosen cell holds the new value; every other cell and every row length are unchanged |
| DbModule.UpdateKeepsConformance | dbmodule.go:236-248 | overwriting a cell with the conversion of any text keeps a conforming table conforming |
| DbModule.Table.UpdateRowFromUser | dbmodule.go:202-248 | no rows, a bad row number and a bad column number each end the update with nothing changed, checked in that order; a column past the row's end panics; otherwise the cell holds the conversion of the text, even a failed one |
| DbModule.Table.constructor | dbmodule.go:296 | a new table has the given name and columns and no rows |
| Coercion.NormalizeCell | dbmodule.go:61 | an int cell reloads as the float64 of the same value; every other cell reloads unchanged; no reloaded cell is an int |
| JsonDb.ReloadIdempotent | JSON-Database/jsondb/database.go:50-63 | saving and reloading twice gives the same table as once |
| JsonDb.DecodeForAppend | JSON-Database/jsondb/database.go:50-54 | the insert fails to decode exactly on undecodable content; an empty file gives the zero table |
| JsonDb.DecodeStrict | JSON-Database/jsondb/database.go:78-82 | the delete decodes successfully exactly when the file holds a table |
| JsonDb.Wrap64 | JSON-Database/jsondb/database.go:37 | Go int arithmetic: results stay in the 64-bit range, are exact inside it and wrap at both ends |
| JsonDb.NextCounter | JSON-Database/jsondb/database.go:37 | the counter goes up by one, and from the largest int to the smallest |
| JsonDb.KeyAllocator.constructor | JSON-Database/jsondb/database.go:34 | the counter starts at 1 |
| JsonDb.KeyAllocator.GeneratePrimaryKey | JSON-Database/jsondb/database.go:36-39 | returns the counter's value before the increment and advances the counter |
| JsonDb.KeysCountUp | JSON-Database/jsondb/database.go:34-39 | without wrap-around, successive keys are c, c + 1, c + 2, ... |
| JsonDb.FreshProcessKeys | JSON-Database/jsondb/database.go:34-39 | in a fresh process the keys are 1, 2, ..., n, strictly increasing, so none repeats |
| JsonDb.AppendKeyed | JSON-Database/jsondb/database.go:56-58 | the new row is the key followed by the given values, appended after unchanged rows, name and columns |
| JsonDb.AddRowToJsonFile | JSON-Database/jsondb/database.go:50-58 | undecodable content writes nothing and takes no key; otherwise one key is taken and the decoded table plus the keyed row is written |
| JsonDb.GoInt | JSON-Database/jsondb/database.go:87 | float64 to int conversion truncates toward zero; out of range it gives the smallest int |
| JsonDb.RowsWithout | JSON-Database/jsondb/database.go:84-93 | no kept row matches the key, and no row is added |
| JsonDb.RowsWithoutAppend | JSON-Database/jsondb/database.go:84-93 | filtering keeps the surviving rows in their original order |
| JsonDb.RowsWithoutCounts | JSON-Database/jsondb/database.go:84-93 | every matching row is dropped and every other row is kept as often as it occurs |
| JsonDb.AbsentKeyIsNoOp | JSON-Database/jsondb/database.go:84-93 | a key that no row carries deletes nothing |
| JsonDb.DeleteKeyIdempotent | JSON-Database/jsondb/database.go:84-93 | deleting a key twice is the same as deleting it once |
| JsonDb.KeyTestTruncates | JSON-Database/jsondb/database.go:86-87 | 2.7 and 2.0 match key 2, -2.7 matches -2, 2.7 does not match 3, and an int cell never matches |
| JsonDb.ReloadedKeyMatches | JSON-Database/jsondb/database.go:87 | a key stored as an int is not matched until a reload turns it into a float64, and then it is |
| JsonDb.DeleteKeyed | JSON-Database/jsondb/database.go:84-93 | the written table keeps its name and columns, and no row of it matches the key |
| JsonDb.FilterRows | JSON-Database/jsondb/database.go:84-93 | the loop builds exactly the rows RowsWithout keeps |
| JsonDb.DeleteRowFromJsonFile | JSON-Database/jsondb/database.go:78-93 | writes exactly when the file holds a table, and then writes it without the matching rows |
| JsonDb.DeleteUndoesFreshInsert | JSON-Database/jsondb/database.go:56-93 | inserting under a key no row carries, reloading, and deleting that key gives back the reloaded table from before |
| JsonDb.DemoScenario | JSON-Database/jsondb/database.go:167-194 | the demo issues keys 1, 2, 3, and after deleting key 2 leaves the rows for keys 1 and 3, in that order, as float64 keys |
| JsonDb.RunDemo | JSON-Database/jsondb/database.go:167-194 | main's sequence of calls ends with the users table holding exactly user1 and user3 |

## Left out

- File system: reading, opening, creating, truncating and writing files are not modelled. Each operation takes the decoded file content and returns the table to be written.
- The rewrite in `addRowToJsonFile` without truncation is not modelled: it seeks back to the start and writes over the old content. When the new encoding is shorter than the old file (content from another encoder, wider indentation, `1.0` for a number, unknown fields), stale bytes are left after it. The model assumes the file then holds exactly the written table.
- `encoding/json` is not modelled byte for byte. It stands as `Reload`: the integer-to-float64 change is its only effect on a table.
- Coercion.NormalizeCell: float64 is modelled as an exact real, so a reloaded int larger than 2^53 keeps its value instead of being rounded.
- Coercion.Coerce: `strconv.ParseFloat` is a parameter of the model (`FloatParser`), uninterpreted, and its reals stand for finite results only. Go's parser also accepts "NaN" and "Inf", and an update keeps the +Inf it returns for "1e400" because the range error is discarded. Nothing is claimed about float64 parsing.
- The failure of `json.Marshal` and of the encoder is not modelled. It happens for a NaN or infinite cell: then nothing is written, the operation returns the error, and `CreateTable` calls `log.Fatal`. The model always writes the changed table.
- Console output is not modelled. That covers `ReadTable`, `printTableData`, the row and column listings and every message.
- `fmt.Scanln`'s splitting of a line into tokens is not modelled. One input token stands for one line.
- CreateTable's menu, file path, existence test and column prompts are not modelled. Only the table it builds is (`DbModule.Table.constructor`). `CreateDatabaseJsonFile` is a file write of the table CreateTable built. `createDatabaseJsonFile` is a file write too; its table is `JsonDb.Users`.
- `log.Fatal` and process exit are not modelled.
- DbModule.Table.AddRowFromUser: a prompt loop that would never end is modelled as "no row added". In the program it hangs.
- DbModule.Table.UpdateRowFromUser: the Go panic for a column past the row's end is an outcome value. Nothing is written.
- `readTableFromJsonFile` is modelled only through its decode, `JsonDb.DecodeStrict`.
- JsonDb.GoInt: Go leaves out-of-range float-to-int conversion to the platform. The model fixes the amd64 result, the smallest int.
- The struct tags in `dbmodule.go` lack their backquotes, so that file does not compile as written. The model assumes the tagged struct of `database.go`.
- Concurrency: two processes writing the same file are not modelled.
