# JSON-to-CSV converter: a Dafny model of its conversion engine

The converter is a single React component (`src/App.js`). A user uploads one or more files
that each hold a JSON array. The component merges the arrays into one record list and
collects the union of the records' keys. It then offers a configuration table, one row per
column, where the user can select, rename, give a default, delete, add and drag columns.
Finally it serialises the records as CSV text. This project models that engine without the
user interface:

- `Json.dfy` (module `Json`): the parsed JSON value as a tagged union, plus the three
  JavaScript operations the component applies to records. These are `Object.keys`
  (`OwnKeys`), the property read `item[key]` (`Lookup`) and `String(value)` (`Coerce`).
- `Upload.dfy` (module `Upload`): the reading loop of `handleFileUpload` (`ReadBatch`,
  `AddRecordKeys`, `AddKeys`). It is proved against the specification functions `Ingest`,
  `Flatten` and `KeyUnion`. Lemmas state all-or-nothing ingestion, the record count, and
  that the key list is duplicate-free, complete and ordered by first occurrence.
- `ColumnConfig.dfy` (module `ColumnConfig`): the configuration entries and the
  position-addressed edits (initialise, update one field, delete, add a custom column,
  move). Each edit comes with lemmas about what it keeps and what it changes.
- `CsvExport.dfy` (module `CsvExport`): `escapeCsvField`, the choice of columns, and the
  header and row construction. A reader for the produced text serves as the partner: it
  splits fields at `,` and records at line feeds, and it un-doubles quoted fields as in
  section 2 of RFC 4180. The lemmas prove that every record line reads back as the texts of
  its cells.
- `App.dfy` (module `App`): class `AppState`. It has the component's state fields and one
  method per handler. Each method states the new state in terms of the functions above and
  keeps the invariant `Valid()`: the merged records and the key list always describe the
  same batch, and no record is null.
- `Wrappers.dfy`: `Option` and `Result`.

Error outcomes are datatypes, not message texts: `LoadError`, `ExportError` and
`App.Message`.

## Behaviour worth knowing

The model follows the code, including these points:

- A new custom column is named `custom_` followed by the new list length. After a delete
  that name can repeat (`ColumnConfig.AddCustomCanRepeat`). Export then takes the default
  of the first selected entry with that key.
- Delete ignores an index past the end and leaves the list as it was. The update and the
  move are only ever called with row indices, so their preconditions require indices in
  range.
- `String(value)` of an object gives `[object Object]`, or throws for an object with its
  own `toString` member. The throw becomes `ExportError.Unprintable`.
- The header is the raw `columnName || jsonKey` list joined with `,`. It is not escaped.
- A successful upload does not reset `useCustomKeys`.
- Only `,`, `"` and line feed force quoting. A carriage return does not.

## Model

| member | source | states |
|---|---|---|
| Json.NatToString | src/App.js:93 | the decimal rendering of a count is a non-empty digit string, one digit exactly below ten |
| Json.NatToStringValue | src/App.js:93 | the digits of the rendering, read left to right, denote the number |
| Json.NatToStringInjective | src/App.js:93 | two numbers render alike exactly when they are equal |
| Json.IndexKeys | src/App.js:34 | `Object.keys` of an array or string lists "0", "1", … up to the length, in order |
| Json.MemberNames | src/App.js:34 | `Object.keys` of an object lists the member names in member order |
| Json.IndexKey | src/App.js:34 | finds the index whose decimal name is the key, or proves that no index below the length has that name |
| Json.OwnKeys | src/App.js:34 | `Object.keys` fails exactly for a null record |
| Json.FindMember | src/App.js:164 | a member value is found exactly when the key is a member name, and it is the value of the first member with that name |
| Json.Lookup | src/App.js:164 | `item[key]` of an own enumerable property; with `LookupOwnKeys`, it reads exactly the names `Object.keys` reports |
| Json.LookupOwnKeys | src/App.js:34-35 | a name is reported by `Object.keys` exactly when `item[name]` reads an own property |
| Json.JoinParts | src/App.js:153 | joining converted array elements fails exactly when some element failed |
| Json.Coerce | src/App.js:153 | `String` returns a string unchanged; only objects and arrays can throw; an object throws exactly when it has its own `toString` member |
| Upload.FileError | src/App.js:27-46 | a file fails exactly when it is unreadable, unparsable, not an array, or holds a null record |
| Upload.LastError | src/App.js:39-44 | the batch error is the error of the last failing file; there is none exactly when every file is good |
| Upload.Ingest | src/App.js:51-58 | a batch fails exactly when some file fails; on success it yields every file's array in batch order |
| Upload.Arrays | src/App.js:36 | the arrays pushed to `parsedData`; `AllParsedArrays` states they are one per file, in order, when no file fails |
| Upload.AllParsedArrays | src/App.js:36 | with no failing file, one array is kept per file, in order |
| Upload.Flatten | src/App.js:56 | `parsedData.flat()`; `FlattenLength`, `FlattenAppend` and `FlattenIndex` state its length, order and positions |
| Upload.ArraysHaveNoNull | src/App.js:33-36 | the records of a batch without a failing file include no null |
| Upload.FlattenLength | src/App.js:56 | the merged list has as many records as all files together |
| Upload.FlattenAppend | src/App.js:56 | flattening keeps file order, then record order |
| Upload.FlattenIndex | src/App.js:56 | record k of file i sits after all records of the earlier files |
| Upload.RecordKeys | src/App.js:34 | the keys `Object.keys` lists for one record; `KeysFlatMembership` ties them to the visit |
| Upload.KeysFlat | src/App.js:33-35 | every key visited by the two `forEach` loops, in visiting order; `KeysFlatAppend` and `KeysFlatMembership` state its order and contents |
| Upload.KeysFlatAppend | src/App.js:33-35 | the key visit over two record lists is the two visits concatenated |
| Upload.KeysFlatMembership | src/App.js:33-35 | a key is visited exactly when some record has it |
| Upload.FirstIndex | src/App.js:22 | the first occurrence of a key, with none before it |
| Upload.Dedup | src/App.js:22 | insertion into a `Set` in order; `DedupSpec` states it is duplicate-free, complete and ordered by first occurrence |
| Upload.KeyUnion | src/App.js:57 | `Array.from(allKeys)`; `KeyUnionSpec` states the three promises about the key list |
| Upload.DedupSpec | src/App.js:22 | the `Set` insertion order is duplicate-free, holds exactly the visited keys, and is ordered by first occurrence |
| Upload.KeyUnionSpec | src/App.js:57 | `dynamicKeys` is duplicate-free, holds exactly the keys that some record has, and is ordered by first occurrence (record order, then key order) |
| Upload.AddKeys | src/App.js:34 | adding one record's keys to the set yields the union in first-seen order |
| Upload.AddRecordKeys | src/App.js:33-35 | a walk over one file's records throws exactly when a record is null; otherwise it extends the union by their keys |
| Upload.ReadBatch | src/App.js:20-50 | the reading loop leaves the last failing file's error; with no error it holds every array and the key union of the merged records |
| ColumnConfig.Get | src/App.js:79 | a read field holds a value of its field's type |
| ColumnConfig.Set | src/App.js:79 | `{ ...config, [field]: value }`; `SetGet` states what it stores and keeps |
| ColumnConfig.SetGet | src/App.js:79 | setting a field stores the value there and leaves every other field unchanged |
| ColumnConfig.Initial | src/App.js:61-67 | the entry built for one loaded key; `InitConfigs` states its fields |
| ColumnConfig.InitConfigs | src/App.js:61-67 | one entry per key in key order, named for its key, selected, not custom, with an empty default |
| ColumnConfig.JsonKeys | src/App.js:139 | the i-th key is the i-th entry's `jsonKey` |
| ColumnConfig.InitConfigsKeys | src/App.js:61-67 | the initial table reads exactly the loaded keys, in order |
| ColumnConfig.Update | src/App.js:77-80 | an update keeps the length and every entry other than the edited one |
| ColumnConfig.UpdateOneField | src/App.js:77-80 | after an update, only the edited field of the edited entry differs |
| ColumnConfig.DeleteAt | src/App.js:84 | the filter drops one entry when the index is in range and none otherwise |
| ColumnConfig.DeleteAtSplice | src/App.js:84 | the filter equals cutting out position `index`; an index past the end changes nothing |
| ColumnConfig.DeleteAtContents | src/App.js:84 | a delete in range loses exactly that entry; the entries before it stay in place and the entries after it move down by one |
| ColumnConfig.CustomKey | src/App.js:93 | `custom_` followed by the new length; `CustomKeyInjective` and `AddCustomCanRepeat` state when keys coincide |
| ColumnConfig.CustomKeyInjective | src/App.js:93 | two list lengths give the same generated key exactly when they are equal |
| ColumnConfig.AddCustom | src/App.js:89-99 | appends one custom entry named `custom_(n+1)` with blank name and default; the first n entries are unchanged |
| ColumnConfig.DeleteUndoesAdd | src/App.js:83-99 | deleting the entry just added restores the table |
| ColumnConfig.AddCustomFresh | src/App.js:93 | the keys stay distinct when the generated key is not in use yet |
| ColumnConfig.AddCustomCanRepeat | src/App.js:93 | add, delete the first entry, add again: two entries share key `custom_3` |
| ColumnConfig.RemoveAt | src/App.js:117 | `splice(i, 1)` shortens the list by one |
| ColumnConfig.RemoveAtMultiset | src/App.js:117 | `splice(i, 1)` loses exactly the entry at i |
| ColumnConfig.InsertAt | src/App.js:118 | `splice(i, 0, x)` lengthens the list by one and puts x at i |
| ColumnConfig.InsertAtMultiset | src/App.js:118 | `splice(i, 0, x)` adds exactly x |
| ColumnConfig.RemoveInserted | src/App.js:117-118 | removing at the insertion point undoes the insert |
| ColumnConfig.InsertRemoved | src/App.js:117-118 | re-inserting a removed entry where it was undoes the removal |
| ColumnConfig.RemoveAtIsDeleteAt | src/App.js:84 | the filter delete and `splice(i, 1)` agree |
| ColumnConfig.Move | src/App.js:115-119 | a move onto itself changes nothing; otherwise the result is a permutation of the same length with the source entry at the target |
| ColumnConfig.MoveKeepsOthers | src/App.js:115-119 | removing the moved entry from both lists gives the same sequence |
| ColumnConfig.MoveBack | src/App.js:115-119 | moving the entry back to its source restores the table |
| ColumnConfig.MoveThenRemove | src/App.js:117-118 | moving entry 0 to position 2 then splicing out position 0 equals splicing out entry 1 then moving entry 2 to the front |
| ColumnConfig.MoveThenDelete | src/App.js:83-87 | moving entry 0 to position 2 then deleting row 0 equals deleting row 1 then moving the old entry 2 to the front |
| CsvExport.NeedsQuoting | src/App.js:154 | `,`, `"` or a line feed in the text; `EscapePresent` states the effect |
| CsvExport.DoubleQuotes | src/App.js:152-155 | `replace(/"/g, '""')`; `UndoubleDouble` states that un-doubling inverts it |
| CsvExport.Quote | src/App.js:152-155 | the doubled text between two quotes: it opens and closes with `"` |
| CsvExport.DoubleQuotesNoQuote | src/App.js:155 | a string without quotes is unchanged |
| CsvExport.UndoubleDouble | src/App.js:155 | un-doubling recovers the string whose quotes were doubled |
| CsvExport.EscapeCsvField | src/App.js:151-158 | escaping fails only when `String` throws on a present value |
| CsvExport.EscapePresent | src/App.js:153-157 | a present value comes out bare unless it has `,`, `"` or a line feed; otherwise it is quoted with doubled quotes, and un-doubling the interior recovers it |
| CsvExport.EscapeMissing | src/App.js:152 | a missing or null value comes out empty with no default, and otherwise as the quoted default, even an empty one |
| CsvExport.CellText | src/App.js:152-153 | the text a cell stands for; `EscapeEncodes` states that the escaped field renders it |
| CsvExport.EscapeEncodes | src/App.js:151-158 | the escaped field is a well-formed rendering of the cell's text |
| CsvExport.ParseQuoted | src/App.js:155 | reader (partner) for the quoted output of line 155; it leaves no more input than it was given |
| CsvExport.ParseBare | src/App.js:157 | reader (partner) for the bare output of line 157; it leaves no more input than it was given |
| CsvExport.ParseField | src/App.js:151-158 | reader (partner) for the output of lines 151-158; it leaves no more input than it was given |
| CsvExport.ParseLine | src/App.js:165 | reader (partner) for the joined row of line 165; it leaves no more input than it was given |
| CsvExport.ParseQuotedDoubled | src/App.js:155 | a quoted field's interior reads back as the original text |
| CsvExport.ParseBarePlain | src/App.js:157 | a bare field reads back as itself up to the delimiter |
| CsvExport.ParseFieldEncoded | src/App.js:151-158 | every escaped field reads back as its cell's text |
| CsvExport.ParseLineJoined | src/App.js:161-165 | a row of escaped fields joined with `,` reads back as its cell texts |
| CsvExport.JoinWith | src/App.js:160-167 | `parts.join(sep)`; `ParseLineJoined` and `ParseLinesJoined` state that the reader splits it back |
| CsvExport.JoinRows | src/App.js:165 | one joined line per record |
| CsvExport.ParseLinesJoined | src/App.js:161-167 | rows joined with line feeds read back row by row |
| CsvExport.SelectedConfigs | src/App.js:134 | holds exactly the selected entries, and no more than the list has |
| CsvExport.SelectedConfigsAppend | src/App.js:134 | the filter of a concatenation is the concatenation of the filters, so the selected entries keep table order and repetitions |
| CsvExport.SelectedConfigsAll | src/App.js:134 | a list with every entry selected is kept whole, in order |
| CsvExport.DisplayName | src/App.js:140 | a non-blank column name is used; a blank one falls back to the key |
| CsvExport.DisplayNames | src/App.js:140 | one display name per entry |
| CsvExport.FindSelectedIndex | src/App.js:163 | the position of the first selected entry with the key, or none exists |
| CsvExport.FindSelected | src/App.js:163 | the first selected entry with the key, or none exists |
| CsvExport.ChooseColumns | src/App.js:131-148 | custom mode reads the selected entries' keys under their display names; otherwise the columns are the loaded keys under their own names |
| CsvExport.DefaultFor | src/App.js:163-164 | the default passed to `escapeCsvField`; `CustomColumnsHaveDefaults` and `MissingCell` state when and which |
| CsvExport.CustomColumnsHaveDefaults | src/App.js:163-164 | in custom mode every chosen column finds a selected entry, so a default is always in play |
| CsvExport.MissingCell | src/App.js:152-164 | a missing or null cell renders `''` outside custom mode, and as the quoted default of the first selected entry in custom mode |
| CsvExport.AllSome | src/App.js:150-166 | a list of computations that may throw gives all their values, in order, exactly when none throws |
| CsvExport.EscapeRow | src/App.js:162-165 | one escaped field per chosen key; fails exactly when some cell fails |
| CsvExport.TextRow | src/App.js:162-165 | one cell text per chosen key; fails exactly when some cell fails |
| CsvExport.EscapeTable | src/App.js:161-166 | one escaped row per record; fails exactly when some row fails |
| CsvExport.TextTable | src/App.js:161-166 | one text row per record; fails exactly when some row fails |
| CsvExport.RowEncodes | src/App.js:162-165 | each escaped field renders its cell text |
| CsvExport.TableEncodes | src/App.js:161-166 | the escaped table renders the text table cell by cell |
| CsvExport.NoneSelected | src/App.js:133-138 | the filtered list of selected entries is empty exactly when no entry is selected |
| CsvExport.RowsFail | src/App.js:150-166 | with at least one column, the mapping over the records throws exactly when some cell text cannot be formed |
| CsvExport.ConvertToCsv | src/App.js:125-167 | the downloaded text or the error; `ConvertErrors` and `ConvertRoundTrip` state both outcomes |
| CsvExport.ConvertErrors | src/App.js:126-148 | the export fails with no data, with no selected entry in custom mode, or with no keys outside it; otherwise it succeeds exactly when every cell converts |
| CsvExport.ConvertRoundTrip | src/App.js:160-167 | the output is the raw header, a line feed, then exactly one line per record with one field per chosen column, each reading back as its cell text |
| App.AppState.constructor | src/App.js:5-10 | the component starts empty, in raw mode, with no message |
| App.AppState.HandleFileUpload | src/App.js:13-70 | an empty or failing batch keeps all data; a good one replaces the records, the duplicate-free keys and the initial table |
| App.AppState.HandleCustomKeysToggle | src/App.js:72-75 | flips the mode and clears the message |
| App.AppState.HandleKeyConfigChange | src/App.js:77-81 | the table becomes the one-field update of the old one |
| App.AppState.HandleDeleteRow | src/App.js:83-87 | the table becomes the old one without that row |
| App.AppState.HandleAddCustomKey | src/App.js:89-101 | the table gains one custom entry |
| App.AppState.HandleDrop | src/App.js:112-123 | dropping a row onto itself changes nothing; otherwise the table becomes the move of the old one |
| App.AppState.HandleConvertToCsv | src/App.js:125-183 | hands `ConvertToCsv`'s text to the download, or reports why there is none; the data is unchanged |
| App.AppState.HandleClearAll | src/App.js:185-192 | every field returns to empty or default |

## Left out

- The `FileReader` and `Promise` plumbing (src/App.js:24-51) is not modelled. Files are
  given as their read-and-parse results, in selection order. In the code, `parsedData`,
  the key set and the surviving error follow the readers' completion order. The model uses
  file order, and the surviving error is that of the last failing file in that order.
- `JSON.parse` is an input, not a model. An object's members are given in the order
  `Object.keys` enumerates them (the parser puts integer-like names first), with distinct names.
- `item[key]` reads own enumerable properties only. The `length` of arrays and strings and
  all inherited properties (`constructor` and so on) are not modelled.
- `String()` of a number is the uninterpreted parameter `numberText`. JavaScript strings
  are UTF-16, but the model indexes strings by Dafny characters.
- The Blob, URL and link download (src/App.js:169-177) is not modelled, nor is the file
  name choice (src/App.js:173). The download is the text the method returns.
- Not modelled: all rendering, the drag-start bookkeeping `dragIndex` (src/App.js:103-110)
  and the preview table and its 50-character truncation (src/App.js:327-357).
- Message texts are replaced by the `Message` datatype. The counts in the success message are kept.
- App.AppState.HandleKeyConfigChange: requires an index in range. Out of range, the
  code would create a sparse array, and the table's inputs never pass such an index.
- App.AppState.HandleDrop: requires both indices in range. The code reads the source from
  the drag payload written by `handleDragStart` for a row. A foreign payload (a `NaN`
  index) is not modelled.
