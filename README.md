# bqwrapper data path, modelled in Dafny

bqwrapper is a small Go client for a hosted data warehouse. `Load` uploads a
JSON or CSV file into a table; `Dump` runs a query, pages through the result
rows, decodes the typed cells into records and writes them out as JSON or CSV.
This project models the deterministic logic inside those two operations, with
every service call replaced by the replies it would return:

- `Schema`: the schema field tree and `walkFields`, which flattens each
  top-level field into one (name, type) pair.
- `Strconv`: the base-10 int64 and bool parsers that decoding uses, and the
  `%v` printers that invert them.
- `Decode`: `toRows`, which decodes each row's cells positionally against the
  flattened fields into a record (a map from name to a scalar or null).
- `CsvOut`: the line building of `dumpCSV`. The header is the sorted keys of the
  first record, each record becomes one line of that width, and the header line
  is prepended on request. Also the choice of the writer's delimiter.
- `Dumper`: the argument checks of `Dump`, the query-reply checks, the
  pagination loop, and the whole of `Dump` up to the writer's input.
- `Loader`: the argument checks and source-format choice of `Load`, the
  project-id check on the returned job, `jobDone`, and the paged dataset
  search of `datasetCreateIfNotExists`.

Page sources are given as sequences of replies. A request beyond the last
reply counts as a failed request. The query call of `Dump` and the status call
of `jobDone` take an optional reply, with none standing for a failed call. Float parsing and float printing are function
parameters that the model never looks inside.

Naming of nested fields follows the code, not the `parent.child` reading one
might expect:

- `walkFields` passes the first child of a RECORD its own name as the prefix.
  A RECORD `p` whose first child is the primitive `c` therefore flattens to
  `c.c`, and nested RECORDs to `leaf.leaf`. A leaf named `""` gives `""`.
  `Schema.WalkFieldsSpec` states this against `Schema.FirstLeaf`.
- Every nested field after the first is ignored.

## Model

| member | source | states |
|---|---|---|
| `Schema.WalkFields` | core.go:537-552 | the flattened type is never RECORD, at any depth |
| `Schema.FirstLeaf` | core.go:547-549 | the first-child descent ends at a non-RECORD field, or at nothing for an empty RECORD |
| `Schema.WalkFieldsSpec` | core.go:537-552 | a primitive field gives (name, type) with no prefix and (prefix.name, type) with one; a RECORD gives its first leaf as `leaf.leaf`, ignoring prefix, its own name and siblings; an empty RECORD chain gives ("", "") |
| `Schema.Flatten` | core.go:479-484 | one flattened entry per top-level field |
| `Schema.FlattenFields` | core.go:479-484 | the loop appends `walkFields("", field)` for every field, in order |
| `Strconv.ParseInt64` | core.go:510-514 | a parsed INTEGER/TIMESTAMP is within the int64 range and the text starts with a digit or a sign |
| `Strconv.FormatInt` | core.go:442 | `%v` of an int64 is an optional minus sign, exactly for negative numbers, then decimal digits with no leading zero |
| `Strconv.ParseFormatInt` | core.go:510-514 | every int64 printed in decimal parses back to itself |
| `Strconv.ParseBool` | core.go:520-524 | true for exactly 1, t, T, TRUE, true, True; false for exactly 0, f, F, FALSE, false, False; anything else fails |
| `Strconv.FormatBool` | core.go:442 | `%v` of a bool parses back to the same bool |
| `Decode.DecodeCell` | core.go:501-527 | a null cell gives null; a failure is an invalid-value error naming the field and the raw text, or an unsupported-type error; a decoded value's kind matches the declared type, and an integer is within the int64 range |
| `Decode.DecodeCellContract` | core.go:499-527 | a null cell decodes to null for any type; STRING passes through; INTEGER/TIMESTAMP, FLOAT and BOOLEAN succeed exactly when their parser does, with the parsed value, and otherwise fail with field name and raw text; other types are unsupported |
| `Decode.DecodeRow` | core.go:497-529 | a failing row fails with the error of one of its cells |
| `Decode.DecodeRows` | core.go:496-530 | on success there is one record per row, in row order, each the row's decoding; success exactly when every row decodes |
| `Decode.DecodeRowKeys` | core.go:497-528 | a decoded record's keys are exactly the names of the fields of its cells |
| `Decode.DecodeRowValues` | core.go:498-504 | cell i is decoded against flattened field i, and the record keeps the last value stored under each name |
| `Decode.DecodeRowErr` | core.go:507-527 | a row fails exactly when one of its cells fails, and with the first failing cell's error |
| `Decode.DecodeRowErrExtends` | core.go:511-513 | a failing cell ends the row: later cells cannot change the error |
| `Decode.DecodeRowsErrExtends` | core.go:511-513 | a failing row ends decoding: no records are returned and later rows cannot change the error |
| `Decode.DecodeRowsErr` | core.go:496-530 | failing rows fail with the error of the first failing row: the lemma names that row, which fails with exactly that error, and every row before it decodes |
| `Decode.DecodeRowCells` | core.go:497-529 | the inner loop and its type switch build exactly the row's decoding, stopping at the first failing cell |
| `Decode.ToRows` | core.go:477-533 | the nested loops return exactly the decoding of all rows against the flattened schema |
| `CsvOut.LessEq` | core.go:431 | the string order extends the prefix order and compares first characters first |
| `CsvOut.LessEqTotal` | core.go:431 | any two strings are ordered one way or the other |
| `CsvOut.LessEqAntisymmetric` | core.go:431 | strings ordered both ways are equal |
| `CsvOut.LessEqTransitive` | core.go:431 | the string order is transitive |
| `CsvOut.SortedUnique` | core.go:430-431 | two sorted arrangements of the same keys are identical, so the header order does not depend on map iteration order |
| `CsvOut.SortedKeysSpec` | core.go:425-431 | the reference header is sorted and holds each key exactly once |
| `CsvOut.CollectKeys` | core.go:425-428 | the range loop collects every key of the first record exactly once |
| `CsvOut.SortFields` | core.go:431 | sorting in place leaves the field array sorted and a permutation of what it held |
| `CsvOut.SortedHeader` | core.go:424-431 | the header is the first record's keys in increasing order |
| `CsvOut.FormatValue` | core.go:442 | `%v` prints null as `<nil>` and a string as itself; a printed bool or int64 parses back to the value |
| `CsvOut.FormatThenDecode` | core.go:442 | a STRING, INTEGER or BOOLEAN value printed with `%v` decodes back to itself against its type |
| `CsvOut.Line` | core.go:439-446 | a line has one entry per header field, in header order: "" for a missing key, otherwise the printed value (`<nil>` for null) |
| `CsvOut.CsvLines` | core.go:434-452 | one line per record in record order, after the header when it is asked for |
| `CsvOut.FormatLine` | core.go:439-446 | the index loop fills exactly the line `Line` describes |
| `CsvOut.BuildCsvLines` | core.go:423-452 | the header is the sorted keys of the first record, and the lines are exactly `CsvLines` of the records |
| `CsvOut.Utf8Encode` | core.go:468 | the UTF-8 encoding of a character has one to four bytes, one exactly for ASCII, and every byte after the first is a continuation byte |
| `CsvOut.FirstByte` | core.go:468 | the delimiter taken from `delim[0]` is the first byte of the character's UTF-8 encoding, so the character itself for ASCII and its lead byte otherwise |
| `CsvOut.Comma` | core.go:463-470 | no delimiter leaves the comma, "tab" gives a tab, anything else the first byte of the UTF-8 encoding of its first character |
| `Dumper.ToLowerAscii` | core.go:197 | upper-case ASCII letters are lowered and every other character is kept |
| `Dumper.CheckDumpArgs` | core.go:191-208 | a missing required argument fails first; then json or csv in any case is accepted and anything else fails; CSV always ends up with a non-empty delimiter, a comma by default |
| `Dumper.CsvDelimiter` | core.go:202-205 | the CSV writer gets a comma for an empty delimiter, a tab for "tab", otherwise the first UTF-8 byte of the argument |
| `Dumper.CheckQuery` | core.go:249-265 | a reply with errors fails with their count, checked before a missing schema fails |
| `Dumper.Collect` | core.go:267-288 | pagination succeeds only with exactly the reported total number of rows |
| `Dumper.CollectAborts` | core.go:274-284 | a failing pagination either lost a request or stopped at the first page with errors, failing with that page's error count after only error-free pages |
| `Dumper.CollectOkReadsCleanPages` | core.go:274-288 | a successful pagination read only error-free pages, and its rows are the first reply's followed by the rows of exactly those pages |
| `Dumper.RowsOfSplit` | core.go:286 | the rows of a run of pages split at any page boundary |
| `Dumper.CollectAll` | core.go:274-288 | with error-free pages that hold the missing rows, pagination returns all of them in order |
| `Dumper.PaginationGathersAll` | core.go:257-288 | the rows gathered are the first reply's followed by every page's, as many as the reported total |
| `Dumper.FetchAllRows` | core.go:254-289 | the loop matches `Collect`; the k-th request carries the job id, the latest token and the running row count as start index; on success it used exactly the pages it requested |
| `Dumper.DumpSpec` | core.go:190-305 | a failed query call fails the dump once the arguments pass; a successful dump holds one record per reported row, or one CSV line per row plus the optional header |
| `Dumper.Dump` | core.go:190-305 | the steps run in the source's order and the result is exactly `DumpSpec` |
| `Loader.SuffixesExclusive` | core.go:31-38 | no file name ends in both .json and .csv |
| `Loader.CheckLoadArgs` | core.go:22-38 | a missing argument fails first; then .json means newline-delimited JSON, .csv means CSV, and any other suffix fails; the chosen format's name is NEWLINE_DELIMITED_JSON or CSV accordingly |
| `Loader.CheckJobProject` | core.go:154-158 | the returned job is accepted exactly when its project id equals the configured one |
| `Loader.JobDone` | core.go:307-331 | a failed status call fails; errors on the status fail next, even for DONE; PENDING and RUNNING are not done; DONE is done; any other state is an unknown-status error |
| `Loader.EnsureDataset` | core.go:335-375 | the search fails only with a failed list call; it finds the dataset only on a page that names it, and decides to create only at a last page that does not name it |
| `Loader.EnsureDatasetCreate` | core.go:335-375 | a create is decided exactly when the chain of listed pages ends without any of its pages naming the dataset |
| `Loader.EnsureDatasetFound` | core.go:335-375 | the dataset is found exactly when a page of the chain names it |
| `Loader.EnsureDatasetExists` | core.go:335-375 | the token loop matches `EnsureDataset` and makes at most one list call per reply plus a failing one |
| `Loader.Contains` | core.go:343-348 | the scan finds the dataset id exactly when the listing contains it |

## Left out

- OAuth credential loading (`oauthClient`) is a foreign library call.
- The HTTP side of `Load` is transport and is not modelled: the resumable upload handshake, the Location header, the job reference JSON and the request headers. Only the project-id check is kept, as `Loader.CheckJobProject`.
- The 3-second polling loop in `Load` is timing with an unbounded wait. Only the classification of each poll (`Loader.JobDone`) is modelled.
- Setting `HTTP_PROXY` is a process-wide side effect.
- File I/O is not modelled: reading the schema and source files, JSON (un)marshalling of the schema and job configuration, `dumpJSON`, creating the CSV file.
- `csv.Writer` quoting and escaping are not modelled. Neither is its refusal of an invalid delimiter, which `dumpCSV` ignores. `Dump` ends at the writer's input: the records, or the delimiter and the lines.
- Building the query request is request building: the query kind, the server-side timeout and the cache flag.
- Float parsing (`strconv.ParseFloat`) and `%v` of a float64 are parameters, and a float is kept as its bit pattern.
- Cell values are taken to be strings or null, which is not the whole of what the service can send. A non-string cell value (a nested object of a RECORD column, the array of a REPEATED one) is treated two ways by the source, and neither is modelled. Under an INTEGER, TIMESTAMP, FLOAT or BOOLEAN field it fails Go's type assertion `cell.V.(string)`. Under a STRING field it is stored unchanged, with no assertion, and `%v` later prints it.
- The reported total row count is an unbounded `nat`. The source's `int(total)` conversion of a 64-bit unsigned count is not modelled.
- Page sources are finite. A reply that never completes the total is modelled as a failed request once the sequence ends, not as the source's endless loop.
- `fields.Sort()` uses Go's library sort. `CsvOut.SortFields` is an insertion sort with the same contract: sorted, and a permutation.
- `strings.ToLower` is modelled for ASCII letters only. That gives the same comparison with "json" and "csv", because no other character lowercases to a letter of those words.
- Strings are sequences of Unicode scalar values. Go strings that hold invalid UTF-8 are not modelled.
- Loader.EnsureDatasetExists: it returns the decision to create but does not model the insert call or its failure. Idempotence across two calls would need the remote dataset store, which is not modelled.
- Decode.ToRows: it requires every row to fit the field list. The source panics only when decoding reaches an over-long row, so an earlier decoding error would come first there.
- Decode.DecodeRows: the same precondition as `Decode.ToRows`, and for the same reason.
- Dumper.Dump: it requires every fetched row to fit the schema, which is stronger than the source in the same way as `Decode.ToRows`. A CSV dump that reaches the writer with no records must also not occur, because `data[0]` panics there.
