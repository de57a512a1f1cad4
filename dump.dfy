/** Dump: argument checks, the query reply checks, the pagination loop that
    gathers every result row, decoding, and the output handed to the writer. */
module Dumper {
  import opened Errors
  import opened Schema
  import opened Decode
  import opened CsvOut

  datatype OutputFormat = Json | Csv

  /** The normalised output settings: the format, and the delimiter argument
      (defaulted to a comma for CSV). */
  datatype DumpOptions = DumpOptions(format: OutputFormat, delimiter: string)

  /** The string arguments of Dump that the model reads, and the header flag.
      The proxy, the pretty-printing flag, the server timeout and the cache
      flag only affect I/O and are not part of the model. */
  datatype DumpArgs = DumpArgs(
    projectId: string, jwtFile: string, output: string, fileFormat: string,
    delimiter: string, query: string, printFields: bool)

  /** strings.ToLower, restricted to ASCII letters.  No other character lower-
      cases to a letter of "json" or "csv", so comparing with those two words
      gives the same answer as the full Unicode mapping. */
  function ToLowerAscii(s: string): (r: string)
    ensures |r| == |s|
    ensures forall i | 0 <= i < |s| :: 'A' <= s[i] <= 'Z' ==> r[i] as int == s[i] as int + 32
    ensures forall i | 0 <= i < |s| :: !('A' <= s[i] <= 'Z') ==> r[i] == s[i]
  {
    seq(|s|, i requires 0 <= i < |s| =>
      if 'A' <= s[i] <= 'Z' then (s[i] as int + 32) as char else s[i])
  }

  predicate MissingDumpParam(args: DumpArgs)
  {
    args.projectId == "" || args.jwtFile == "" || args.output == "" || args.fileFormat == "" || args.query == ""
  }

  /** The parameter checks at the head of Dump.  The five required strings must
      be non-empty (the delimiter is optional); the format is json or csv in
      any letter case; a CSV dump without a delimiter gets a comma. */
  function CheckDumpArgs(args: DumpArgs): (r: Result<DumpOptions>)
    ensures r == Err(MissingParams) <==> MissingDumpParam(args)
    ensures r == Err(UnsupportedOutputFormat) <==>
      !MissingDumpParam(args) && ToLowerAscii(args.fileFormat) != "json" && ToLowerAscii(args.fileFormat) != "csv"
    ensures r.Ok? ==> (r.value.format == Json <==> ToLowerAscii(args.fileFormat) == "json")
    ensures r.Ok? ==> (r.value.format == Csv <==> ToLowerAscii(args.fileFormat) == "csv")
    ensures r.Ok? && r.value.format == Csv ==>
      r.value.delimiter != "" && (args.delimiter != "" ==> r.value.delimiter == args.delimiter)
    ensures r.Ok? && r.value.format == Json ==> r.value.delimiter == args.delimiter
  {
    if MissingDumpParam(args) then Err(MissingParams)
    else
      var lower := ToLowerAscii(args.fileFormat);
      if lower == "json" then Ok(DumpOptions(Json, args.delimiter))
      else if lower == "csv" then Ok(DumpOptions(Csv, if args.delimiter == "" then "," else args.delimiter))
      else Err(UnsupportedOutputFormat)
  }

  /** The character the CSV writer separates fields with, for the delimiter
      argument as Dump passes it on: a comma when none was given, a tab for
      "tab", otherwise the first byte of the argument. */
  lemma CsvDelimiter(args: DumpArgs)
    requires CheckDumpArgs(args).Ok? && CheckDumpArgs(args).value.format == Csv
    ensures args.delimiter == "" ==> Comma(CheckDumpArgs(args).value.delimiter) == ','
    ensures args.delimiter == "tab" ==> Comma(CheckDumpArgs(args).value.delimiter) == '\t'
    ensures args.delimiter != "" && args.delimiter != "tab" ==>
      Comma(CheckDumpArgs(args).value.delimiter) as int == Utf8Encode(args.delimiter[0])[0]
  {
  }

  /** The reply to the query: the service's error list (only its length
      matters), the total row count, the first rows, the schema if any, and
      what is needed to ask for the next page. */
  datatype QueryResponse = QueryResponse(
    errors: nat, totalRows: nat, rows: seq<Row>, schema: Option<seq<TableField>>,
    pageToken: string, jobId: string)

  /** The reply to one getQueryResults request. */
  datatype ResultsPage = ResultsPage(errors: nat, rows: seq<Row>, pageToken: string)

  /** A getQueryResults request: job, page token and start index. */
  datatype PageRequest = PageRequest(jobId: string, pageToken: string, startIndex: nat)

  /** A query reply is usable when it carries no errors and has a schema;
      errors are checked first. */
  function CheckQuery(first: QueryResponse): (r: Result<seq<TableField>>)
    ensures r.Ok? <==> first.errors == 0 && first.schema.Some?
    ensures r.Ok? ==> r.value == first.schema.value
    ensures first.errors != 0 ==> r == Err(ErrorsReturned(first.errors))
    ensures first.errors == 0 && first.schema.None? ==> r == Err(NoSchema)
  {
    if first.errors != 0 then Err(ErrorsReturned(first.errors))
    else if first.schema.None? then Err(NoSchema)
    else Ok(first.schema.value)
  }

  /** The rows of a run of pages, in page order. */
  function RowsOf(pages: seq<ResultsPage>): seq<Row>
  {
    if pages == [] then [] else RowsOf(pages[..|pages| - 1]) + pages[|pages| - 1].rows
  }

  /** The pagination loop as a function of the page source: `pages` are the
      replies the service gives to successive requests, `k` the next one to
      ask for; a request past the end of `pages` fails.  Rows are gathered
      until as many as `total` have been retrieved; a page with errors aborts. */
  function Collect(total: nat, rows: seq<Row>, pages: seq<ResultsPage>, k: nat): (r: Result<seq<Row>>)
    requires k <= |pages|
    ensures r.Ok? ==> |r.value| == total
    decreases |pages| - k
  {
    if |rows| == total then Ok(rows)
    else if k == |pages| then Err(RequestFailed)
    else if pages[k].errors != 0 then Err(ErrorsReturned(pages[k].errors))
    else Collect(total, rows + pages[k].rows, pages, k + 1)
  }

  /** Pagination stops at the first page with errors and fails with that
      page's error count; the only other failure is a request that fails. */
  lemma {:induction false} CollectAborts(total: nat, rows: seq<Row>, pages: seq<ResultsPage>, k: nat)
    requires k <= |pages|
    ensures Collect(total, rows, pages, k).Err? ==>
      Collect(total, rows, pages, k) == Err(RequestFailed) ||
      exists j | k <= j < |pages| ::
        pages[j].errors != 0 && Collect(total, rows, pages, k) == Err(ErrorsReturned(pages[j].errors)) &&
        forall i | k <= i < j :: pages[i].errors == 0
    decreases |pages| - k
  {
    if |rows| != total && k < |pages| && pages[k].errors == 0 {
      CollectAborts(total, rows + pages[k].rows, pages, k + 1);
    }
  }

  /** A successful pagination stopped after page `m`: every page it read was
      free of errors, and the rows are the given ones followed by the rows of
      those pages. */
  lemma {:induction false} CollectOkReadsCleanPages(total: nat, rows: seq<Row>, pages: seq<ResultsPage>, k: nat)
    returns (m: nat)
    requires k <= |pages|
    ensures Collect(total, rows, pages, k).Ok? ==>
      k <= m <= |pages| && (forall i | k <= i < m :: pages[i].errors == 0) &&
      Collect(total, rows, pages, k) == Ok(rows + RowsOf(pages[k..m]))
    decreases |pages| - k
  {
    m := k;
    if |rows| == total {
      assert pages[k..k] == [] && rows + RowsOf([]) == rows;
    } else if k < |pages| && pages[k].errors == 0 {
      m := CollectOkReadsCleanPages(total, rows + pages[k].rows, pages, k + 1);
      if Collect(total, rows, pages, k).Ok? {
        var run := pages[k..m];
        RowsOfSplit(run, 1);
        assert run[..1] == [pages[k]] && [pages[k]][..0] == [];
        assert RowsOf(run[..1]) == pages[k].rows;
        assert run[1..] == pages[k + 1..m];
        assert rows + pages[k].rows + RowsOf(run[1..]) == rows + RowsOf(run);
      }
    }
  }

  /** The page token sent with the k-th follow-up request: the first reply's
      for the first request, then the token of the page just received. */
  function TokenBefore(first: QueryResponse, pages: seq<ResultsPage>, k: nat): string
    requires k <= |pages|
  {
    if k == 0 then first.pageToken else pages[k - 1].pageToken
  }

  lemma {:induction false} RowsOfSplit(pages: seq<ResultsPage>, k: nat)
    requires k <= |pages|
    ensures RowsOf(pages) == RowsOf(pages[..k]) + RowsOf(pages[k..])
    decreases |pages|
  {
    if k < |pages| {
      var n := |pages| - 1;
      assert pages[..n][..k] == pages[..k];
      RowsOfSplit(pages[..n], k);
      assert pages[k..][..|pages[k..]| - 1] == pages[..n][k..];
    } else {
      assert pages[..k] == pages;
      assert pages[k..] == [];
    }
  }

  /** When the pages carry no errors and hold exactly the rows the first reply
      says are missing, pagination succeeds with all of them, in order. */
  lemma {:induction false} CollectAll(total: nat, first: seq<Row>, pages: seq<ResultsPage>, k: nat)
    requires k <= |pages|
    requires forall j | 0 <= j < |pages| :: pages[j].errors == 0
    requires |first| + |RowsOf(pages)| == total
    ensures Collect(total, first + RowsOf(pages[..k]), pages, k) == Ok(first + RowsOf(pages))
    decreases |pages| - k
  {
    RowsOfSplit(pages, k);
    if |first + RowsOf(pages[..k])| == total {
      assert RowsOf(pages[k..]) == [];
      assert RowsOf(pages) == RowsOf(pages[..k]);
    } else {
      assert k < |pages|;
      assert pages[..k + 1][..k] == pages[..k];
      assert first + RowsOf(pages[..k]) + pages[k].rows == first + RowsOf(pages[..k + 1]);
      CollectAll(total, first, pages, k + 1);
    }
  }

  /** Dump's pagination invariant: when the follow-up pages carry no errors
      and hold the rows the first reply lacks, the rows handed to decoding
      are the first reply's rows followed by every page's rows, as many as
      the reported total. */
  lemma PaginationGathersAll(first: QueryResponse, pages: seq<ResultsPage>)
    requires forall j | 0 <= j < |pages| :: pages[j].errors == 0
    requires |first.rows| + |RowsOf(pages)| == first.totalRows
    ensures Collect(first.totalRows, first.rows, pages, 0) == Ok(first.rows + RowsOf(pages))
  {
    assert first.rows + RowsOf(pages[..0]) == first.rows;
    CollectAll(first.totalRows, first.rows, pages, 0);
  }

  /** The pagination loop of Dump.  While fewer rows than the reported total
      have been retrieved, it asks for the next page with the last token and
      the running row count as start index, stops on a page with errors, and
      appends the page's rows. */
  method FetchAllRows(first: QueryResponse, pages: seq<ResultsPage>)
    returns (r: Result<seq<Row>>, requests: seq<PageRequest>)
    ensures r == Collect(first.totalRows, first.rows, pages, 0)
    ensures |requests| <= |pages| + 1
    ensures forall k | 0 <= k < |requests| && k <= |pages| ::
      requests[k] == PageRequest(first.jobId, TokenBefore(first, pages, k), |first.rows| + |RowsOf(pages[..k])|)
    ensures r.Ok? ==> |requests| <= |pages| && r.value == first.rows + RowsOf(pages[..|requests|])
  {
    var total := first.totalRows;
    var retrieved := |first.rows|;
    var rows := first.rows;
    requests := [];
    if retrieved != total {
      var jobId := first.jobId;
      var token := first.pageToken;
      var k := 0;
      while total != retrieved
        invariant k <= |pages| && |requests| == k
        invariant retrieved == |rows|
        invariant rows == first.rows + RowsOf(pages[..k])
        invariant token == TokenBefore(first, pages, k)
        invariant Collect(total, rows, pages, k) == Collect(total, first.rows, pages, 0)
        invariant forall j | 0 <= j < k ::
          requests[j] == PageRequest(first.jobId, TokenBefore(first, pages, j), |first.rows| + |RowsOf(pages[..j])|)
        decreases |pages| - k
      {
        requests := requests + [PageRequest(jobId, token, retrieved)];
        if k == |pages| {
          r := Err(RequestFailed);
          return;
        }
        var page := pages[k];
        if page.errors != 0 {
          r := Err(ErrorsReturned(page.errors));
          return;
        }
        token := page.pageToken;
        assert pages[..k + 1][..k] == pages[..k];
        rows := rows + page.rows;
        retrieved := retrieved + |page.rows|;
        k := k + 1;
      }
    }
    r := Ok(rows);
  }

  /** What Dump hands to the writer: the records for JSON, or the field
      delimiter and the lines for CSV. */
  datatype DumpOutput = JsonOutput(records: seq<Record>) | CsvOutput(comma: char, lines: seq<seq<string>>)

  /** The inputs on which Dump does not panic: every row that reaches decoding
      fits the field list, and a CSV dump that reaches the writer has a first
      record to take the header from. */
  ghost predicate DumpPanicFree(args: DumpArgs, reply: Option<QueryResponse>, pages: seq<ResultsPage>, parseFloat: FloatParser)
  {
    CheckDumpArgs(args).Ok? && reply.Some? && CheckQuery(reply.value).Ok? &&
    Collect(reply.value.totalRows, reply.value.rows, pages, 0).Ok? ==>
      var fields := CheckQuery(reply.value).value;
      var rows := Collect(reply.value.totalRows, reply.value.rows, pages, 0).value;
      && (forall k | 0 <= k < |rows| :: |rows[k]| <= |fields|)
      && (CheckDumpArgs(args).value.format == Csv && DecodeRows(Flatten(fields), rows, parseFloat).Ok? ==> |rows| > 0)
  }

  /** Dump from the arguments to the writer's input, step by step in the
      source's order; each step's error is returned as it is, and a query call
      that fails (`reply` is `None`) fails the dump.  There are as many records
      as the query reported rows, and a CSV dump has one line per record plus
      the optional header. */
  ghost function DumpSpec(args: DumpArgs, reply: Option<QueryResponse>, pages: seq<ResultsPage>,
                          parseFloat: FloatParser, formatFloat: Float64 -> string): (r: Result<DumpOutput>)
    requires DumpPanicFree(args, reply, pages, parseFloat)
    ensures r.Ok? ==> CheckDumpArgs(args).Ok? && reply.Some? && CheckQuery(reply.value).Ok?
    ensures CheckDumpArgs(args).Ok? && reply.None? ==> r == Err(RequestFailed)
    ensures r.Ok? && r.value.JsonOutput? ==> |r.value.records| == reply.value.totalRows
    ensures r.Ok? && r.value.CsvOutput? ==>
      |r.value.lines| == reply.value.totalRows + (if args.printFields then 1 else 0)
  {
    match CheckDumpArgs(args)
    case Err(e) => Err(e)
    case Ok(opts) =>
      match reply
      case None => Err(RequestFailed)
      case Some(first) =>
        match CheckQuery(first)
        case Err(e) => Err(e)
        case Ok(fields) =>
          match Collect(first.totalRows, first.rows, pages, 0)
          case Err(e) => Err(e)
          case Ok(rows) =>
            match DecodeRows(Flatten(fields), rows, parseFloat)
            case Err(e) => Err(e)
            case Ok(records) =>
              if opts.format == Json then Ok(JsonOutput(records))
              else
                var header := SortedKeys(records[0].Keys);
                Ok(CsvOutput(Comma(opts.delimiter), CsvLines(header, records, args.printFields, formatFloat)))
  }

  /** Dump, with the services replaced by the query reply (`None` when the
      query call fails) and the page source, and the file writing replaced by
      its input. */
  method Dump(args: DumpArgs, reply: Option<QueryResponse>, pages: seq<ResultsPage>,
              parseFloat: FloatParser, formatFloat: Float64 -> string)
    returns (r: Result<DumpOutput>, requests: seq<PageRequest>)
    requires DumpPanicFree(args, reply, pages, parseFloat)
    ensures r == DumpSpec(args, reply, pages, parseFloat, formatFloat)
  {
    requests := [];
    var opts := CheckDumpArgs(args);
    if opts.Err? {
      return Err(opts.error), requests;
    }
    if reply.None? {
      return Err(RequestFailed), requests;
    }
    var first := reply.value;
    var fields := CheckQuery(first);
    if fields.Err? {
      return Err(fields.error), requests;
    }
    var rows;
    rows, requests := FetchAllRows(first, pages);
    if rows.Err? {
      return Err(rows.error), requests;
    }
    var records := ToRows(fields.value, rows.value, parseFloat);
    if records.Err? {
      return Err(records.error), requests;
    }
    if opts.value.format == Json {
      r := Ok(JsonOutput(records.value));
    } else {
      var header, lines := BuildCsvLines(records.value, args.printFields, formatFloat);
      r := Ok(CsvOutput(Comma(opts.value.delimiter), lines));
    }
  }
}
