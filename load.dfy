/** Load: the argument checks and source-format choice, the check of the
    project id the service echoes back, the classification of a polled job
    status, and the paged dataset search that ends in at most one create. */
module Loader {
  import opened Errors

  datatype SourceFormat = NewlineDelimitedJson | CsvSource

  /** The sourceFormat name written into the load job configuration. */
  function FormatName(f: SourceFormat): string
  {
    match f
    case NewlineDelimitedJson => "NEWLINE_DELIMITED_JSON"
    case CsvSource => "CSV"
  }

  function HasSuffix(s: string, suffix: string): bool
  {
    |suffix| <= |s| && s[|s| - |suffix|..] == suffix
  }

  lemma SuffixesExclusive(s: string)
    ensures !(HasSuffix(s, ".json") && HasSuffix(s, ".csv"))
  {
    if HasSuffix(s, ".json") {
      assert s[|s| - 5..][4] == 'n' == s[|s| - 1];
      assert |s| >= 4 && s[|s| - 4..][3] == 'n';
    }
  }

  /** The six arguments of Load that must not be empty (the proxy may be). */
  datatype LoadArgs = LoadArgs(
    projectId: string, datasetId: string, tableId: string,
    jwtFile: string, schemaFile: string, sourceFile: string)

  predicate MissingLoadParam(args: LoadArgs)
  {
    args.projectId == "" || args.datasetId == "" || args.tableId == "" ||
    args.jwtFile == "" || args.schemaFile == "" || args.sourceFile == ""
  }

  /** The checks at the head of Load: every argument present, then the source
      format taken from the file name's suffix (.json before .csv). */
  function CheckLoadArgs(args: LoadArgs): (r: Result<SourceFormat>)
    ensures r == Err(MissingParams) <==> MissingLoadParam(args)
    ensures r == Err(UnsupportedSourceFormat) <==>
      !MissingLoadParam(args) && !HasSuffix(args.sourceFile, ".json") && !HasSuffix(args.sourceFile, ".csv")
    ensures r == Ok(NewlineDelimitedJson) <==> !MissingLoadParam(args) && HasSuffix(args.sourceFile, ".json")
    ensures r == Ok(CsvSource) <==> !MissingLoadParam(args) && HasSuffix(args.sourceFile, ".csv")
    ensures r.Ok? ==> FormatName(r.value) == if HasSuffix(args.sourceFile, ".json") then "NEWLINE_DELIMITED_JSON" else "CSV"
  {
    SuffixesExclusive(args.sourceFile);
    if MissingLoadParam(args) then Err(MissingParams)
    else if HasSuffix(args.sourceFile, ".json") then Ok(NewlineDelimitedJson)
    else if HasSuffix(args.sourceFile, ".csv") then Ok(CsvSource)
    else Err(UnsupportedSourceFormat)
  }

  /** The consistency check on the job reference the upload returns: its
      project id must be the one the load was started for. */
  function CheckJobProject(returned: string, configured: string): (r: Result<string>)
    ensures r.Ok? <==> returned == configured
    ensures r.Err? ==> r.error == ProjectMismatch(returned, configured)
  {
    if returned != configured then Err(ProjectMismatch(returned, configured)) else Ok(returned)
  }

  /** A polled job status: the length of its error list and its state. */
  datatype JobStatus = JobStatus(errors: nat, state: string)

  /** jobDone: Ok(true) when the job is done, Ok(false) while it is pending or
      running, an error otherwise.  `reply` is the answer to the job status
      call, `None` when the call itself fails.  Errors attached to the status
      win over any state, DONE included. */
  function JobDone(reply: Option<JobStatus>): (r: Result<bool>)
    ensures r == Err(RequestFailed) <==> reply.None?
    ensures r == Ok(true) <==> reply.Some? && reply.value.errors == 0 && reply.value.state == "DONE"
    ensures r == Ok(false) <==> reply.Some? && reply.value.errors == 0 && reply.value.state in {"PENDING", "RUNNING"}
    ensures reply.Some? && reply.value.errors != 0 ==> r == Err(ErrorsReturned(reply.value.errors))
    ensures reply.Some? && reply.value.errors == 0 && reply.value.state !in {"PENDING", "RUNNING", "DONE"} ==>
      r == Err(UnknownJobStatus(reply.value.state))
  {
    match reply
    case None => Err(RequestFailed)
    case Some(status) =>
      if status.errors != 0 then Err(ErrorsReturned(status.errors))
      else if status.state == "PENDING" || status.state == "RUNNING" then Ok(false)
      else if status.state == "DONE" then Ok(true)
      else Err(UnknownJobStatus(status.state))
  }

  /** One reply of the dataset list call: the dataset ids on the page and the
      token of the next page ("" on the last page). */
  datatype DatasetPage = DatasetPage(datasetIds: seq<string>, nextPageToken: string)

  /** What the dataset search decides: the dataset is there, or it must be
      created (one insert call follows). */
  datatype EnsureAction = AlreadyExists | Create

  /** The dataset search as a function of the page source: `pages[k]` is the
      reply to the k-th list call, a call past the end fails.  The search stops
      at the first page naming the dataset; after a last page without it the
      dataset is created. */
  function EnsureDataset(pages: seq<DatasetPage>, datasetId: string, k: nat): (r: Result<EnsureAction>)
    requires k <= |pages|
    ensures r.Err? ==> r.error == RequestFailed
    ensures r == Ok(AlreadyExists) ==> exists n | k <= n < |pages| :: datasetId in pages[n].datasetIds
    ensures r == Ok(Create) ==>
      exists n | k <= n < |pages| :: pages[n].nextPageToken == "" && datasetId !in pages[n].datasetIds
    decreases |pages| - k
  {
    if k == |pages| then Err(RequestFailed)
    else if datasetId in pages[k].datasetIds then Ok(AlreadyExists)
    else if pages[k].nextPageToken == "" then Ok(Create)
    else EnsureDataset(pages, datasetId, k + 1)
  }

  /** A create is decided exactly when the chain of listed pages ends and none
      of its pages names the dataset. */
  lemma {:induction false} EnsureDatasetCreate(pages: seq<DatasetPage>, datasetId: string, k: nat)
    requires k <= |pages|
    ensures EnsureDataset(pages, datasetId, k) == Ok(Create) <==>
      exists n | k < n <= |pages| :: ChainFrom(pages, k, n) && forall j | k <= j < n :: datasetId !in pages[j].datasetIds
    decreases |pages| - k
  {
    if k < |pages| && datasetId !in pages[k].datasetIds && pages[k].nextPageToken != "" {
      EnsureDatasetCreate(pages, datasetId, k + 1);
      if EnsureDataset(pages, datasetId, k) == Ok(Create) {
        var n :| k + 1 < n <= |pages| && ChainFrom(pages, k + 1, n) && forall j | k + 1 <= j < n :: datasetId !in pages[j].datasetIds;
        assert ChainFrom(pages, k, n);
      }
      if exists n | k < n <= |pages| :: ChainFrom(pages, k, n) && forall j | k <= j < n :: datasetId !in pages[j].datasetIds {
        var n :| k < n <= |pages| && ChainFrom(pages, k, n) && forall j | k <= j < n :: datasetId !in pages[j].datasetIds;
        assert n != k + 1;
        assert ChainFrom(pages, k + 1, n);
      }
    } else if k < |pages| && datasetId !in pages[k].datasetIds {
      assert ChainFrom(pages, k, k + 1);
    }
  }

  /** The dataset is found exactly when a page of the chain names it, every
      page before it pointing to a next one. */
  lemma {:induction false} EnsureDatasetFound(pages: seq<DatasetPage>, datasetId: string, k: nat)
    requires k <= |pages|
    ensures EnsureDataset(pages, datasetId, k) == Ok(AlreadyExists) <==>
      exists n | k <= n < |pages| :: datasetId in pages[n].datasetIds &&
        forall j | k <= j < n :: pages[j].nextPageToken != "" && datasetId !in pages[j].datasetIds
    decreases |pages| - k
  {
    if k < |pages| && datasetId !in pages[k].datasetIds && pages[k].nextPageToken != "" {
      EnsureDatasetFound(pages, datasetId, k + 1);
      if EnsureDataset(pages, datasetId, k) == Ok(AlreadyExists) {
        var n :| k + 1 <= n < |pages| && datasetId in pages[n].datasetIds &&
          forall j | k + 1 <= j < n :: pages[j].nextPageToken != "" && datasetId !in pages[j].datasetIds;
        assert forall j | k <= j < n :: pages[j].nextPageToken != "" && datasetId !in pages[j].datasetIds;
      }
    }
  }

  /** The replies pages[k..n] form a chain: every one but the last carries a
      next-page token and the last carries none. */
  predicate ChainFrom(pages: seq<DatasetPage>, k: nat, n: nat)
  {
    k < n <= |pages| && pages[n - 1].nextPageToken == "" &&
    forall j | k <= j < n - 1 :: pages[j].nextPageToken != ""
  }

  /** datasetCreateIfNotExists: scan the first listing, then follow next-page
      tokens while there are any, returning as soon as a page names the
      dataset; otherwise decide to create it.  Also returns how many list
      calls were made. */
  method EnsureDatasetExists(pages: seq<DatasetPage>, datasetId: string)
    returns (r: Result<EnsureAction>, listCalls: nat)
    ensures r == EnsureDataset(pages, datasetId, 0)
    ensures listCalls <= |pages| + 1
    ensures r.Ok? ==> 1 <= listCalls <= |pages| && (r.value == AlreadyExists ==> datasetId in pages[listCalls - 1].datasetIds)
  {
    listCalls := 1;
    if |pages| == 0 {
      return Err(RequestFailed), listCalls;
    }
    var res := pages[0];
    var found := Contains(res.datasetIds, datasetId);
    if found {
      return Ok(AlreadyExists), listCalls;
    }
    var token := res.nextPageToken;
    var k := 1;
    while token != ""
      invariant 1 <= k <= |pages| && listCalls == k
      invariant token == pages[k - 1].nextPageToken
      invariant datasetId !in pages[k - 1].datasetIds
      invariant EnsureDataset(pages, datasetId, k - 1) == EnsureDataset(pages, datasetId, 0)
      decreases |pages| - k
    {
      listCalls := listCalls + 1;
      if k == |pages| {
        return Err(RequestFailed), listCalls;
      }
      res := pages[k];
      found := Contains(res.datasetIds, datasetId);
      if found {
        return Ok(AlreadyExists), listCalls;
      }
      token := res.nextPageToken;
      k := k + 1;
    }
    r := Ok(Create);
  }

  /** The scan of one listing for the dataset id. */
  method Contains(ids: seq<string>, id: string) returns (found: bool)
    ensures found <==> id in ids
  {
    for i := 0 to |ids|
      invariant id !in ids[..i]
    {
      if ids[i] == id {
        return true;
      }
    }
    return false;
  }
}
