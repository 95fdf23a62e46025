/** The page fetcher: one request per page against the fixed product-variant query,
    a fixed sleep-and-retry on throttling, a stop on any other error or on a body
    without data, and forward pagination by the cursor of a page's last edge.

    The network is abstracted: the loop is fed a finite sequence of decoded responses
    and consumes one per request. The sleep is a counter, and the variables sent with
    each request are recorded in a ghost log. */
module Fetch {
  import opened Shopify
  import opened Records

  /** The error code on which a request is retried. */
  const Throttled: string := "THROTTLED"

  /** The request variables: empty for the first page, otherwise one cursor. */
  datatype Variables = NoCursor | Cursor(cursor: string)

  /** Why the loop ended: the last page was read, the API reported an error other than
      throttling, a body had neither errors nor data, or (in the model only) the
      supplied responses ran out while more pages were expected. */
  datatype Stop = Finished | ApiError(errors: seq<ErrorEntry>) | Unexpected | OutOfResponses

  /** What one response tells the loop to do. */
  datatype Action = Retry | Accept(page: Page) | Halt(reason: Stop)

  /** `extensions.code` of an error entry, the empty string when absent. */
  function ErrorCode(e: ErrorEntry): string
  {
    match e.code
    case Some(c) => c
    case None => ""
  }

  /** A response the loop can inspect without failing: an `errors` list is not empty
      (its first entry is read) and, when no errors are reported, a page announcing a
      next page has at least one edge (its last cursor is read). */
  predicate WellFormed(r: Response)
  {
    && (r.errors.Some? ==> |r.errors.value| > 0)
    && (r.errors.None? && r.data.Some? && r.data.value.hasNextPage ==> |r.data.value.edges| > 0)
  }

  predicate AllWellFormed(rs: seq<Response>)
  {
    forall k | 0 <= k < |rs| :: WellFormed(rs[k])
  }

  /** The classification of one response: errors are looked at first, then data. */
  function Verdict(r: Response): Action
    requires WellFormed(r)
  {
    match r.errors
    case Some(es) =>
      if ErrorCode(es[0]) == Throttled then Retry else Halt(ApiError(es))
    case None =>
      match r.data
      case None => Halt(Unexpected)
      case Some(page) => Accept(page)
  }

  /** A response after which no further request is sent. */
  predicate Final(r: Response)
    requires WellFormed(r)
  {
    match Verdict(r)
    case Retry => false
    case Accept(page) => !page.hasNextPage
    case Halt(_) => true
  }

  /** How the loop ends on a final response. */
  function EndOf(r: Response): Stop
    requires WellFormed(r) && Final(r)
  {
    match Verdict(r)
    case Halt(reason) => reason
    case _ => Finished
  }

  // ---------------------------------------------------------------------------
  // The state of the loop after a given sequence of responses has been consumed

  /** The loop's state: the variables of the next request, the records accumulated,
      the number of sleeps, and the variables sent with each request so far. */
  datatype Progress = Progress(
    variables: Variables,
    records: seq<Record>,
    sleeps: nat,
    sent: seq<Variables>)

  /** Before the first request: empty variables, no records, no sleep, nothing sent. */
  const Start: Progress := Progress(NoCursor, [], 0, [])

  /** One pass of the loop body: the request is sent with the current variables and
      its response `r` is handled. */
  function Step(p: Progress, r: Response): Progress
    requires WellFormed(r)
  {
    var q := p.(sent := p.sent + [p.variables]);
    match Verdict(r)
    case Retry => q.(sleeps := p.sleeps + 1)
    case Halt(_) => q
    case Accept(page) =>
      q.(records := p.records + PageRecords(page.edges),
         variables := if page.hasNextPage then Cursor(page.edges[|page.edges| - 1].cursor)
                      else p.variables)
  }

  /** How a run ends: the state after the last request and the reason the loop stopped. */
  datatype Outcome = Outcome(last: Progress, stop: Stop)

  /** The loop run from state `p` on the responses `rs`, one pass per response, until a
      final response or the end of `rs`. */
  function Run(p: Progress, rs: seq<Response>): Outcome
    requires AllWellFormed(rs)
    decreases |rs|
  {
    if rs == [] then Outcome(p, OutOfResponses)
    else
      var q := Step(p, rs[0]);
      if Final(rs[0]) then Outcome(q, EndOf(rs[0])) else Run(q, rs[1..])
  }

  /** Running from position `i` is one pass on `rs[i]`, then the rest of the run. */
  lemma RunFrom(p: Progress, rs: seq<Response>, i: nat)
    requires AllWellFormed(rs) && i < |rs|
    ensures Run(p, rs[i..]) ==
      if Final(rs[i]) then Outcome(Step(p, rs[i]), EndOf(rs[i]))
      else Run(Step(p, rs[i]), rs[i + 1..])
  {
    assert rs[i..][0] == rs[i];
    assert rs[i..][1..] == rs[i + 1..];
  }

  // ---------------------------------------------------------------------------
  // One response

  /** A throttled response sends the same variables again after one more sleep and
      keeps no records. */
  lemma ThrottleRetries(p: Progress, r: Response)
    requires WellFormed(r) && r.errors.Some? && ErrorCode(r.errors.value[0]) == Throttled
    ensures !Final(r)
    ensures Step(p, r) == Progress(p.variables, p.records, p.sleeps + 1, p.sent + [p.variables])
  {
  }

  /** Any other error ends the loop with that error list and the records read so far. */
  lemma OtherErrorStops(p: Progress, r: Response)
    requires WellFormed(r) && r.errors.Some? && ErrorCode(r.errors.value[0]) != Throttled
    ensures Final(r) && EndOf(r) == ApiError(r.errors.value)
    ensures Step(p, r) == p.(sent := p.sent + [p.variables])
  {
  }

  /** An error entry without a code is never taken for throttling. */
  lemma MissingCodeStops(p: Progress, r: Response)
    requires WellFormed(r) && r.errors.Some? && r.errors.value[0].code.None?
    ensures Final(r) && EndOf(r) == ApiError(r.errors.value)
    ensures Step(p, r).records == p.records
  {
    OtherErrorStops(p, r);
  }

  /** Errors are looked at before data: when errors are reported, the data is ignored. */
  lemma ErrorsBeforeData(es: seq<ErrorEntry>, d1: Option<Page>, d2: Option<Page>)
    requires |es| > 0
    ensures Verdict(Response(Some(es), d1)) == Verdict(Response(Some(es), d2))
    ensures !Verdict(Response(Some(es), d1)).Accept?
  {
  }

  /** A body with neither errors nor data ends the loop with the records read so far. */
  lemma NoDataStops(p: Progress, r: Response)
    requires r.errors.None? && r.data.None?
    ensures WellFormed(r) && Final(r) && EndOf(r) == Unexpected
    ensures Step(p, r) == p.(sent := p.sent + [p.variables])
  {
  }

  /** A page appends one record per edge, in edge order; when it announces a next page,
      the next request carries the cursor of its last edge, otherwise the loop ends. */
  lemma PageAccepted(p: Progress, r: Response)
    requires WellFormed(r) && r.errors.None? && r.data.Some?
    ensures var page := r.data.value;
      && (Final(r) <==> !page.hasNextPage)
      && (Final(r) ==> EndOf(r) == Finished)
      && Step(p, r).records == p.records + PageRecords(page.edges)
      && Step(p, r).sleeps == p.sleeps
      && Step(p, r).variables ==
           if page.hasNextPage then Cursor(page.edges[|page.edges| - 1].cursor) else p.variables
  {
  }

  // ---------------------------------------------------------------------------
  // The loop

  /** The inner loop of `fetch_query`: appends the record of each edge of a page, in
      edge order, to the records accumulated so far. */
  method AppendPage(records: seq<Record>, edges: seq<Edge>) returns (out: seq<Record>)
    ensures out == records + PageRecords(edges)
  {
    out := records;
    for j := 0 to |edges|
      invariant out == records + PageRecords(edges[..j])
    {
      assert edges[..j + 1][..j] == edges[..j];
      out := out + [MakeRecord(edges[j].node)];
    }
    assert edges[..|edges|] == edges;
  }

  /** `fetch_query`: requests pages until one says there is no next page, retrying a
      throttled request after a sleep and stopping on any other error or on a body
      without data; returns the records of the accepted pages in order. */
  method FetchQuery(responses: seq<Response>)
    returns (records: seq<Record>, sleeps: nat, stop: Stop, ghost sent: seq<Variables>)
    requires AllWellFormed(responses)
    ensures records == Run(Start, responses).last.records
    ensures sleeps == Run(Start, responses).last.sleeps
    ensures stop == Run(Start, responses).stop
    ensures sent == Run(Start, responses).last.sent
  {
    records, sleeps, stop, sent := [], 0, Finished, [];
    var hasNextPage := true;
    var variables := NoCursor;
    var i := 0;
    while hasNextPage
      invariant 0 <= i <= |responses|
      invariant hasNextPage ==>
        Run(Progress(variables, records, sleeps, sent), responses[i..]) == Run(Start, responses)
      invariant !hasNextPage ==>
        Outcome(Progress(variables, records, sleeps, sent), stop) == Run(Start, responses)
      decreases |responses| - i
    {
      if i == |responses| {
        stop := OutOfResponses;
        break;
      }
      var response := responses[i];
      ghost var before := Progress(variables, records, sleeps, sent);
      RunFrom(before, responses, i);
      sent := sent + [variables];
      i := i + 1;

      if response.errors.Some? {
        var errorCode := ErrorCode(response.errors.value[0]);
        if errorCode == Throttled {
          ThrottleRetries(before, response);
          sleeps := sleeps + 1;
          continue;
        } else {
          OtherErrorStops(before, response);
          stop := ApiError(response.errors.value);
          break;
        }
      }

      if response.data.None? {
        NoDataStops(before, response);
        stop := Unexpected;
        break;
      }

      var page := response.data.value;
      PageAccepted(before, response);
      records := AppendPage(records, page.edges);

      hasNextPage := page.hasNextPage;
      if hasNextPage {
        variables := Cursor(page.edges[|page.edges| - 1].cursor);
      } else {
        stop := Finished;
      }
    }
  }
}
