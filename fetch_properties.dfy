/** What the page fetcher promises, stated about one pass of its loop and about whole
    runs of it. */
module FetchProperties {
  import opened Shopify
  import opened Records
  import opened Fetch

  // ---------------------------------------------------------------------------
  // Whole runs

  /** The state only grows: records and the request log are only appended to and sleeps
      only counted up. At most one request is sent per response supplied, and at least
      one when any is supplied; the first carries the variables the run started with. */
  lemma {:induction false} RunExtends(p: Progress, rs: seq<Response>)
    requires AllWellFormed(rs)
    ensures var last := Run(p, rs).last;
      && p.records <= last.records
      && p.sent <= last.sent
      && p.sleeps <= last.sleeps
      && |last.sent| <= |p.sent| + |rs|
      && (rs != [] ==> |p.sent| < |last.sent| && last.sent[|p.sent|] == p.variables)
    decreases |rs|
  {
    if rs != [] {
      var q := Step(p, rs[0]);
      assert q.sent == p.sent + [p.variables];
      if !Final(rs[0]) {
        RunExtends(q, rs[1..]);
      }
    }
  }

  /** The first request of the fetch is sent without a cursor. */
  lemma FirstRequestWithoutCursor(rs: seq<Response>)
    requires AllWellFormed(rs) && rs != []
    ensures |Run(Start, rs).last.sent| > 0 && Run(Start, rs).last.sent[0] == NoCursor
  {
    RunExtends(Start, rs);
  }

  /** After a throttled response the very same request is sent again. */
  lemma ThrottleRepeatsRequest(p: Progress, rs: seq<Response>)
    requires AllWellFormed(rs) && |rs| >= 2
    requires rs[0].errors.Some? && ErrorCode(rs[0].errors.value[0]) == Throttled
    ensures var sent := Run(p, rs).last.sent;
      |p.sent| + 1 < |sent| && sent[|p.sent|] == sent[|p.sent| + 1] == p.variables
  {
    ThrottleRetries(p, rs[0]);
    RunExtends(p, rs);
    RunExtends(Step(p, rs[0]), rs[1..]);
  }

  /** After a page announcing a next page, the next request carries the cursor of that
      page's last edge. */
  lemma NextRequestUsesLastCursor(p: Progress, rs: seq<Response>)
    requires AllWellFormed(rs) && |rs| >= 2
    requires rs[0].errors.None? && rs[0].data.Some? && rs[0].data.value.hasNextPage
    ensures var edges := rs[0].data.value.edges;
      var sent := Run(p, rs).last.sent;
      |p.sent| + 1 < |sent| && sent[|p.sent| + 1] == Cursor(edges[|edges| - 1].cursor)
  {
    PageAccepted(p, rs[0]);
    RunExtends(p, rs);
    RunExtends(Step(p, rs[0]), rs[1..]);
  }

  /** The edges a response contributes: those of its page when it is accepted. */
  function PageEdges(r: Response): seq<Edge>
    requires WellFormed(r)
  {
    match Verdict(r)
    case Accept(page) => page.edges
    case _ => []
  }

  /** One pass adds the records of the edges the response contributes and one sleep
      exactly when the response is throttled. */
  lemma StepGrowth(p: Progress, r: Response)
    requires WellFormed(r)
    ensures Step(p, r).records == p.records + PageRecords(PageEdges(r))
    ensures Step(p, r).sleeps == p.sleeps + if Verdict(r) == Retry then 1 else 0
  {
  }

  /** The edges of the pages a run reads, page after page, each in its own order. */
  function EdgesRead(rs: seq<Response>): seq<Edge>
    requires AllWellFormed(rs)
    decreases |rs|
  {
    if rs == [] then []
    else PageEdges(rs[0]) + if Final(rs[0]) then [] else EdgesRead(rs[1..])
  }

  /** The number of throttled responses a run reads. */
  function ThrottlesRead(rs: seq<Response>): nat
    requires AllWellFormed(rs)
    decreases |rs|
  {
    if rs == [] then 0
    else (if Verdict(rs[0]) == Retry then 1 else 0)
         + if Final(rs[0]) then 0 else ThrottlesRead(rs[1..])
  }

  /** A run adds exactly one record per edge of the pages it reads, in order. */
  lemma {:induction false} RunRecords(p: Progress, rs: seq<Response>)
    requires AllWellFormed(rs)
    ensures Run(p, rs).last.records == p.records + PageRecords(EdgesRead(rs))
    decreases |rs|
  {
    if rs != [] {
      var q := Step(p, rs[0]);
      StepGrowth(p, rs[0]);
      if Final(rs[0]) {
        assert EdgesRead(rs) == PageEdges(rs[0]) + [];
        assert PageEdges(rs[0]) + [] == PageEdges(rs[0]);
      } else {
        var rest := rs[1..];
        assert Run(p, rs) == Run(q, rest);
        assert EdgesRead(rs) == PageEdges(rs[0]) + EdgesRead(rest);
        RunRecords(q, rest);
        RecordsCompose(p.records, q.records, Run(q, rest).last.records,
                       PageEdges(rs[0]), EdgesRead(rest));
      }
    }
  }

  /** Appending the records of one run of edges and then those of the next is appending
      the records of both runs. */
  lemma RecordsCompose(start: seq<Record>, middle: seq<Record>, end: seq<Record>,
                       first: seq<Edge>, second: seq<Edge>)
    requires middle == start + PageRecords(first)
    requires end == middle + PageRecords(second)
    ensures end == start + PageRecords(first + second)
  {
    PageRecordsAppend(first, second);
  }

  /** A run sleeps exactly once per throttled response it reads. */
  lemma {:induction false} RunSleeps(p: Progress, rs: seq<Response>)
    requires AllWellFormed(rs)
    ensures Run(p, rs).last.sleeps == p.sleeps + ThrottlesRead(rs)
    decreases |rs|
  {
    if rs != [] {
      StepGrowth(p, rs[0]);
      if !Final(rs[0]) {
        RunSleeps(Step(p, rs[0]), rs[1..]);
      }
    }
  }

  /** The loop stops right after the first final response: one request per response up
      to and including it, and the stop reason that response gives. */
  lemma {:induction false} RunStopsAtFirstFinal(p: Progress, rs: seq<Response>, n: nat)
    requires AllWellFormed(rs) && n < |rs| && Final(rs[n])
    requires forall k | 0 <= k < n :: !Final(rs[k])
    ensures |Run(p, rs).last.sent| == |p.sent| + n + 1
    ensures Run(p, rs).stop == EndOf(rs[n])
    decreases n
  {
    if n > 0 {
      assert !Final(rs[0]);
      var rest := rs[1..];
      assert forall k | 0 <= k < n - 1 :: !Final(rest[k]) by {
        forall k | 0 <= k < n - 1 ensures !Final(rest[k]) {
          assert rest[k] == rs[k + 1];
        }
      }
      RunStopsAtFirstFinal(Step(p, rs[0]), rest, n - 1);
    }
  }

  /** Without a final response the loop asks for one page per response it is given and
      runs out of them. */
  lemma {:induction false} RunConsumesAll(p: Progress, rs: seq<Response>)
    requires AllWellFormed(rs)
    requires forall k | 0 <= k < |rs| :: !Final(rs[k])
    ensures |Run(p, rs).last.sent| == |p.sent| + |rs|
    ensures Run(p, rs).stop == OutOfResponses
    decreases |rs|
  {
    if rs != [] {
      assert !Final(rs[0]);
      var rest := rs[1..];
      assert forall k | 0 <= k < |rest| :: !Final(rest[k]) by {
        forall k | 0 <= k < |rest| ensures !Final(rest[k]) {
          assert rest[k] == rs[k + 1];
        }
      }
      RunConsumesAll(Step(p, rs[0]), rest);
    }
  }

  // ---------------------------------------------------------------------------
  // Two runs written out

  /** A throttled answer as the API sends it. */
  const ThrottledResponse: Response := Response(Some([ErrorEntry(Some(Throttled))]), None)

  /** Throttled twice, then the only page: three identical requests, two sleeps, and the
      records of that page. */
  lemma ThrottledTwiceThenOnePage(page: Page)
    requires !page.hasNextPage
    ensures var rs := [ThrottledResponse, ThrottledResponse, Response(None, Some(page))];
      AllWellFormed(rs) &&
      var o := Run(Start, rs);
      && o.last.sent == [NoCursor, NoCursor, NoCursor]
      && o.last.sleeps == 2
      && o.last.records == PageRecords(page.edges)
      && o.stop == Finished
  {
    var rs := [ThrottledResponse, ThrottledResponse, Response(None, Some(page))];
    assert AllWellFormed(rs);
    assert rs[1..] == [ThrottledResponse, Response(None, Some(page))];
    assert rs[1..][1..] == [Response(None, Some(page))];
    var p1 := Progress(NoCursor, [], 1, [NoCursor]);
    var p2 := Progress(NoCursor, [], 2, [NoCursor, NoCursor]);
    assert ErrorCode(ThrottledResponse.errors.value[0]) == Throttled;
    ThrottleRetries(Start, ThrottledResponse);
    ThrottleRetries(p1, ThrottledResponse);
    assert Start.sent + [NoCursor] == p1.sent;
    assert Step(Start, rs[0]) == p1;
    assert Run(Start, rs) == Run(p1, rs[1..]);
    assert Run(p1, rs[1..]) == Run(p2, rs[1..][1..]);
  }

  /** Two pages: the second request carries the cursor of the first page's last edge
      and the records of both pages follow one another. */
  lemma TwoPages(a: Edge, b: Edge, c: Edge, second: Page)
    requires !second.hasNextPage
    ensures var rs := [Response(None, Some(Page(true, [a, b, c]))), Response(None, Some(second))];
      AllWellFormed(rs) &&
      var o := Run(Start, rs);
      && o.last.sent == [NoCursor, Cursor(c.cursor)]
      && o.last.records == PageRecords([a, b, c] + second.edges)
      && o.stop == Finished
  {
    var rs := [Response(None, Some(Page(true, [a, b, c]))), Response(None, Some(second))];
    assert AllWellFormed(rs);
    assert rs[1..] == [Response(None, Some(second))];
    var p1 := Progress(Cursor(c.cursor), PageRecords([a, b, c]), 0, [NoCursor]);
    assert Run(Start, rs) == Run(p1, rs[1..]);
    PageRecordsAppend([a, b, c], second.edges);
  }

  /** A fetch whose first answer is an error other than throttling returns no records:
      an input on which the sink has no first record to take its header from. */
  lemma FirstErrorReturnsNothing(es: seq<ErrorEntry>, data: Option<Page>, rest: seq<Response>)
    requires |es| > 0 && ErrorCode(es[0]) != Throttled && AllWellFormed(rest)
    ensures var rs := [Response(Some(es), data)] + rest;
      AllWellFormed(rs) &&
      var o := Run(Start, rs);
      o.last.records == [] && o.last.sent == [NoCursor] && o.stop == ApiError(es)
  {
    var r := Response(Some(es), data);
    var rs := [r] + rest;
    assert rs[0] == r;
    OtherErrorStops(Start, r);
  }
}
