# api_to_csv in Dafny

This project models the core of `api_to_csv.py`. The script pages through the product
variants of a Shopify store with one GraphQL query and writes them to a CSV file. The
model covers three parts of it:

- **The page fetcher** (`fetch_query`). One request is sent per page. A response is
  classified by looking at `errors` first and `data` second:
  - a first error whose code is `THROTTLED` causes a sleep and the same request again;
  - any other error ends the run with the records read so far;
  - a body without `data` does the same;
  - otherwise one record per edge is appended, and, when `hasNextPage` holds, the next
    request carries the cursor of the page's last edge.
- **The record** built for each variant: ten columns in a fixed order. Nine values are
  copied unchanged; the inventory item id is cut down to the text after its last `/`.
- **The CSV sink** (`save_to_csv`). The header is the key list of the first record, so
  the input must not be empty. Each record is written as one line of cells in header
  order.

The network is replaced by a finite sequence of decoded responses, one per request.
The ten-second sleep is a counter. The variables sent with each request are kept in a
ghost log, so the retry and cursor behaviour can be stated.

The modules are:

- `Shopify` (`shopify.dfy`): the decoded response shape.
- `PathSegment` (`path_segment.dfy`): the inventory id suffix. It also holds an
  independent definition of Python's `str.split('/')`.
- `Records` (`records.dfy`): the flat record and the records of one page.
- `Fetch` (`fetch.dfy`): the loop.
  - `Step` is one pass of the loop body.
  - `Run` is the loop from a given state over a sequence of responses.
  - `FetchQuery` is the imperative loop, proved to end in the state `Run` gives.
- `FetchProperties` (`fetch_properties.dfy`): what whole runs do.
- `CsvSink` (`csv_sink.dfy`): the header and the rows.

Two points of the model's interface:

- The source tests `errors` before `data`, and a body may carry both keys. `Response`
  therefore holds both as options, and `ErrorsBeforeData` states the precedence.
- `FetchQuery` returns the sleep count and a `Stop` reason besides the records. The source
  returns only the records (line 159) and reports the reason only by printing (lines 122,
  126); in every case the source has, the records are the same. The `OutOfResponses`
  stop has no counterpart in the source (see "## Left out").

## Model

| member | source | states |
|---|---|---|
| PathSegment.LastSegment | api_to_csv.py:140 | computes the stored id, the text after the last '/' of the id path; its contract is stated by `LastSegmentAfterLastSlash` and `LastSegmentIsLastPiece` |
| PathSegment.LastSegmentAfterLastSlash | api_to_csv.py:140 | the stored id is a suffix of the id path, contains no '/', and is either the whole path or starts right after a '/' |
| PathSegment.AfterLastSlashUnique | api_to_csv.py:140 | exactly one suffix has those properties, so the stored id is fully determined by them |
| PathSegment.NoSlashKeepsAll | api_to_csv.py:140 | a path without '/' is stored whole |
| PathSegment.TrailingSlashGivesEmpty | api_to_csv.py:140 | a path ending in '/' yields the empty id |
| PathSegment.GlobalIdExample | api_to_csv.py:139-140 | `gid://shop/InventoryItem/987` yields `987` |
| PathSegment.Split | api_to_csv.py:140 | `split('/')` gives at least one piece, no piece holds a '/', and joining the pieces with '/' gives back the input |
| PathSegment.LastOfJoin | api_to_csv.py:140 | the last piece of a '/'-join of '/'-free pieces is the text after the join's last '/' |
| PathSegment.LastSegmentIsLastPiece | api_to_csv.py:140 | the stored id equals `split('/')[-1]` for every input |
| Records.RecordKeys | api_to_csv.py:141-152 | every record has the ten keys sku, inventory_item_id, price, variant_title, product_type, vendor, created_at, updated_at, barcode, product_title, in that order |
| Records.MakeRecord | api_to_csv.py:138-152 | builds the record of one variant; its contract is stated by `RecordColumns` |
| Records.RecordColumns | api_to_csv.py:138-152 | the record of a variant has those keys; its values are the variant's sku, cut-down id, price, title, the product's type, vendor, creation and update times, the barcode and the product title, in that order |
| Records.PageRecords | api_to_csv.py:137-152 | a page yields exactly as many records as it has edges |
| Records.PageRecordsOnePerEdge | api_to_csv.py:137-152 | the k-th record of a page is the record of its k-th edge |
| Records.PageRecordsAppend | api_to_csv.py:137-152 | the records of two consecutive edge runs are the records of the first followed by those of the second |
| Fetch.ErrorCode | api_to_csv.py:115 | the first error's code, the empty string when it has none; `MissingCodeStops` states that such an entry is not taken for throttling |
| Fetch.Verdict | api_to_csv.py:114-127 | classifies a response, errors first, then data; its contract is stated by `ThrottleRetries`, `OtherErrorStops`, `ErrorsBeforeData`, `NoDataStops` and `PageAccepted` |
| Fetch.Step | api_to_csv.py:111-157 | one pass of the loop body; its contract is stated by `ThrottleRetries`, `OtherErrorStops`, `NoDataStops`, `PageAccepted` and `StepGrowth` |
| Fetch.Run | api_to_csv.py:110-159 | the loop from a given state over the responses supplied; its contract is stated by `RunExtends`, `RunRecords`, `RunSleeps`, `RunStopsAtFirstFinal` and `RunConsumesAll`, and `FetchQuery` is proved to end in its state |
| Fetch.ThrottleRetries | api_to_csv.py:114-120 | a throttled response does not end the loop; it adds one sleep and logs the request, and keeps the variables and records unchanged |
| Fetch.OtherErrorStops | api_to_csv.py:114-123 | any other first error code ends the loop with that error list; the records and variables are kept unchanged |
| Fetch.MissingCodeStops | api_to_csv.py:115-123 | an error entry without a code is not taken for throttling: the loop ends and keeps its records |
| Fetch.ErrorsBeforeData | api_to_csv.py:114-127 | when errors are reported, the verdict does not depend on the data and never accepts a page |
| Fetch.NoDataStops | api_to_csv.py:125-127 | a body with neither errors nor data ends the loop, reported as unexpected, with the records kept |
| Fetch.PageAccepted | api_to_csv.py:135-157 | a page appends the records of its edges in order; the loop ends exactly when hasNextPage is false; otherwise the next variables are the last edge's cursor |
| Fetch.RunFrom | api_to_csv.py:110-157 | proof helper for `FetchQuery`: a run from position i is one pass on response i, followed by the rest of the run unless that response is final |
| Fetch.AppendPage | api_to_csv.py:137-152 | the inner loop leaves the records read so far followed by the records of the page's edges |
| Fetch.FetchQuery | api_to_csv.py:94-159 | the loop returns the records, sleeps, stop reason and request log of `Run` from the start state (no cursor, no records) over the responses |
| FetchProperties.StepGrowth | api_to_csv.py:114-152 | one pass adds the records of the accepted page's edges (none otherwise), and one sleep exactly on a throttled response |
| FetchProperties.RunExtends | api_to_csv.py:105-159 | records and the request log are only appended to, and sleeps only grow; at most one request is sent per response supplied, and at least one when any is supplied; the first request carries the starting variables |
| FetchProperties.FirstRequestWithoutCursor | api_to_csv.py:107-111 | the first request of a fetch carries no cursor |
| FetchProperties.ThrottleRepeatsRequest | api_to_csv.py:117-120 | after a throttled response the same variables are sent again |
| FetchProperties.NextRequestUsesLastCursor | api_to_csv.py:154-157 | after a page announcing a next page, the next request carries that page's last edge cursor |
| FetchProperties.RunRecords | api_to_csv.py:110-157 | a run's records are the records it started with followed by one record per edge of the pages it reads, page after page and edge after edge |
| FetchProperties.RecordsCompose | api_to_csv.py:141 | proof helper for `RunRecords` (sequence algebra): appending the records of two edge runs one after the other is appending those of both |
| FetchProperties.RunSleeps | api_to_csv.py:114-120 | a run sleeps exactly once per throttled response it reads |
| FetchProperties.RunStopsAtFirstFinal | api_to_csv.py:110-157 | the loop sends one request per response up to and including the first final one, then stops with that response's reason |
| FetchProperties.RunConsumesAll | api_to_csv.py:110 | with no final response, one request is sent per response supplied |
| FetchProperties.ThrottledTwiceThenOnePage | api_to_csv.py:110-159 | for [THROTTLED, THROTTLED, last page] there are three requests without a cursor and two sleeps; the records are those of the page and the loop ends normally |
| FetchProperties.TwoPages | api_to_csv.py:137-157 | for a first page with edges a, b, c and a next page, the second request carries c's cursor and the records of both pages follow in order |
| FetchProperties.FirstErrorReturnsNothing | api_to_csv.py:114-123 | a first answer with a non-throttle error gives no records, one request and that error as the stop reason |
| CsvSink.Lookup | api_to_csv.py:172 | a record's value under a column, an empty cell when it has none; its contract is stated by `LookupAt` |
| CsvSink.SaveToCsv | api_to_csv.py:169-172 | the header and the lines written for a non-empty list of records; its contract is stated by `SaveToCsvColumns` and `KeysMatchHeader` |
| CsvSink.Row | api_to_csv.py:172 | a written line has one cell per header column |
| CsvSink.LookupAt | api_to_csv.py:172 | a key whose earlier keys all differ from it is looked up to its own value |
| CsvSink.FieldNamesDistinct | api_to_csv.py:141-152 | no column name occurs twice |
| CsvSink.RowIsValues | api_to_csv.py:170-172 | under the ten-column header, a record's line is its values in key order |
| CsvSink.SaveToCsvColumns | api_to_csv.py:169-172 | the header is the ten column names; there is one line per record, in order, holding that record's values |
| CsvSink.KeysMatchHeader | api_to_csv.py:170-172 | every record has exactly the header's keys, so no record is rejected for an extra key |

## Left out

- The HTTP request and the JSON decoding (lines 111-112) are not modelled. A response
  arrives already decoded into `Shopify.Response`. A transport failure, or a body that is
  not JSON, raises in the source; the model has no such case.
- The credentials, the endpoint URL (line 104) and the GraphQL query text are constants
  of the source and are left out. The query's `first: 25` page size is one of them.
- `time.sleep(10)` and the `print` diagnostics are left out. A sleep is counted in
  `sleeps`, so its total is ten seconds per count.
- The supply of responses is finite. When it runs out while more pages are expected, the
  model stops with `OutOfResponses`; the source would send another request. An unbounded
  throttle loop is therefore modelled only up to the responses supplied.
- Fetch.WellFormed: the source raises `IndexError` on an empty `errors` list and on a
  page announcing a next page without any edge. These two crashes are excluded by
  requiring well-formed responses rather than modelled as error paths.
- A `data` key whose value is null, or a missing `productVariants`, `pageInfo` or field
  of a node, raises in the source; the decoded shape rules these out. It also rules out
  the two crashes of line 115: an `errors` key whose value is null (`TypeError`) and an
  `extensions` key whose value is null (`AttributeError`). `ErrorEntry.code` only tells
  a code from its absence.
- The ghost request log `sent` exists only in the model; the source keeps only the
  current variables.
- CSV serialisation is left out: quoting, delimiters, line endings and the file itself.
  The sink's result is the table of cells, with a `Null` value standing for the empty
  field written for `None`. The round trip through a written file is therefore not
  stated.
- `main` (lines 174-179) only chains the two operations with a fixed file name and is
  not modelled. `FirstErrorReturnsNothing` shows that the fetch can return no records,
  the case in which `save_to_csv` has no first record to take its header from.
