/** `standard_search`: a flat record search with optional filters, sorted descending on one
    field, one `from`/`size` window of the results. */
module Search {
  import opened Wrappers
  import opened Query
  import opened PySlice

  /** A returned hit, passed through unchanged, or the error entry `{"error": message}`. */
  datatype Document = Doc(fields: map<string, string>) | ErrorDoc(message: string)

  /** The backend's answer to a record search: its hits and `hits.total.value`, or a failure
      carrying the exception's text. */
  datatype SearchResponse = SearchFailed(reason: string) | SearchHits(hits: seq<Document>, totalValue: int)

  type SearchBackend = SearchQuery -> SearchResponse

  function SearchErrorMessage(reason: string): string
  {
    "\U{26A0}\U{FE0F} Error querying Elasticsearch: " + reason
  }

  /** The request `standard_search` sends: its filter, the sort field, and the window starting
      at `(page-1)*size`. */
  function StandardQuery(userId: Option<string>, ipAddress: Option<string>, startDate: Option<string>,
                         endDate: Option<string>, sortBy: string, page: int, size: int): SearchQuery
  {
    SearchQuery(StandardFilter(userId, ipAddress, startDate, endDate), sortBy, Offset(page, size), size)
  }

  /** The windows of consecutive pages abut: page 1 starts at 0 and page p+1 starts where page p
      ends, so paging through never skips or repeats a record. */
  lemma StandardWindows(userId: Option<string>, ipAddress: Option<string>, startDate: Option<string>,
                                           endDate: Option<string>, sortBy: string, page: int, size: int)
    requires page >= 1 && size >= 0
    ensures StandardQuery(userId, ipAddress, startDate, endDate, sortBy, 1, size).from == 0
    ensures StandardQuery(userId, ipAddress, startDate, endDate, sortBy, page, size).from >= 0
    ensures StandardQuery(userId, ipAddress, startDate, endDate, sortBy, page + 1, size).from
            == StandardQuery(userId, ipAddress, startDate, endDate, sortBy, page, size).from + size
  {
    MulNonNegative(page - 1, size);
    assert Offset(page + 1, size) == page * size == (page - 1) * size + size;
  }

  /** The appends of `standard_search` to `query["bool"]["must"]`. */
  method BuildFilter(userId: Option<string>, ipAddress: Option<string>, startDate: Option<string>, endDate: Option<string>)
    returns (must: seq<Clause>)
    ensures must == StandardFilter(userId, ipAddress, startDate, endDate)
  {
    ghost var terms := (if Present(userId) then [Term("user_id", userId.value)] else [])
      + (if Present(ipAddress) then [Term("ip", ipAddress.value)] else []);
    must := [];
    if Present(userId) {
      must := must + [Term("user_id", userId.value)];
    }
    if Present(ipAddress) {
      must := must + [Term("ip", ipAddress.value)];
    }
    assert must == terms;
    if Present(startDate) && Present(endDate) {
      must := must + [Range("date_last", startDate.value, endDate.value)];
    }
  }

  /** `standard_search`: appends a term per non-empty identifier and a date range when both ends
      are given, asks the backend once, and passes its hits and total through; a failure gives a
      single error entry and total 0. `sent` is the request sent. */
  method StandardSearch(backend: SearchBackend, userId: Option<string>, ipAddress: Option<string>,
                        startDate: Option<string>, endDate: Option<string>, sortBy: string, page: int, size: int)
    returns (hits: seq<Document>, total: int, ghost sent: SearchQuery)
    ensures sent == StandardQuery(userId, ipAddress, startDate, endDate, sortBy, page, size)
    ensures match backend(StandardQuery(userId, ipAddress, startDate, endDate, sortBy, page, size))
            case SearchFailed(reason) => hits == [ErrorDoc(SearchErrorMessage(reason))] && total == 0
            case SearchHits(docs, n) => hits == docs && total == n
  {
    var must := BuildFilter(userId, ipAddress, startDate, endDate);
    var start := (page - 1) * size;
    var query := SearchQuery(must, sortBy, start, size);
    sent := query;
    assert query == StandardQuery(userId, ipAddress, startDate, endDate, sortBy, page, size);
    var response := backend(query);
    match response
    case SearchFailed(reason) =>
      hits, total := [ErrorDoc(SearchErrorMessage(reason))], 0;
    case SearchHits(docs, n) =>
      hits, total := docs, n;
  }
}
