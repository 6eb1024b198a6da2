/** The unique-value aggregator: group the records matching one field value by another field,
    most recently active group first, and page through the groups in memory. */
module Aggregator {
  import opened Wrappers
  import opened Query
  import opened PySlice

  /** The fields of a bucket's latest document that the projection reads (`_source`).
      A field the document lacks is `None`. */
  datatype Source = Source(dateFirst: Option<string>, dateLast: Option<string>, count: Option<int>)

  /** One aggregation bucket: the distinct value and the hits of its `latest_doc` sub-aggregation. */
  datatype Bucket = Bucket(key: string, hits: seq<Source>)

  /** The backend's answer to an aggregation request: its bucket list, or a failure (an exception). */
  datatype AggResponse = AggFailed | AggBuckets(buckets: seq<Bucket>)

  /** The search backend, seen as a function from request to answer. */
  type AggBackend = AggQuery -> AggResponse

  /** One element of a result list: a projected bucket `{agg_field: key, date_first, date_last,
      count}`, or the validation error `{"error": message}`. */
  datatype Entry =
    | Row(field: string, key: string, dateFirst: Option<string>, dateLast: Option<string>, count: int)
    | ErrorEntry(message: string)

  /** The fixed keys of a projected row; an aggregated field of one of these names is
      overwritten by the later entry of the dictionary literal. */
  predicate Shadowed(name: string)
  {
    name == "date_first" || name == "date_last" || name == "count"
  }

  /** The string value of field `name`, as `entry.get(name)` reads it. A row's dictionary
      literal lists the aggregated field first, so for a repeated key the later entry wins;
      `count` holds an integer and has no string value. */
  function Get(e: Entry, name: string): Option<string>
  {
    match e
    case ErrorEntry(message) => if name == "error" then Some(message) else None
    case Row(field, key, dateFirst, dateLast, _) =>
      if name == "date_first" then dateFirst
      else if name == "date_last" then dateLast
      else if name == "count" then None
      else if name == field then Some(key)
      else None
  }

  function RequiredMessage(termField: string): string
  {
    termField + " is required for this search"
  }

  /** The aggregation request `fetch_unique` sends for a non-empty term value. */
  function UniqueQuery(termField: string, termValue: string, aggField: string, dateField: string,
                       startDate: Option<string>, endDate: Option<string>): AggQuery
  {
    AggQuery(UniqueFilter(termField, termValue, dateField, startDate, endDate), aggField, dateField, BucketCeiling)
  }

  predicate AllHaveHits(bs: seq<Bucket>)
  {
    forall i :: 0 <= i < |bs| ==> |bs[i].hits| > 0
  }

  /** A bucket projected onto the result shape; a missing count reads as 0. */
  function Project(aggField: string, b: Bucket): Entry
    requires |b.hits| > 0
  {
    Row(aggField, b.key, b.hits[0].dateFirst, b.hits[0].dateLast, b.hits[0].count.GetOr(0))
  }

  /** A projected row reads back the bucket key under the aggregated field, unless that name is
      one of the fixed keys, and always reads back the latest document's dates. */
  lemma ProjectReads(aggField: string, b: Bucket)
    requires |b.hits| > 0
    ensures !Shadowed(aggField) ==> Get(Project(aggField, b), aggField) == Some(b.key)
    ensures Get(Project(aggField, b), "date_first") == b.hits[0].dateFirst
    ensures Get(Project(aggField, b), "date_last") == b.hits[0].dateLast
    ensures forall name :: !Shadowed(name) && name != aggField ==> Get(Project(aggField, b), name).None?
  {
  }

  /** The projection of every bucket, in bucket order. */
  function ProjectAll(aggField: string, bs: seq<Bucket>): (r: seq<Entry>)
    requires AllHaveHits(bs)
    ensures |r| == |bs|
    ensures forall i :: 0 <= i < |bs| ==> r[i] == Project(aggField, bs[i])
  {
    if bs == [] then [] else ProjectAll(aggField, bs[..|bs| - 1]) + [Project(aggField, bs[|bs| - 1])]
  }

  /** What `fetch_unique` makes of the backend's answer: the projected page and the number of
      all buckets; a failure, or a page bucket without a latest document, gives `([], 0)`. */
  function Answer(response: AggResponse, aggField: string, page: int, size: int): (r: (seq<Entry>, int))
    ensures forall e :: e in r.0 ==> e.Row? && e.field == aggField
    ensures r.1 >= 0 && (response.AggBuckets? ==> r.1 == 0 || r.1 == |response.buckets|)
  {
    match response
    case AggFailed => ([], 0)
    case AggBuckets(bs) =>
      var pb := Page(bs, page, size);
      if AllHaveHits(pb) then (ProjectAll(aggField, pb), |bs|) else ([], 0)
  }

  /** `fetch_unique(term_field, term_value, agg_field, date_field, page, size, start_date, end_date)`. */
  function Unique(backend: AggBackend, termField: string, termValue: Option<string>, aggField: string,
                  dateField: string, page: int, size: int,
                  startDate: Option<string>, endDate: Option<string>): (r: (seq<Entry>, int))
    ensures !Present(termValue) ==> r == ([ErrorEntry(RequiredMessage(termField))], 0)
    ensures Present(termValue) ==> forall e :: e in r.0 ==> e.Row? && e.field == aggField
    ensures r.1 >= 0
  {
    if !Present(termValue) then ([ErrorEntry(RequiredMessage(termField))], 0)
    else Answer(backend(UniqueQuery(termField, termValue.value, aggField, dateField, startDate, endDate)), aggField, page, size)
  }

  /** For a valid page, a successful answer reports every bucket in `total`, whatever the page,
      and its i-th result is bucket `(page-1)*size + i`, with a missing count read as 0. */
  lemma UniquePage(backend: AggBackend, termField: string, termValue: Option<string>, aggField: string,
                   dateField: string, page: int, size: int,
                   startDate: Option<string>, endDate: Option<string>)
    requires Present(termValue) && page >= 1 && size >= 0
    ensures var response := backend(UniqueQuery(termField, termValue.value, aggField, dateField, startDate, endDate));
            var r := Unique(backend, termField, termValue, aggField, dateField, page, size, startDate, endDate);
            match response
            case AggFailed => r == ([], 0)
            case AggBuckets(bs) =>
              if AllHaveHits(Page(bs, page, size)) then
                && r.1 == |bs|
                && |r.0| <= size
                && |r.0| == (if Offset(page, size) >= |bs| then 0 else Min(size, |bs| - Offset(page, size)))
                && forall i :: 0 <= i < |r.0| ==>
                     var b := bs[Offset(page, size) + i];
                     |b.hits| > 0 && r.0[i] == Row(aggField, b.key, b.hits[0].dateFirst, b.hits[0].dateLast, b.hits[0].count.GetOr(0))
              else r == ([], 0)
  {
    var response := backend(UniqueQuery(termField, termValue.value, aggField, dateField, startDate, endDate));
    if response.AggBuckets? {
      PageShape(response.buckets, page, size);
    }
  }

  /** Paging in memory agrees with slicing one page that holds every bucket: page `page` of
      size `size` is the slice `[(page-1)*size : (page-1)*size + size]` of the full list. */
  lemma UniquePageOfFullList(backend: AggBackend, termField: string, termValue: Option<string>, aggField: string,
                             dateField: string, page: int, size: int, all: int,
                             startDate: Option<string>, endDate: Option<string>)
    requires Present(termValue) && page >= 1 && size >= 0
    requires var response := backend(UniqueQuery(termField, termValue.value, aggField, dateField, startDate, endDate));
             response.AggBuckets? && all >= |response.buckets| && AllHaveHits(response.buckets)
    ensures var full := Unique(backend, termField, termValue, aggField, dateField, 1, all, startDate, endDate).0;
            Unique(backend, termField, termValue, aggField, dateField, page, size, startDate, endDate).0
              == Slice(full, Offset(page, size), Offset(page, size) + size)
  {
    var bs := backend(UniqueQuery(termField, termValue.value, aggField, dateField, startDate, endDate)).buckets;
    FirstPageWhole(bs, all);
    ProjectionCommutesWithPaging(aggField, bs, page, size);
  }

  /** Projecting a page of buckets is the same as taking that page of the projected buckets. */
  lemma ProjectionCommutesWithPaging(aggField: string, bs: seq<Bucket>, page: int, size: int)
    requires AllHaveHits(bs) && page >= 1 && size >= 0
    ensures AllHaveHits(Page(bs, page, size))
    ensures ProjectAll(aggField, Page(bs, page, size)) == Page(ProjectAll(aggField, bs), page, size)
  {
    var pb := Page(bs, page, size);
    var all := ProjectAll(aggField, bs);
    PageShape(bs, page, size);
    PageShape(all, page, size);
    assert AllHaveHits(pb) by {
      forall i | 0 <= i < |pb| ensures |pb[i].hits| > 0 {
        assert pb[i] == bs[Offset(page, size) + i];
      }
    }
    var lhs, rhs := ProjectAll(aggField, pb), Page(all, page, size);
    assert |lhs| == |rhs|;
    forall i | 0 <= i < |lhs| ensures lhs[i] == rhs[i] {
      assert pb[i] == bs[Offset(page, size) + i];
    }
  }

  /** `fetch_unique`: validates the term value, builds the filter, asks the backend once, pages its
      bucket list in memory and projects each bucket of the page. `issued` records the requests sent. */
  method FetchUnique(backend: AggBackend, termField: string, termValue: Option<string>, aggField: string,
                     dateField: string, page: int, size: int,
                     startDate: Option<string>, endDate: Option<string>)
    returns (results: seq<Entry>, total: int, ghost issued: seq<AggQuery>)
    ensures (results, total) == Unique(backend, termField, termValue, aggField, dateField, page, size, startDate, endDate)
    ensures issued == if Present(termValue) then [UniqueQuery(termField, termValue.value, aggField, dateField, startDate, endDate)] else []
  {
    issued := if Present(termValue) then [UniqueQuery(termField, termValue.value, aggField, dateField, startDate, endDate)] else [];
    if !Present(termValue) {
      return [ErrorEntry(RequiredMessage(termField))], 0, issued;
    }
    var must := [Term(termField, termValue.value)];
    if Present(startDate) && Present(endDate) {
      must := must + [Range(dateField, startDate.value, endDate.value)];
    }
    var query := AggQuery(must, aggField, dateField, BucketCeiling);
    assert query == issued[0];
    var response := backend(query);
    if response.AggFailed? {
      return [], 0, issued;
    }
    var buckets := response.buckets;
    var startIdx := (page - 1) * size;
    var endIdx := startIdx + size;
    var pageBuckets := Slice(buckets, startIdx, endIdx);
    assert pageBuckets == Page(buckets, page, size);
    var ok;
    ok, results := ProjectPage(aggField, pageBuckets);
    if !ok {
      return [], 0, issued;
    }
    total := |buckets|;
  }

  /** The projection loop of `fetch_unique`: stops with `ok == false` at the first bucket whose
      top-hits list is empty, where indexing it raises. */
  method ProjectPage(aggField: string, pageBuckets: seq<Bucket>) returns (ok: bool, results: seq<Entry>)
    ensures ok == AllHaveHits(pageBuckets)
    ensures ok ==> results == ProjectAll(aggField, pageBuckets)
  {
    results := [];
    var i := 0;
    while i < |pageBuckets|
      invariant 0 <= i <= |pageBuckets|
      invariant AllHaveHits(pageBuckets[..i])
      invariant results == ProjectAll(aggField, pageBuckets[..i])
    {
      var bucket := pageBuckets[i];
      if |bucket.hits| == 0 {
        assert !AllHaveHits(pageBuckets);
        return false, [];
      }
      var hit := bucket.hits[0];
      results := results + [Row(aggField, bucket.key, hit.dateFirst, hit.dateLast, hit.count.GetOr(0))];
      assert results[i] == Project(aggField, bucket);
      assert pageBuckets[..i + 1][..i] == pageBuckets[..i];
      i := i + 1;
    }
    assert pageBuckets[..i] == pageBuckets;
    ok := true;
  }

  /** `unique_user_search`: the distinct users seen on one address. */
  method UniqueUserSearch(backend: AggBackend, ipAddress: Option<string>, startDate: Option<string>,
                          endDate: Option<string>, page: int, size: int)
    returns (results: seq<Entry>, total: int, ghost issued: seq<AggQuery>)
    ensures (results, total) == Unique(backend, "ip", ipAddress, "user_id", "date_last", page, size, startDate, endDate)
    ensures Present(ipAddress) ==> forall e :: e in results ==> Get(e, "user_id") == Some(e.key)
    ensures issued == if Present(ipAddress) then [UniqueQuery("ip", ipAddress.value, "user_id", "date_last", startDate, endDate)] else []
  {
    results, total, issued := FetchUnique(backend, "ip", ipAddress, "user_id", "date_last", page, size, startDate, endDate);
  }

  /** `unique_ip_search`: the distinct addresses one user was seen on. */
  method UniqueIpSearch(backend: AggBackend, userId: Option<string>, startDate: Option<string>,
                        endDate: Option<string>, page: int, size: int)
    returns (results: seq<Entry>, total: int, ghost issued: seq<AggQuery>)
    ensures (results, total) == Unique(backend, "user_id", userId, "ip", "date_last", page, size, startDate, endDate)
    ensures Present(userId) ==> forall e :: e in results ==> Get(e, "ip") == Some(e.key)
    ensures issued == if Present(userId) then [UniqueQuery("user_id", userId.value, "ip", "date_last", startDate, endDate)] else []
  {
    results, total, issued := FetchUnique(backend, "user_id", userId, "ip", "date_last", page, size, startDate, endDate);
  }
}
