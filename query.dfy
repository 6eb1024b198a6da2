/** The request bodies sent to the search backend and the filters they carry. */
module Query {
  import opened Wrappers

  /** One conjunct of a `bool.must` filter: an exact match, or an inclusive date range. */
  datatype Clause = Term(field: string, value: string) | Range(field: string, gte: string, lte: string)

  /** A unique-value aggregation request: the conjunctive filter, the field to group by, the
      date field whose maximum orders the buckets (most recent first) and selects each bucket's
      latest document, and the number of buckets asked for. */
  datatype AggQuery = AggQuery(must: seq<Clause>, aggField: string, dateField: string, bucketSize: nat)

  /** A flat record search: the conjunctive filter, the field sorted on (descending), and the
      `from`/`size` window the backend returns. */
  datatype SearchQuery = SearchQuery(must: seq<Clause>, sortField: string, from: int, size: int)

  /** The bucket ceiling of every aggregation request. */
  const BucketCeiling: nat := 10000

  predicate HasRange(must: seq<Clause>)
  {
    exists c :: c in must && c.Range?
  }

  /** The filter of a record search: a term per non-empty identifier, and a `date_last` range
      only when both dates are given, last. */
  function StandardFilter(userId: Option<string>, ipAddress: Option<string>,
                          startDate: Option<string>, endDate: Option<string>): (must: seq<Clause>)
    ensures |must| == (if Present(userId) then 1 else 0) + (if Present(ipAddress) then 1 else 0)
                      + (if Present(startDate) && Present(endDate) then 1 else 0)
    ensures forall i :: 0 <= i < |must| && must[i].Range? ==> i == |must| - 1
  {
    (if Present(userId) then [Term("user_id", userId.value)] else [])
    + (if Present(ipAddress) then [Term("ip", ipAddress.value)] else [])
    + (if Present(startDate) && Present(endDate) then [Range("date_last", startDate.value, endDate.value)] else [])
  }

  /** A clause of the record-search filter is one of its three optional parts. */
  lemma StandardFilterParts(userId: Option<string>, ipAddress: Option<string>,
                            startDate: Option<string>, endDate: Option<string>, c: Clause)
    ensures c in StandardFilter(userId, ipAddress, startDate, endDate) <==>
              || (Present(userId) && c == Term("user_id", userId.value))
              || (Present(ipAddress) && c == Term("ip", ipAddress.value))
              || (Present(startDate) && Present(endDate) && c == Range("date_last", startDate.value, endDate.value))
  {
    var user := if Present(userId) then [Term("user_id", userId.value)] else [];
    var ip := if Present(ipAddress) then [Term("ip", ipAddress.value)] else [];
    var range := if Present(startDate) && Present(endDate) then [Range("date_last", startDate.value, endDate.value)] else [];
    assert StandardFilter(userId, ipAddress, startDate, endDate) == user + ip + range;
    assert c in user + ip + range <==> c in user || c in ip || c in range;
  }

  /** Which clauses the record-search filter holds: a `user_id` term exactly for a non-empty user
      id, an `ip` term exactly for a non-empty address, and a `date_last` range exactly when both
      dates are non-empty, with those dates as its bounds. */
  lemma StandardFilterClauses(userId: Option<string>, ipAddress: Option<string>,
                              startDate: Option<string>, endDate: Option<string>)
    ensures var must := StandardFilter(userId, ipAddress, startDate, endDate);
            && (forall v: string :: Term("user_id", v) in must <==> userId == Some(v) && v != "")
            && (forall v: string :: Term("ip", v) in must <==> ipAddress == Some(v) && v != "")
            && (HasRange(must) <==> Present(startDate) && Present(endDate))
            && (forall c :: c in must && c.Range? ==> c == Range("date_last", startDate.value, endDate.value))
  {
    var must := StandardFilter(userId, ipAddress, startDate, endDate);
    forall c ensures c in must <==>
              || (Present(userId) && c == Term("user_id", userId.value))
              || (Present(ipAddress) && c == Term("ip", ipAddress.value))
              || (Present(startDate) && Present(endDate) && c == Range("date_last", startDate.value, endDate.value))
    {
      StandardFilterParts(userId, ipAddress, startDate, endDate, c);
    }
    if Present(startDate) && Present(endDate) {
      assert Range("date_last", startDate.value, endDate.value) in must;
    }
  }

  /** The filter of a unique-value aggregation: always the term, then a range on `dateField`
      only when both dates are given. */
  function UniqueFilter(termField: string, termValue: string, dateField: string,
                        startDate: Option<string>, endDate: Option<string>): (must: seq<Clause>)
    ensures |must| >= 1 && must[0] == Term(termField, termValue)
    ensures HasRange(must) <==> Present(startDate) && Present(endDate)
    ensures forall c :: c in must && c.Range? ==> c == Range(dateField, startDate.value, endDate.value)
    ensures forall c :: c in must && c.Term? ==> c == Term(termField, termValue)
    ensures |must| == if Present(startDate) && Present(endDate) then 2 else 1
  {
    var must := [Term(termField, termValue)]
      + (if Present(startDate) && Present(endDate) then [Range(dateField, startDate.value, endDate.value)] else []);
    assert Present(startDate) && Present(endDate) ==> must[1] in must;
    must
  }
}
