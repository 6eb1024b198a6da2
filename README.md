# Alt-account correlation over an activity index

This project models the search core of a moderation bot that keeps one record per
(user, IP address) sighting in a search index and answers three kinds of question:

- **record search** (`standard_search`): the records matching an optional user id, an optional
  IP address and an optional date range, sorted descending on one field, one page at a time;
- **unique-value aggregation** (`fetch_unique`, with `unique_user_search` for "which users were
  seen on this address" and `unique_ip_search` for "which addresses did this user use"): the
  distinct values of one field among the records matching another, most recently active first,
  each projected with its latest document's dates and count, paged in memory;
- **alt correlation** (`find_alts`): starting from a subject user, hop 1 collects the subject's
  addresses, hop 2 asks for the users seen on each address, and every other user found is a
  candidate alt, with the sorted set of addresses shared with the subject; candidates are ranked
  by the number of shared addresses, most first, ties in discovery order, and paged.

The search backend is a parameter: a total function from request to answer
(`Aggregator.AggBackend`, `Search.SearchBackend`). An exception raised by the backend call is the
answer `AggFailed` / `SearchFailed`. Each method that talks to the backend returns, as a ghost
out-parameter, the log of requests it sent, so that "no request is sent" and "every hop-1 address
is expanded exactly once, in order" are stated about the methods themselves.

Modules:

| file | module | what it holds |
|---|---|---|
| wrappers.dfy | Wrappers | `Option`, and Python truthiness of an optional string (`Present`) |
| pyslice.dfy | PySlice | Python list slicing with its clamping rules, page offsets, pages |
| strorder.dfy | StrOrder | code-point order on strings, `sorted(set)` as a specification and a method |
| query.dfy | Query | request bodies and the two filter builders |
| aggregator.dfy | Aggregator | `fetch_unique` and its two wrappers |
| ranking.dfy | Ranking | candidates and Python's stable descending sort by count |
| alttally.dfy | AltTally | the `potential_alts` dictionary as an insertion-ordered tally of edges |
| correlation.dfy | Correlation | the two hops, the tally, finalisation and `find_alts` |
| correlation_props.dfy | CorrelationProps | what `find_alts` guarantees about its candidates and pages |
| search.dfy | Search | `standard_search` |
| modal.dfy | Modal | the choice of subject from the find-alts form |

`find_alts` is specified by the ghost function `Correlation.FindAltsResult`, built from
`Edges` (every (address, other user) pair hop 2 reports, in discovery order), `TallyOf` (the
dictionary those pairs produce), `Finalise` (sorted address lists with their counts) and
`Rank` (the stable sort). The method `Correlation.FindAlts` is proved to compute exactly that
function, and the lemmas of `CorrelationProps` state what the function means in terms of the
backend's answers alone.

## Model

| member | source | states |
|---|---|---|
| Query.StandardFilter | utils/elastic_search.py:37-45 | one clause for a non-empty user id, one for a non-empty address and one when both dates are non-empty, and no more; a range clause can only be the last one |
| Query.StandardFilterParts | utils/elastic_search.py:37-45 | a clause is in the list exactly when it is the `user_id` term of a non-empty user id, the `ip` term of a non-empty address, or the `date_last` range of two non-empty dates |
| Query.StandardFilterClauses | utils/elastic_search.py:37-45 | a `user_id` term with value v exactly when the user id is the non-empty v, likewise for `ip`; a range exactly when both dates are non-empty, and it is `date_last` between the start and the end date |
| Query.UniqueFilter | utils/elastic_search.py:143-152 | the term on the searched field comes first and is the only term; a range on the date field, between the start and the end date, is added exactly when both dates are non-empty; exactly one clause, or two when both dates are non-empty |
| Search.BuildFilter | utils/elastic_search.py:37-45 | the clause list built by successive appends is exactly `StandardFilter`, so it has `StandardFilter`'s properties |
| Search.StandardSearch | utils/elastic_search.py:28-60 | sends the request with `StandardFilter`'s clauses, the sort field and the window `from = (page-1)*size`, `size`; passes the backend's hits and total through; a backend failure gives a single error entry carrying the exception text and total 0 |
| Search.StandardWindows | utils/elastic_search.py:47 | page 1 starts at record 0, every valid page starts at a non-negative offset, and page p+1 starts exactly `size` records after page p, so consecutive windows neither overlap nor leave gaps |
| Aggregator.Unique | utils/elastic_search.py:126-205 | an absent or empty term value gives one error entry naming the field and total 0; otherwise every result is a row for the aggregated field and the total is never negative |
| Aggregator.UniquePage | utils/elastic_search.py:184-205 | for page >= 1 and size >= 0: a backend failure gives `([], 0)`; a page bucket without a latest document gives `([], 0)`; otherwise total is the number of all buckets whatever the page, the page has at most `size` rows (exactly `min(size, buckets - offset)` or none past the end), and row i carries the key of bucket `(page-1)*size + i`, its latest document's dates, and its count with 0 for a missing one (what reading the row's fields then gives is `ProjectReads`) |
| Aggregator.ProjectReads | utils/elastic_search.py:193-199 | `row.get(agg_field)` is the bucket key unless `agg_field` is `date_first`, `date_last` or `count`, whose later literal entry wins; `date_first`/`date_last` read the latest document's dates; no other field is set |
| Aggregator.ProjectionCommutesWithPaging | utils/elastic_search.py:187-199 | projecting a page of buckets equals that page of the projected buckets |
| Aggregator.UniquePageOfFullList | utils/elastic_search.py:187-199 | when every bucket has a latest document, page `page` of size `size` is the slice `[(page-1)*size : (page-1)*size+size]` of the single page that holds all buckets |
| Aggregator.FetchUnique | utils/elastic_search.py:126-205 | computes exactly `Unique`; sends no request for an absent or empty term value and otherwise exactly one request, carrying `UniqueFilter`'s clauses and the 10000-bucket ceiling |
| Aggregator.ProjectPage | utils/elastic_search.py:191-199 | the projection loop succeeds exactly when every page bucket has a latest document, and then yields each bucket's projection in bucket order |
| Aggregator.UniqueUserSearch | utils/elastic_search.py:208-215 | `fetch_unique("ip", address, "user_id", "date_last", ...)`; for a non-empty address every result's `user_id` is its bucket key; the request log as for `FetchUnique` |
| Aggregator.UniqueIpSearch | utils/elastic_search.py:218-225 | `fetch_unique("user_id", user, "ip", "date_last", ...)`; for a non-empty user every result's `ip` is its bucket key; the request log as for `FetchUnique` |
| StrOrder.SortedOfSpec | utils/elastic_search.py:110 | `sorted(list(set))` is strictly ascending in code-point order (so has no duplicates), holds exactly the set's elements and has the set's size |
| StrOrder.SortSet | utils/elastic_search.py:110 | the sorting loop returns `SortedOf(s)`: strictly ascending, same elements, same size |
| Ranking.Rank | utils/elastic_search.py:117 | the ranked list is a permutation of its input |
| Ranking.RankDescending | utils/elastic_search.py:117 | the ranked list is non-increasing in `shared_ip_count` |
| Ranking.RankStable | utils/elastic_search.py:117 | for every count, the candidates of that count appear in the ranked list in the same order as in the input (the sort is stable) |
| Ranking.RankMembers | utils/elastic_search.py:117 | sorting neither adds nor removes a candidate |
| Ranking.RankDistinct | utils/elastic_search.py:117 | when the input's user ids are pairwise distinct, so are the ranked list's |
| AltTally.TallySpec | utils/elastic_search.py:94-106 | the dictionary built from a sequence of (address, user) edges has a key exactly for each user of an edge, maps it to exactly the addresses of that user's edges, and lists its keys once each in order of first appearance |
| AltTally.Record | utils/elastic_search.py:100-106 | one dictionary update (create `{}` on first sight, then `add` the address) is one `AddEdge` step of the tally |
| AltTally.AddEdgeShared | utils/elastic_search.py:100-106 | after one step the keys are the old keys plus the edge's user, and a user's set gains exactly the edge's address when the edge names that user |
| AltTally.TallyOrder | utils/elastic_search.py:100-104 | dictionary keys are in first-discovery order and without repetition |
| AltTally.UsersMembers | utils/elastic_search.py:94-106 | a user occurs among the edges' users exactly when some edge names them |
| Correlation.IpAddresses | utils/elastic_search.py:80 | an address is collected exactly when some hop-1 entry has an `ip` field with that value; never more addresses than entries |
| Correlation.TallyUsers | utils/elastic_search.py:94-106 | the inner loop over one address's hop-2 entries adds exactly that address's edges to the dictionary |
| Correlation.TallyUsersStep | utils/elastic_search.py:94-106 | one hop-2 entry adds the edge (address, its user id) to the tally when it names another user, and leaves the tally unchanged otherwise |
| Correlation.TallyAddresses | utils/elastic_search.py:85-106 | the hop-2 loop builds the dictionary of all edges, and sends one hop-2 request per non-empty hop-1 address, in hop-1 order |
| Correlation.CorrelateAddresses | utils/elastic_search.py:85-124 | from the hop-1 addresses on: the page `[(page-1)*size : (page-1)*size+size]` of the ranked candidates, their number as total, and one hop-2 request per non-empty address |
| Correlation.FinaliseAll | utils/elastic_search.py:108-115 | each dictionary entry, in insertion order, becomes a candidate with its sorted addresses and their count |
| Correlation.FindAlts | utils/elastic_search.py:63-124 | computes exactly `FindAltsResult`; an empty subject, an empty or error-marked hop-1 answer, or one without `ip` fields gives `([], 0)`; an empty subject sends no request; otherwise the requests are the hop-1 request, then one hop-2 request per non-empty hop-1 address, in hop-1 order |
| Correlation.StopsAfterHop1Exactly | utils/elastic_search.py:68-83 | the correlation reaches hop 2 exactly when none of the four early exits applies |
| CorrelationProps.FinaliseMembers | utils/elastic_search.py:108-115 | every finalised candidate is a listed user of the dictionary, with that user's sorted addresses and their count |
| CorrelationProps.RankedMembers | utils/elastic_search.py:108-117 | every ranked candidate is the finalised entry of a user the dictionary holds |
| CorrelationProps.EntryEdgesSpec | utils/elastic_search.py:94-98 | an address's hop-2 entries contribute an edge exactly for each present, non-empty user id other than the subject's |
| CorrelationProps.EdgesSpec | utils/elastic_search.py:85-106 | (ip, u) is discovered exactly when ip is a hop-1 address and hop 2 reports the other user u on it |
| CorrelationProps.SelfExcluded | utils/elastic_search.py:95-98 | no candidate is the subject, and none has an empty user id |
| CorrelationProps.SharedIpsSorted | utils/elastic_search.py:108-115 | every candidate's shared addresses are strictly ascending (sorted, no duplicates), non-empty, and `shared_ip_count` is their number |
| CorrelationProps.SharedIpsExact | utils/elastic_search.py:87-106 | an address is among candidate B's shared addresses exactly when it is a hop-1 address on which hop 2 reports B |
| CorrelationProps.OneCandidatePerUser | utils/elastic_search.py:100-115 | no user is a candidate twice, and a user is a candidate exactly when hop 2 reports them on some hop-1 address |
| CorrelationProps.RankedOrder | utils/elastic_search.py:108-117 | the ranked list is non-increasing in count, a permutation of the finalised candidates, and keeps their order among equal counts |
| CorrelationProps.CandidatesInDiscoveryOrder | utils/elastic_search.py:100-117 | finalised candidates are in order of their user's first discovery in hop 2, so equal counts in the ranking keep first-discovery order |
| CorrelationProps.FindAltsPaging | utils/elastic_search.py:119-124 | for page >= 1 and size >= 0: total is the number of candidates whatever the page, the page has at most `size` candidates, and its i-th is ranked candidate `(page-1)*size + i` |
| CorrelationProps.ResultPagesArePages | utils/elastic_search.py:119-124 | concatenating the answers for pages 1..k concatenates the corresponding slices of the ranked list |
| CorrelationProps.PagesReproduceRanking | utils/elastic_search.py:119-124 | once k pages of size `size` reach the total, their concatenation is the single page holding all candidates: nothing is repeated or lost |
| PySlice.Slice | utils/elastic_search.py:124 | Python slicing: never longer than the list, the plain subsequence for in-range bounds, empty when the stop is not after the start and both bounds have the same sign (`[1,2,3][0:-1]` is `[1,2]`) |
| PySlice.PageShape | utils/elastic_search.py:187-189 | a valid page starts at a non-negative offset, has `min(size, len - offset)` elements (none past the end), and its i-th element is element `offset + i` |
| PySlice.PagesPrefix | utils/elastic_search.py:119-124 | pages 1..k concatenated are the first `min(k*size, len)` elements |
| PySlice.ConcatPages | utils/elastic_search.py:119-124 | answers that are, page by page, the pages of one list concatenate to that list's pages |
| PySlice.FirstPageWhole | utils/elastic_search.py:187-189 | page 1 of a size at least the length is the whole list |
| PySlice.PagesCover | utils/elastic_search.py:119-124 | once `k*size` reaches the length, pages 1..k concatenated are the whole list |
| Modal.SelectSubject | view/find_alts_modal.py:19-52 | more than one mention is refused; a mention together with a non-empty typed id is refused; otherwise the subject is the single mention, or else the typed id |

## Left out

- `create_index` (utils/elastic_search.py:5-25): a schema-creation call with no logic of its own.
- The backend itself: term aggregation, ordering buckets by the maximum date, `top_hits`, the
  sort of `standard_search` and its hit contents are the oracle's business. Only the terms size
  10000 (utils/elastic_search.py:164, `BucketCeiling` in `AggQuery`) is part of the request, so
  only the truncation it causes happens inside the oracle. The page sizes 100000 and 10000 of
  the two hops (`Hop1Size`, `Hop2Size`) are never sent: `Unique` applies them in memory as the
  slice at utils/elastic_search.py:187-189 does.
- `async`/`await`: the hop-2 loop is sequential, as the source awaits each call in turn.
- `print` logging, and the exact wording of the missing-term message (the source replaces `_`
  by a space and title-cases the field name; the model keeps the field name as it is).
- Correlation.HasErrorMarker: `"error" in str(ips_data)` is modelled as an error entry or a key,
  date or field name containing `error` (a key overwritten by a fixed entry of the row is not
  printed, so it does not count); escaping done by Python's `repr` of the list is not modelled.
- Aggregator.Get: reads string values only; the `count` entry of a row holds an integer, so
  `Get(row, "count")` is `None`, and nothing in the core reads it.
- Aggregator.Project: a `count` field that is present with the value null reads as a missing count (0).
- Search.StandardSearch: a backend answer missing `hits` or `hits.total.value` raises and is caught
  in the source; here the backend either fails or returns both.
- The in-place `results.sort` and the list appends of `find_alts` and `fetch_unique` work on local
  lists; the sort is modelled as the function `Ranking.Rank` on the sequence, which loses nothing
  because no other reference to that list exists.
- Modal.SelectSubject: the Slack messages, the loading message and the channel lookup of
  view/find_alts_modal.py; an absent `selected_users` is the empty list.
- commands/find_alts.py (modal layout and authorisation checks) and actions/sonar_actions.py
  (view routing): user-interface plumbing with no search logic.
- A secondary tie-break between equal counts (for instance by user id, for a fully
  deterministic order) is not part of the code, which keeps dictionary insertion order (first
  discovery in hop 2); the model follows the code.
