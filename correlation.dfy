/** The alt-account correlation engine (`find_alts`): the subject's addresses (hop 1), the users
    seen on each address (hop 2), a tally of shared addresses per other user, a stable ranking by
    shared-address count and in-memory pagination. */
module Correlation {
  import opened Wrappers
  import opened Query
  import opened PySlice
  import opened Aggregator
  import opened StrOrder
  import opened Ranking
  import opened AltTally

  /** The page sizes `find_alts` asks `fetch_unique` for in each hop. */
  const Hop1Size := 100000
  const Hop2Size := 10000

  /** Hop 1: `unique_ip_search(user_id=subject, page=1, size=100000)`. */
  function Hop1(backend: AggBackend, subject: string): seq<Entry>
  {
    Unique(backend, "user_id", Some(subject), "ip", "date_last", 1, Hop1Size, None, None).0
  }

  /** Hop 2 for one address: `unique_user_search(ip_address=ip, page=1, size=10000)`. */
  function Hop2(backend: AggBackend, ip: string): seq<Entry>
  {
    Unique(backend, "ip", Some(ip), "user_id", "date_last", 1, Hop2Size, None, None).0
  }

  function Hop1Query(subject: string): AggQuery
  {
    UniqueQuery("user_id", subject, "ip", "date_last", None, None)
  }

  function Hop2Query(ip: string): AggQuery
  {
    UniqueQuery("ip", ip, "user_id", "date_last", None, None)
  }

  /** The hop-2 requests for the addresses in order; an empty address is rejected by validation
      and sends none. */
  function Hop2Queries(ips: seq<string>): seq<AggQuery>
  {
    if ips == [] then []
    else Hop2Queries(ips[..|ips| - 1]) + (if ips[|ips| - 1] != "" then [Hop2Query(ips[|ips| - 1])] else [])
  }

  predicate ErrorAt(s: string, i: nat)
  {
    i + 5 <= |s| && s[i..i + 5] == "error"
  }

  /** `"error"` occurs in `s`. */
  predicate ContainsError(s: string)
  {
    exists i: nat :: i <= |s| && ErrorAt(s, i)
  }

  /** The text of an entry, as `str(...)` prints it, mentions "error". */
  predicate MentionsError(e: Entry)
  {
    match e
    case ErrorEntry(_) => true
    case Row(field, key, dateFirst, dateLast, _) =>
      || (!Shadowed(field) && (ContainsError(field) || ContainsError(key)))
      || (dateFirst.Some? && ContainsError(dateFirst.value))
      || (dateLast.Some? && ContainsError(dateLast.value))
  }

  /** `"error" in str(ips_data)`. */
  predicate HasErrorMarker(entries: seq<Entry>)
  {
    exists e :: e in entries && MentionsError(e)
  }

  /** `[item["ip"] for item in ips_data if "ip" in item]`. */
  function IpAddresses(entries: seq<Entry>): (ips: seq<string>)
    ensures |ips| <= |entries|
    ensures forall ip :: ip in ips <==> exists e :: e in entries && Get(e, "ip") == Some(ip)
  {
    if entries == [] then []
    else
      var rest := IpAddresses(entries[1..]);
      assert forall e :: e in entries <==> e == entries[0] || e in entries[1..];
      match Get(entries[0], "ip")
      case Some(ip) => [ip] + rest
      case None => rest
  }

  /** A hop-2 entry names another user: a present, non-empty `user_id` other than the subject's. */
  predicate IsAlt(e: Entry, subject: string)
  {
    var u := Get(e, "user_id");
    u.Some? && u.value != "" && u.value != subject
  }

  /** The edges one address contributes, in the order of its hop-2 entries. */
  function EntryEdges(ip: string, entries: seq<Entry>, subject: string): seq<Edge>
  {
    if entries == [] then []
    else
      var last := entries[|entries| - 1];
      EntryEdges(ip, entries[..|entries| - 1], subject)
      + (if IsAlt(last, subject) then [Edge(ip, Get(last, "user_id").value)] else [])
  }

  lemma EntryEdgesStep(ip: string, entries: seq<Entry>, j: nat, subject: string)
    requires j < |entries|
    ensures EntryEdges(ip, entries[..j + 1], subject)
            == EntryEdges(ip, entries[..j], subject)
               + (if IsAlt(entries[j], subject) then [Edge(ip, Get(entries[j], "user_id").value)] else [])
  {
    assert entries[..j + 1][..j] == entries[..j];
  }

  /** Every edge discovered in hop 2, address by address in hop-1 order. */
  function Edges(backend: AggBackend, subject: string, ips: seq<string>): seq<Edge>
  {
    if ips == [] then []
    else
      var ip := ips[|ips| - 1];
      Edges(backend, subject, ips[..|ips| - 1]) + EntryEdges(ip, Hop2(backend, ip), subject)
  }

  lemma EdgesStep(backend: AggBackend, subject: string, ips: seq<string>, k: nat)
    requires k < |ips|
    ensures Edges(backend, subject, ips[..k + 1])
            == Edges(backend, subject, ips[..k]) + EntryEdges(ips[k], Hop2(backend, ips[k]), subject)
    ensures Hop2Queries(ips[..k + 1]) == Hop2Queries(ips[..k]) + (if ips[k] != "" then [Hop2Query(ips[k])] else [])
  {
    assert ips[..k + 1][..k] == ips[..k];
  }

  /** Some entry names user `u`, who is neither missing, empty, nor the subject. */
  ghost predicate NamesAlt(entries: seq<Entry>, subject: string, u: string)
  {
    u != "" && u != subject && exists e :: e in entries && Get(e, "user_id") == Some(u)
  }

  /** User `u` is another user whom hop 2 reports on address `ip`. */
  ghost predicate SeenOn(backend: AggBackend, subject: string, ip: string, u: string)
  {
    NamesAlt(Hop2(backend, ip), subject, u)
  }

  /** A user's entry turned into a candidate: the addresses sorted, and their number. */
  ghost function Finalised(u: string, ips: set<string>): Candidate
  {
    var l := SortedOf(ips);
    Candidate(u, |l|, l)
  }

  lemma FinaliseStep(order: seq<string>, shared: map<string, set<string>>, i: nat)
    requires i < |order| && forall u :: u in order ==> u in shared
    ensures Finalise(order[..i + 1], shared) == Finalise(order[..i], shared) + [Finalised(order[i], shared[order[i]])]
  {
    assert order[..i + 1][..i] == order[..i];
  }

  /** `for alt_data in potential_alts.values()`: one candidate per entry, in insertion order. */
  ghost function Finalise(order: seq<string>, shared: map<string, set<string>>): (r: seq<Candidate>)
    requires forall u :: u in order ==> u in shared
    ensures |r| == |order|
    ensures forall i :: 0 <= i < |order| ==> r[i] == Finalised(order[i], shared[order[i]])
  {
    if order == [] then []
    else Finalise(order[..|order| - 1], shared) + [Finalised(order[|order| - 1], shared[order[|order| - 1]])]
  }

  /** The finalised candidates, before ranking. */
  ghost function Candidates(backend: AggBackend, subject: string, ips: seq<string>): seq<Candidate>
  {
    var t := TallyOf(Edges(backend, subject, ips));
    TallyKeys(Edges(backend, subject, ips));
    Finalise(t.order, t.shared)
  }

  /** The ranked candidate list. */
  ghost function Ranked(backend: AggBackend, subject: string, ips: seq<string>): seq<Candidate>
  {
    Rank(Candidates(backend, subject, ips))
  }

  /** `find_alts` stops before hop 2: the subject is empty, or hop 1 answers nothing, an error
      marker, or no entry with an `ip` field. */
  predicate StopsAfterHop1(backend: AggBackend, subject: string)
  {
    || subject == ""
    || |Hop1(backend, subject)| == 0
    || HasErrorMarker(Hop1(backend, subject))
    || forall e :: e in Hop1(backend, subject) ==> Get(e, "ip").None?
  }

  /** The addresses hop 1 yields when the correlation goes on to hop 2, or `None` when it stops
      early: an empty subject, an empty or error-marked hop-1 answer, or no `ip` field in it. */
  ghost function Hop1Ips(backend: AggBackend, subject: string): Option<seq<string>>
  {
    if subject == "" then None
    else
      var h := Hop1(backend, subject);
      if |h| == 0 || HasErrorMarker(h) then None
      else
        var ips := IpAddresses(h);
        if |ips| == 0 then None else Some(ips)
  }

  /** The early exits are exactly the cases where hop 1 yields no address to expand. */
  lemma StopsAfterHop1Exactly(backend: AggBackend, subject: string)
    ensures Hop1Ips(backend, subject).None? <==> StopsAfterHop1(backend, subject)
  {
    if subject != "" {
      var ips := IpAddresses(Hop1(backend, subject));
      if |ips| > 0 {
        assert ips[0] in ips;
      }
    }
  }

  /** `find_alts(user_id, page, size)`: one page of the ranked candidates, and their number. */
  ghost function FindAltsResult(backend: AggBackend, subject: string, page: int, size: int): (seq<Candidate>, int)
  {
    match Hop1Ips(backend, subject)
    case None => ([], 0)
    case Some(ips) =>
      var r := Ranked(backend, subject, ips);
      (Page(r, page, size), |r|)
  }

  /** The inner loop of `find_alts` over one address's hop-2 entries: every entry naming another
      user adds the address to that user's set, creating the entry on first sight. */
  method TallyUsers(ip: string, usersData: seq<Entry>, subject: string,
                    order: seq<string>, potentialAlts: map<string, set<string>>, ghost before: seq<Edge>)
    returns (order': seq<string>, potentialAlts': map<string, set<string>>)
    requires Tally(order, potentialAlts) == TallyOf(before)
    ensures Tally(order', potentialAlts') == TallyOf(before + EntryEdges(ip, usersData, subject))
  {
    order', potentialAlts' := order, potentialAlts;
    var j := 0;
    assert before + EntryEdges(ip, usersData[..0], subject) == before;
    while j < |usersData|
      invariant 0 <= j <= |usersData|
      invariant Tally(order', potentialAlts') == TallyOf(before + EntryEdges(ip, usersData[..j], subject))
    {
      TallyUsersStep(ip, usersData, j, subject, before);
      var altUserId := Get(usersData[j], "user_id");
      if altUserId.Some? && altUserId.value != "" && altUserId.value != subject {
        order', potentialAlts' := Record(order', potentialAlts', Edge(ip, altUserId.value));
      }
      j := j + 1;
    }
    assert usersData[..j] == usersData;
  }

  /** One more hop-2 entry is one more tally step when it names another user, and none otherwise. */
  lemma TallyUsersStep(ip: string, usersData: seq<Entry>, j: nat, subject: string, before: seq<Edge>)
    requires j < |usersData|
    ensures var prev := TallyOf(before + EntryEdges(ip, usersData[..j], subject));
            TallyOf(before + EntryEdges(ip, usersData[..j + 1], subject))
            == if IsAlt(usersData[j], subject) then AddEdge(prev, Edge(ip, Get(usersData[j], "user_id").value)) else prev
  {
    var prev := EntryEdges(ip, usersData[..j], subject);
    EntryEdgesStep(ip, usersData, j, subject);
    if IsAlt(usersData[j], subject) {
      var e := Edge(ip, Get(usersData[j], "user_id").value);
      assert before + (prev + [e]) == (before + prev) + [e];
      TallyAppend(before + prev, e);
    } else {
      assert EntryEdges(ip, usersData[..j + 1], subject) == prev;
    }
  }

  /** The finalisation loop of `find_alts`: each entry, in insertion order, becomes a candidate
      with its addresses sorted and counted. */
  method FinaliseAll(order: seq<string>, potentialAlts: map<string, set<string>>) returns (results: seq<Candidate>)
    requires forall u :: u in order ==> u in potentialAlts
    ensures results == Finalise(order, potentialAlts)
  {
    results := [];
    var i := 0;
    while i < |order|
      invariant 0 <= i <= |order|
      invariant results == Finalise(order[..i], potentialAlts)
    {
      FinaliseStep(order, potentialAlts, i);
      var u := order[i];
      var sharedIps := SortSet(potentialAlts[u]);
      results := results + [Candidate(u, |sharedIps|, sharedIps)];
      i := i + 1;
    }
    assert order[..i] == order;
  }

  /** The hop-2 loop of `find_alts`: for each hop-1 address in turn, the users seen on it are
      tallied into `potential_alts` (user ids in insertion order, each with its shared addresses).
      `queries` records the hop-2 requests sent. */
  method TallyAddresses(backend: AggBackend, userId: string, ipAddresses: seq<string>)
    returns (order: seq<string>, potentialAlts: map<string, set<string>>, ghost queries: seq<AggQuery>)
    ensures Tally(order, potentialAlts) == TallyOf(Edges(backend, userId, ipAddresses))
    ensures queries == Hop2Queries(ipAddresses)
  {
    order, potentialAlts, queries := [], map[], [];
    var k := 0;
    assert ipAddresses[..0] == [];
    while k < |ipAddresses|
      invariant 0 <= k <= |ipAddresses|
      invariant Tally(order, potentialAlts) == TallyOf(Edges(backend, userId, ipAddresses[..k]))
      invariant queries == Hop2Queries(ipAddresses[..k])
    {
      var ip := ipAddresses[k];
      var usersData, _, q2 := UniqueUserSearch(backend, Some(ip), None, None, 1, Hop2Size);
      assert usersData == Hop2(backend, ip);
      EdgesStep(backend, userId, ipAddresses, k);
      queries := queries + q2;
      order, potentialAlts := TallyUsers(ip, usersData, userId, order, potentialAlts, Edges(backend, userId, ipAddresses[..k]));
      k := k + 1;
    }
    assert ipAddresses[..k] == ipAddresses;
  }

  /** `find_alts`: the two hops, the tally, finalisation, ranking and pagination. `queries`
      records the aggregation requests sent to the backend, in order. */
  method FindAlts(backend: AggBackend, userId: string, page: int, size: int)
    returns (results: seq<Candidate>, total: int, ghost queries: seq<AggQuery>)
    ensures (results, total) == FindAltsResult(backend, userId, page, size)
    ensures StopsAfterHop1(backend, userId) ==> results == [] && total == 0
    ensures userId == "" ==> queries == []
    ensures userId != "" ==> queries == [Hop1Query(userId)] + match Hop1Ips(backend, userId)
                                                             case None => []
                                                             case Some(ips) => Hop2Queries(ips)
  {
    if userId == "" {
      return [], 0, [];
    }
    StopsAfterHop1Exactly(backend, userId);
    var ipsData, _, q1 := UniqueIpSearch(backend, Some(userId), None, None, 1, Hop1Size);
    queries := q1;
    assert ipsData == Hop1(backend, userId) && q1 == [Hop1Query(userId)];
    if |ipsData| == 0 || HasErrorMarker(ipsData) {
      assert Hop1Ips(backend, userId) == None;
      return [], 0, queries;
    }
    var ipAddresses := IpAddresses(ipsData);
    if |ipAddresses| == 0 {
      assert Hop1Ips(backend, userId) == None;
      return [], 0, queries;
    }
    assert Hop1Ips(backend, userId) == Some(ipAddresses);
    ghost var q2;
    results, total, q2 := CorrelateAddresses(backend, userId, ipAddresses, page, size);
    queries := queries + q2;
  }

  /** Hop 2 and the rest of `find_alts` for the hop-1 addresses: tally, finalise, rank, and
      cut out the requested page. */
  method CorrelateAddresses(backend: AggBackend, userId: string, ipAddresses: seq<string>, page: int, size: int)
    returns (results: seq<Candidate>, total: int, ghost queries: seq<AggQuery>)
    ensures results == Page(Ranked(backend, userId, ipAddresses), page, size)
    ensures total == |Ranked(backend, userId, ipAddresses)|
    ensures queries == Hop2Queries(ipAddresses)
  {
    var order, potentialAlts;
    order, potentialAlts, queries := TallyAddresses(backend, userId, ipAddresses);
    TallyKeys(Edges(backend, userId, ipAddresses));
    var candidates := FinaliseAll(order, potentialAlts);
    assert candidates == Candidates(backend, userId, ipAddresses);
    candidates := Rank(candidates);
    total := |candidates|;
    var startIdx := (page - 1) * size;
    var endIdx := startIdx + size;
    results := Slice(candidates, startIdx, endIdx);
  }
}
