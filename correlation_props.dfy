/** What `find_alts` guarantees about its candidates, its ranking and its pages. */
module CorrelationProps {
  import opened Wrappers
  import opened PySlice
  import opened Aggregator
  import opened StrOrder
  import opened Ranking
  import opened AltTally
  import opened Correlation

  /** One address contributes an edge to exactly the other users its entries name. */
  lemma {:induction false} EntryEdgesSpec(ip: string, entries: seq<Entry>, subject: string)
    ensures forall e :: e in EntryEdges(ip, entries, subject) <==> e.ip == ip && NamesAlt(entries, subject, e.user)
  {
    if entries != [] {
      var n := |entries| - 1;
      var pre, last := entries[..n], entries[n];
      EntryEdgesSpec(ip, pre, subject);
      assert entries == pre + [last];
      forall x ensures x in entries <==> x in pre || x == last { }
      forall u ensures NamesAlt(entries, subject, u) <==> NamesAlt(pre, subject, u) || (IsAlt(last, subject) && Get(last, "user_id").value == u) {
        if NamesAlt(entries, subject, u) && !NamesAlt(pre, subject, u) {
          var x :| x in entries && Get(x, "user_id") == Some(u);
          assert x == last;
        }
      }
    }
  }

  /** Hop 2 discovers the edge (ip, u) exactly when ip is a hop-1 address and hop 2 reports
      on it another user u. */
  lemma {:induction false} EdgesSpec(backend: AggBackend, subject: string, ips: seq<string>)
    ensures forall ip, u :: Edge(ip, u) in Edges(backend, subject, ips) <==> ip in ips && SeenOn(backend, subject, ip, u)
  {
    if ips != [] {
      var n := |ips| - 1;
      var pre, last := ips[..n], ips[n];
      var older, newer := Edges(backend, subject, pre), EntryEdges(last, Hop2(backend, last), subject);
      assert Edges(backend, subject, ips) == older + newer;
      EdgesSpec(backend, subject, pre);
      EntryEdgesSpec(last, Hop2(backend, last), subject);
      assert ips == pre + [last];
      forall ip, u ensures Edge(ip, u) in older + newer <==> ip in ips && SeenOn(backend, subject, ip, u) {
        assert Edge(ip, u) in older + newer <==> Edge(ip, u) in older || Edge(ip, u) in newer;
        assert ip in ips <==> ip in pre || ip == last;
      }
    }
  }

  /** Every ranked candidate is the finalised entry of a user the tally holds. */
  lemma RankedMembers(backend: AggBackend, subject: string, ips: seq<string>)
    ensures var t := TallyOf(Edges(backend, subject, ips));
            forall c :: c in Ranked(backend, subject, ips) ==>
              c.userId in t.order && c.userId in t.shared && c == Finalised(c.userId, t.shared[c.userId])
  {
    var es := Edges(backend, subject, ips);
    var t := TallyOf(es);
    TallyKeys(es);
    var cs := Candidates(backend, subject, ips);
    assert cs == Finalise(t.order, t.shared);
    RankMembers(cs);
    FinaliseMembers(t.order, t.shared);
  }

  /** Every finalised candidate is the finalisation of one of the listed users. */
  lemma FinaliseMembers(order: seq<string>, shared: map<string, set<string>>)
    requires forall u :: u in order ==> u in shared
    ensures forall c :: c in Finalise(order, shared) ==>
              c.userId in order && c.userId in shared && c == Finalised(c.userId, shared[c.userId])
  {
    var cs := Finalise(order, shared);
    forall c | c in cs
      ensures c.userId in order && c.userId in shared && c == Finalised(c.userId, shared[c.userId])
    {
      var i :| 0 <= i < |cs| && cs[i] == c;
      assert c == Finalised(order[i], shared[order[i]]);
    }
  }

  /** Self-exclusion: the subject, and a missing or empty user id, never become a candidate. */
  lemma SelfExcluded(backend: AggBackend, subject: string, ips: seq<string>)
    ensures forall c :: c in Ranked(backend, subject, ips) ==> c.userId != subject && c.userId != ""
  {
    var es := Edges(backend, subject, ips);
    RankedMembers(backend, subject, ips);
    TallyKeys(es);
    UsersMembers(es);
    EdgesSpec(backend, subject, ips);
    forall c | c in Ranked(backend, subject, ips) ensures c.userId != subject && c.userId != "" {
      var ip :| Edge(ip, c.userId) in es;
      assert SeenOn(backend, subject, ip, c.userId);
    }
  }

  /** Each candidate's shared addresses are sorted ascending without duplicates, and
      `shared_ip_count` is their number. */
  lemma SharedIpsSorted(backend: AggBackend, subject: string, ips: seq<string>)
    ensures forall c :: c in Ranked(backend, subject, ips) ==>
              StrictlyAscending(c.sharedIps) && c.sharedIpCount == |c.sharedIps| >= 1
  {
    var es := Edges(backend, subject, ips);
    var t := TallyOf(es);
    RankedMembers(backend, subject, ips);
    TallyShared(es);
    UsersMembers(es);
    TallyKeys(es);
    forall c | c in Ranked(backend, subject, ips) ensures StrictlyAscending(c.sharedIps) && c.sharedIpCount == |c.sharedIps| >= 1 {
      SortedOfSpec(t.shared[c.userId]);
      var ip :| Edge(ip, c.userId) in es;
      assert ip in t.shared[c.userId];
      assert ip in c.sharedIps;
    }
  }

  /** An address is among candidate B's shared addresses exactly when it is a hop-1 address and
      hop 2 reports B on it. */
  lemma SharedIpsExact(backend: AggBackend, subject: string, ips: seq<string>)
    ensures forall c, ip :: c in Ranked(backend, subject, ips) ==>
              (ip in c.sharedIps <==> ip in ips && SeenOn(backend, subject, ip, c.userId))
  {
    var es := Edges(backend, subject, ips);
    var t := TallyOf(es);
    RankedMembers(backend, subject, ips);
    TallyShared(es);
    EdgesSpec(backend, subject, ips);
    forall c, ip | c in Ranked(backend, subject, ips)
      ensures ip in c.sharedIps <==> ip in ips && SeenOn(backend, subject, ip, c.userId)
    {
      SortedOfSpec(t.shared[c.userId]);
    }
  }

  /** Some ranked candidate is user `u`. */
  ghost predicate IsCandidate(r: seq<Candidate>, u: string)
  {
    exists c :: c in r && c.userId == u
  }

  /** Hop 2 reports the other user `u` on at least one hop-1 address. */
  ghost predicate SeenSomewhere(backend: AggBackend, subject: string, ips: seq<string>, u: string)
  {
    exists ip :: ip in ips && SeenOn(backend, subject, ip, u)
  }

  /** No user appears twice among the candidates. */
  lemma CandidatesDistinct(backend: AggBackend, subject: string, ips: seq<string>)
    ensures DistinctIds(Ranked(backend, subject, ips))
  {
    var es := Edges(backend, subject, ips);
    var t := TallyOf(es);
    var cs := Candidates(backend, subject, ips);
    TallyOrder(es);
    forall i, j | 0 <= i < j < |cs| ensures cs[i].userId != cs[j].userId {
      assert cs[i].userId == t.order[i] && cs[j].userId == t.order[j];
    }
    RankDistinct(cs);
  }

  /** Each distinct other user seen on a hop-1 address yields exactly one candidate, and no one else does. */
  lemma OneCandidatePerUser(backend: AggBackend, subject: string, ips: seq<string>)
    ensures DistinctIds(Ranked(backend, subject, ips))
    ensures forall u :: IsCandidate(Ranked(backend, subject, ips), u) <==> SeenSomewhere(backend, subject, ips, u)
  {
    CandidatesDistinct(backend, subject, ips);
    forall u ensures IsCandidate(Ranked(backend, subject, ips), u) ==> SeenSomewhere(backend, subject, ips, u) {
      if IsCandidate(Ranked(backend, subject, ips), u) {
        CandidateSeen(backend, subject, ips, u);
      }
    }
    forall u ensures SeenSomewhere(backend, subject, ips, u) ==> IsCandidate(Ranked(backend, subject, ips), u) {
      if SeenSomewhere(backend, subject, ips, u) {
        SeenCandidate(backend, subject, ips, u);
      }
    }
  }

  lemma CandidateSeen(backend: AggBackend, subject: string, ips: seq<string>, u: string)
    requires IsCandidate(Ranked(backend, subject, ips), u)
    ensures SeenSomewhere(backend, subject, ips, u)
  {
    var es := Edges(backend, subject, ips);
    RankedMembers(backend, subject, ips);
    TallyKeys(es);
    UsersMembers(es);
    EdgesSpec(backend, subject, ips);
    var c :| c in Ranked(backend, subject, ips) && c.userId == u;
    var ip :| Edge(ip, u) in es;
    assert ip in ips && SeenOn(backend, subject, ip, u);
  }

  lemma SeenCandidate(backend: AggBackend, subject: string, ips: seq<string>, u: string)
    requires SeenSomewhere(backend, subject, ips, u)
    ensures IsCandidate(Ranked(backend, subject, ips), u)
  {
    var es := Edges(backend, subject, ips);
    var t := TallyOf(es);
    var cs := Candidates(backend, subject, ips);
    var r := Ranked(backend, subject, ips);
    TallyKeys(es);
    UsersMembers(es);
    EdgesSpec(backend, subject, ips);
    var ip :| ip in ips && SeenOn(backend, subject, ip, u);
    assert Edge(ip, u) in es;
    assert u in Users(es);
    assert u in t.order;
    var i :| 0 <= i < |t.order| && t.order[i] == u;
    assert cs[i].userId == u;
    assert multiset(r) == multiset(cs);
    assert multiset(r)[cs[i]] > 0;
    assert cs[i] in r;
  }

  /** The ranked list is ordered by shared-address count, largest first, is a permutation of the
      finalised candidates, and keeps the finalised order among candidates of equal count. */
  lemma RankedOrder(backend: AggBackend, subject: string, ips: seq<string>)
    ensures Descending(Ranked(backend, subject, ips))
    ensures multiset(Ranked(backend, subject, ips)) == multiset(Candidates(backend, subject, ips))
    ensures forall n :: WithCount(Ranked(backend, subject, ips), n) == WithCount(Candidates(backend, subject, ips), n)
  {
    RankDescending(Candidates(backend, subject, ips));
    forall n ensures WithCount(Ranked(backend, subject, ips), n) == WithCount(Candidates(backend, subject, ips), n) {
      RankStable(Candidates(backend, subject, ips), n);
    }
  }

  /** The finalised candidates, and so (by stability) candidates of equal count in the ranked
      list, come in the order in which hop 2 first discovered their users. */
  lemma CandidatesInDiscoveryOrder(backend: AggBackend, subject: string, ips: seq<string>)
    ensures var us := Users(Edges(backend, subject, ips));
            var cs := Candidates(backend, subject, ips);
            forall i, j :: 0 <= i < j < |cs| ==> First(us, cs[i].userId) < First(us, cs[j].userId) < |us|
  {
    var es := Edges(backend, subject, ips);
    var t := TallyOf(es);
    var cs := Candidates(backend, subject, ips);
    TallyKeys(es);
    TallyOrder(es);
    forall i, j | 0 <= i < j < |cs| ensures First(Users(es), cs[i].userId) < First(Users(es), cs[j].userId) < |Users(es)| {
      assert cs[i].userId == t.order[i] && cs[j].userId == t.order[j];
      assert t.order[j] in Users(es);
    }
  }

  /** For a valid page when hop 1 yields addresses: `total` is the number of candidates whatever
      the page, the page holds at most `size` of them, and its i-th element is ranked candidate
      `(page-1)*size + i`. */
  lemma FindAltsPaging(backend: AggBackend, subject: string, ips: seq<string>, page: int, size: int)
    requires Hop1Ips(backend, subject) == Some(ips)
    requires page >= 1 && size >= 0
    ensures FindAltsResult(backend, subject, page, size).1 == |Ranked(backend, subject, ips)|
    ensures IsPageOf(FindAltsResult(backend, subject, page, size).0, Ranked(backend, subject, ips), page, size)
  {
    PageAt(Ranked(backend, subject, ips), page, size);
  }

  /** The page lists `find_alts` answers for a fixed subject and page size, by page number. */
  ghost function AnswerPages(backend: AggBackend, subject: string, size: int): nat -> seq<Candidate>
  {
    p => FindAltsResult(backend, subject, p, size).0
  }

  /** Pages 1 to k of `find_alts`, concatenated. */
  ghost function ResultPages(backend: AggBackend, subject: string, k: nat, size: int): seq<Candidate>
  {
    Concat(AnswerPages(backend, subject, size), k)
  }

  lemma ResultPagesArePages(backend: AggBackend, subject: string, ips: seq<string>, k: nat, size: int)
    requires Hop1Ips(backend, subject) == Some(ips)
    ensures ResultPages(backend, subject, k, size) == Pages(Ranked(backend, subject, ips), k, size)
  {
    var f := AnswerPages(backend, subject, size);
    var r := Ranked(backend, subject, ips);
    forall p: nat | 1 <= p <= k ensures f(p) == Page(r, p, size) {
      PageOfRanking(backend, subject, ips, p, size);
    }
    ConcatPages(f, r, k, size);
  }

  lemma PageOfRanking(backend: AggBackend, subject: string, ips: seq<string>, page: int, size: int)
    requires Hop1Ips(backend, subject) == Some(ips)
    ensures FindAltsResult(backend, subject, page, size) == (Page(Ranked(backend, subject, ips), page, size), |Ranked(backend, subject, ips)|)
  {
  }

  /** Concatenating consecutive pages reproduces the ranked list with nothing repeated or lost:
      once the pages reach the total, they add up to the single page that holds everything. */
  lemma PagesReproduceRanking(backend: AggBackend, subject: string, k: nat, size: int, all: int)
    requires size >= 0 && k * size >= FindAltsResult(backend, subject, 1, all).1 && all >= FindAltsResult(backend, subject, 1, all).1
    ensures ResultPages(backend, subject, k, size) == FindAltsResult(backend, subject, 1, all).0
  {
    match Hop1Ips(backend, subject)
    case None =>
      assert ResultPages(backend, subject, k, size) == [] by {
        NoPagesWithoutHop1(backend, subject, k, size);
      }
    case Some(ips) =>
      var r := Ranked(backend, subject, ips);
      PageOfRanking(backend, subject, ips, 1, all);
      ResultPagesArePages(backend, subject, ips, k, size);
      PagesCover(r, k, size);
      FirstPageWhole(r, all);
  }

  lemma {:induction false} NoPagesWithoutHop1(backend: AggBackend, subject: string, k: nat, size: int)
    requires Hop1Ips(backend, subject).None?
    ensures ResultPages(backend, subject, k, size) == []
  {
    if k > 0 {
      NoPagesWithoutHop1(backend, subject, k - 1, size);
      assert AnswerPages(backend, subject, size)(k) == [];
    }
  }
}
