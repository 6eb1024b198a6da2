/** Alt candidates and their ranking: Python's stable sort by shared-address count, descending. */
module Ranking {

  /** A finalised alt candidate: `{user_id, shared_ip_count, shared_ips}`. */
  datatype Candidate = Candidate(userId: string, sharedIpCount: int, sharedIps: seq<string>)

  /** Places `x` in front of the first element whose count is not larger than its own. */
  function InsertByCount(x: Candidate, r: seq<Candidate>): (t: seq<Candidate>)
    ensures multiset(t) == multiset(r) + multiset{x}
  {
    if r == [] || x.sharedIpCount >= r[0].sharedIpCount then [x] + r
    else assert r == [r[0]] + r[1..]; [r[0]] + InsertByCount(x, r[1..])
  }

  /** `results.sort(key=lambda x: x["shared_ip_count"], reverse=True)`. Python's sort is stable,
      also with `reverse=True`: inserting each candidate in front of the later ones of equal
      count keeps equal counts in their original order. The result is a permutation. */
  function Rank(cs: seq<Candidate>): (r: seq<Candidate>)
    ensures multiset(r) == multiset(cs)
  {
    if cs == [] then [] else assert cs == [cs[0]] + cs[1..]; InsertByCount(cs[0], Rank(cs[1..]))
  }

  ghost predicate Descending(r: seq<Candidate>)
  {
    forall i, j :: 0 <= i < j < |r| ==> r[i].sharedIpCount >= r[j].sharedIpCount
  }

  /** The candidates whose count is `c`, in their order in `r`. */
  function WithCount(r: seq<Candidate>, c: int): seq<Candidate>
  {
    if r == [] then []
    else (if r[0].sharedIpCount == c then [r[0]] else []) + WithCount(r[1..], c)
  }

  ghost predicate DistinctIds(r: seq<Candidate>)
  {
    forall i, j :: 0 <= i < j < |r| ==> r[i].userId != r[j].userId
  }

  /** Ranking keeps exactly the candidates it is given. */
  lemma RankMembers(cs: seq<Candidate>)
    ensures forall c :: c in Rank(cs) <==> c in cs
  {
    forall c ensures c in Rank(cs) <==> c in cs {
      assert c in Rank(cs) <==> multiset(Rank(cs))[c] > 0;
      assert c in cs <==> multiset(cs)[c] > 0;
    }
  }

  lemma InsertMembers(x: Candidate, r: seq<Candidate>)
    ensures forall y :: y in InsertByCount(x, r) <==> y == x || y in r
  {
    var t := InsertByCount(x, r);
    forall y ensures y in t <==> y == x || y in r {
      assert y in t <==> multiset(t)[y] > 0;
      assert y in r <==> multiset(r)[y] > 0;
    }
  }

  lemma {:induction false} InsertDescending(x: Candidate, r: seq<Candidate>)
    requires Descending(r)
    ensures Descending(InsertByCount(x, r))
  {
    if !(r == [] || x.sharedIpCount >= r[0].sharedIpCount) {
      var t := InsertByCount(x, r[1..]);
      InsertDescending(x, r[1..]);
      InsertMembers(x, r[1..]);
      var u := [r[0]] + t;
      forall i, j | 0 <= i < j < |u| ensures u[i].sharedIpCount >= u[j].sharedIpCount {
        if i == 0 {
          assert u[j] in t;
          if u[j] != x {
            var k :| 0 <= k < |r[1..]| && r[1..][k] == u[j];
            assert r[k + 1] == u[j];
          }
        } else {
          assert u[i] == t[i - 1] && u[j] == t[j - 1];
        }
      }
    }
  }

  /** The ranked list is ordered by count, largest first. */
  lemma {:induction false} RankDescending(cs: seq<Candidate>)
    ensures Descending(Rank(cs))
  {
    if cs != [] {
      RankDescending(cs[1..]);
      InsertDescending(cs[0], Rank(cs[1..]));
    }
  }

  lemma {:induction false} InsertWithCount(x: Candidate, r: seq<Candidate>, c: int)
    ensures WithCount(InsertByCount(x, r), c) == (if x.sharedIpCount == c then [x] else []) + WithCount(r, c)
  {
    if r == [] || x.sharedIpCount >= r[0].sharedIpCount {
      assert ([x] + r)[1..] == r;
    } else {
      var t := InsertByCount(x, r[1..]);
      InsertWithCount(x, r[1..], c);
      assert ([r[0]] + t)[1..] == t;
      assert WithCount(r, c) == (if r[0].sharedIpCount == c then [r[0]] else []) + WithCount(r[1..], c);
    }
  }

  /** Stability: among candidates of any one count, the ranked list keeps the input order. */
  lemma {:induction false} RankStable(cs: seq<Candidate>, c: int)
    ensures WithCount(Rank(cs), c) == WithCount(cs, c)
  {
    if cs != [] {
      RankStable(cs[1..], c);
      InsertWithCount(cs[0], Rank(cs[1..]), c);
    }
  }

  lemma {:induction false} InsertDistinct(x: Candidate, r: seq<Candidate>)
    requires DistinctIds(r)
    requires forall y :: y in r ==> y.userId != x.userId
    ensures DistinctIds(InsertByCount(x, r))
  {
    if !(r == [] || x.sharedIpCount >= r[0].sharedIpCount) {
      var t := InsertByCount(x, r[1..]);
      InsertDistinct(x, r[1..]);
      InsertMembers(x, r[1..]);
      var u := [r[0]] + t;
      forall i, j | 0 <= i < j < |u| ensures u[i].userId != u[j].userId {
        if i == 0 {
          assert u[j] in t;
          if u[j] != x {
            var k :| 0 <= k < |r[1..]| && r[1..][k] == u[j];
            assert r[k + 1] == u[j];
          }
        } else {
          assert u[i] == t[i - 1] && u[j] == t[j - 1];
        }
      }
    }
  }

  /** Ranking never makes two candidates share a user id. */
  lemma {:induction false} RankDistinct(cs: seq<Candidate>)
    requires DistinctIds(cs)
    ensures DistinctIds(Rank(cs))
  {
    if cs != [] {
      RankDistinct(cs[1..]);
      forall y | y in Rank(cs[1..]) ensures y.userId != cs[0].userId {
        assert multiset(Rank(cs[1..]))[y] > 0;
        var k :| 0 <= k < |cs[1..]| && cs[1..][k] == y;
        assert cs[k + 1] == y;
      }
      InsertDistinct(cs[0], Rank(cs[1..]));
    }
  }
}
