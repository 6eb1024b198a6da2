/** The `potential_alts` accumulator of the correlation engine: for every other user, the set of
    addresses shared with the subject, with users kept in the order they were first seen
    (Python dicts iterate in insertion order). */
module AltTally {

  /** One discovered co-occurrence: `user` was seen on address `ip`. */
  datatype Edge = Edge(ip: string, user: string)

  /** The accumulator: the user ids in insertion order, and each one's shared addresses. */
  datatype Tally = Tally(order: seq<string>, shared: map<string, set<string>>)

  const Empty := Tally([], map[])

  /** One step of the tally: create the user's entry on first sight, then add the address to it. */
  function AddEdge(t: Tally, e: Edge): Tally
  {
    var t' := if e.user in t.shared then t else Tally(t.order + [e.user], t.shared[e.user := {}]);
    Tally(t'.order, t'.shared[e.user := t'.shared[e.user] + {e.ip}])
  }

  /** The tally after processing the edges in order. */
  function TallyOf(es: seq<Edge>): Tally
  {
    if es == [] then Empty else AddEdge(TallyOf(es[..|es| - 1]), es[|es| - 1])
  }

  /** Processing one more edge is one more step. */
  lemma TallyAppend(es: seq<Edge>, e: Edge)
    ensures TallyOf(es + [e]) == AddEdge(TallyOf(es), e)
  {
    assert (es + [e])[..|es|] == es;
  }

  /** The dictionary update for one edge: `potential_alts[u]` is created with an empty set on
      first sight, then the address is added to it. */
  method Record(order: seq<string>, shared: map<string, set<string>>, e: Edge)
    returns (order': seq<string>, shared': map<string, set<string>>)
    ensures Tally(order', shared') == AddEdge(Tally(order, shared), e)
  {
    order', shared' := order, shared;
    if e.user !in shared' {
      order' := order' + [e.user];
      shared' := shared'[e.user := {}];
    }
    shared' := shared'[e.user := shared'[e.user] + {e.ip}];
  }

  function Users(es: seq<Edge>): (us: seq<string>)
    ensures |us| == |es| && forall i :: 0 <= i < |es| ==> us[i] == es[i].user
  {
    if es == [] then [] else Users(es[..|es| - 1]) + [es[|es| - 1].user]
  }

  lemma {:induction false} UsersMembers(es: seq<Edge>)
    ensures forall u :: u in Users(es) <==> exists ip :: Edge(ip, u) in es
  {
    forall u ensures u in Users(es) <==> exists ip :: Edge(ip, u) in es {
      if u in Users(es) {
        var k :| 0 <= k < |es| && Users(es)[k] == u;
        assert Edge(es[k].ip, u) == es[k];
      }
      if exists ip :: Edge(ip, u) in es {
        var ip :| Edge(ip, u) in es;
        var k :| 0 <= k < |es| && es[k] == Edge(ip, u);
        assert Users(es)[k] == u;
      }
    }
  }

  /** The position of the first occurrence of `x`, or `|s|` when there is none. */
  function First(s: seq<string>, x: string): (k: nat)
    ensures k <= |s| && (k < |s| <==> x in s)
    ensures k < |s| ==> s[k] == x
    ensures forall i :: 0 <= i < k ==> s[i] != x
  {
    if s == [] then 0 else if s[0] == x then 0 else 1 + First(s[1..], x)
  }

  lemma FirstAt(s: seq<string>, x: string, k: nat)
    requires k < |s| && s[k] == x && forall i :: 0 <= i < k ==> s[i] != x
    ensures First(s, x) == k
  {
  }

  ghost predicate NoDuplicates(s: seq<string>)
  {
    forall i, j :: 0 <= i < j < |s| ==> s[i] != s[j]
  }

  /** The keys of the tally, listed once each and in the order of their first edge. */
  ghost predicate OrderedKeys(t: Tally, es: seq<Edge>)
  {
    && NoDuplicates(t.order)
    && (forall u :: u in t.order <==> u in t.shared)
    && (forall u :: u in t.order ==> u in Users(es))
    && OrderedBy(t.order, Users(es))
  }

  /** The elements of `o` occur in `us`, and in `o` they follow the order of their first occurrence in `us`. */
  ghost predicate OrderedBy(o: seq<string>, us: seq<string>)
  {
    forall i, j :: 0 <= i < j < |o| ==> First(us, o[i]) < First(us, o[j])
  }

  lemma OrderedByAppend(o: seq<string>, ps: seq<string>, y: string)
    requires OrderedBy(o, ps) && (forall u :: u in o ==> u in ps) && y !in ps
    ensures OrderedBy(o + [y], ps + [y])
  {
    FirstExtend(ps, y);
    var o2, us := o + [y], ps + [y];
    forall i, j | 0 <= i < j < |o2| ensures First(us, o2[i]) < First(us, o2[j]) {
      assert o2[i] == o[i] && o[i] in ps;
      if j < |o| {
        assert o2[j] == o[j] && o[j] in ps;
      }
    }
  }

  lemma OrderedByExtend(o: seq<string>, ps: seq<string>, y: string)
    requires OrderedBy(o, ps) && (forall u :: u in o ==> u in ps)
    ensures OrderedBy(o, ps + [y])
  {
    FirstExtend(ps, y);
  }

  lemma {:induction false} TallyKeys(es: seq<Edge>)
    ensures forall u :: u in TallyOf(es).shared <==> u in Users(es)
    ensures forall u :: u in TallyOf(es).order <==> u in TallyOf(es).shared
  {
    if es != [] {
      var n := |es| - 1;
      TallyKeys(es[..n]);
      assert Users(es) == Users(es[..n]) + [es[n].user];
    }
  }

  /** An address is in a user's set exactly when the edge between them was seen. */
  lemma {:induction false} TallyShared(es: seq<Edge>)
    ensures forall u, ip :: u in TallyOf(es).shared ==> (ip in TallyOf(es).shared[u] <==> Edge(ip, u) in es)
  {
    if es != [] {
      var n := |es| - 1;
      var pre, e := es[..n], es[n];
      assert es == pre + [e];
      TallyShared(pre);
      TallyKeys(pre);
      AddEdgeShared(TallyOf(pre), e);
      forall u, ip | u in TallyOf(es).shared ensures ip in TallyOf(es).shared[u] <==> Edge(ip, u) in es {
        assert Edge(ip, u) in es <==> Edge(ip, u) in pre || Edge(ip, u) == e;
      }
    }
  }

  /** One step adds exactly the edge's address to the edge's user, creating the user if new. */
  lemma AddEdgeShared(t: Tally, e: Edge)
    ensures forall u :: u in AddEdge(t, e).shared <==> u in t.shared || u == e.user
    ensures forall u, ip :: u in AddEdge(t, e).shared ==>
              (ip in AddEdge(t, e).shared[u] <==> (u in t.shared && ip in t.shared[u]) || (u == e.user && ip == e.ip))
  {
  }

  /** The tally lists each user once, in the order of the user's first edge. */
  lemma {:induction false} TallyOrder(es: seq<Edge>)
    ensures OrderedKeys(TallyOf(es), es)
  {
    if es != [] {
      var n := |es| - 1;
      var pre, e := es[..n], es[n];
      assert pre + [e] == es;
      TallyOrder(pre);
      TallyKeys(pre);
      OrderStep(pre, e);
    }
  }

  lemma FirstExtend(ps: seq<string>, y: string)
    ensures forall u :: u in ps ==> First(ps + [y], u) == First(ps, u)
    ensures y !in ps ==> First(ps + [y], y) == |ps|
  {
    forall u | u in ps ensures First(ps + [y], u) == First(ps, u) {
      FirstAt(ps + [y], u, First(ps, u));
    }
    if y !in ps {
      FirstAt(ps + [y], y, |ps|);
    }
  }

  lemma OrderStep(pre: seq<Edge>, e: Edge)
    requires OrderedKeys(TallyOf(pre), pre)
    requires forall u :: u in TallyOf(pre).shared <==> u in Users(pre)
    ensures OrderedKeys(TallyOf(pre + [e]), pre + [e])
  {
    var es := pre + [e];
    assert es[..|pre|] == pre;
    assert Users(es) == Users(pre) + [e.user];
    var t := TallyOf(pre);
    assert TallyOf(es) == AddEdge(t, e);
    if e.user in t.shared {
      OrderedByExtend(t.order, Users(pre), e.user);
    } else {
      OrderedByAppend(t.order, Users(pre), e.user);
    }
  }

  /** What the tally holds: an entry exactly for every user with an edge, listed once each in
      order of first discovery, and an address in a user's set exactly when that edge was seen. */
  lemma TallySpec(es: seq<Edge>)
    ensures OrderedKeys(TallyOf(es), es)
    ensures forall u :: u in TallyOf(es).shared <==> u in Users(es)
    ensures forall u, ip :: u in TallyOf(es).shared ==> (ip in TallyOf(es).shared[u] <==> Edge(ip, u) in es)
  {
    TallyKeys(es);
    TallyShared(es);
    TallyOrder(es);
  }
}
