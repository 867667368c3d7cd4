/** Shortest walks from the best bridge of a component: what the spanning tree is to find. */
module StpPaths {
  import opened StpBridge
  import opened StpNetwork

  /** Some walk of links leads from r to b. */
  ghost predicate Reaches(net: Net, r: nat, b: nat) {
    exists w :: IsWalk(net, w) && First(w) == r && Last(w) == b
  }

  /** Bridge r has the lowest identifier of all bridges connected to b. */
  ghost predicate BestFor(net: Net, r: nat, b: nat) {
    && r < |net.bridges| && Reaches(net, r, b)
    && forall x :: 0 <= x < |net.bridges| && Reaches(net, x, b) ==> net.bridges[r].id.Rank() <= net.bridges[x].id.Rank()
  }

  /** A walk from the best bridge of its component that is as cheap as any. */
  ghost predicate BestWalk(net: Net, w: Walk) {
    && IsWalk(net, w) && BestFor(net, First(w), Last(w))
    && forall v :: IsWalk(net, v) && First(v) == First(w) && Last(v) == Last(w) ==> Cost(net, w) <= Cost(net, v)
  }

  /** Every best walk to b has at most k links. */
  ghost predicate Within(net: Net, b: nat, k: nat) {
    forall w :: BestWalk(net, w) && Last(w) == b ==> Links(w) <= k
  }

  /** Every best walk to b has more than k links. */
  ghost predicate Beyond(net: Net, b: nat, k: nat) {
    forall w :: BestWalk(net, w) && Last(w) == b ==> Links(w) > k
  }

  lemma SameBridge(net: Net, i: nat, j: nat)
    requires WellFormed(net) && i < |net.bridges| && j < |net.bridges| && net.bridges[i].id == net.bridges[j].id
    ensures i == j
  {
  }

  // ----- Components -----

  lemma {:induction false} ReachesExtends(net: Net, r: nat, w: Walk)
    requires WellFormed(net) && IsWalk(net, w)
    ensures Reaches(net, r, First(w)) <==> Reaches(net, r, Last(w))
  {
    if w.Hop? {
      ReachesExtends(net, r, w.prior);
      if Reaches(net, r, Last(w.prior)) {
        var u :| IsWalk(net, u) && First(u) == r && Last(u) == Last(w.prior);
        assert IsWalk(net, Hop(u, w.via)) && First(Hop(u, w.via)) == r && Last(Hop(u, w.via)) == Last(w);
      }
      if Reaches(net, r, Last(w)) {
        var f := net.peer[w.via];
        var u :| IsWalk(net, u) && First(u) == r && Last(u) == Last(w);
        assert IsWalk(net, Hop(u, f)) && First(Hop(u, f)) == r && Last(Hop(u, f)) == Last(w.prior);
      }
    }
  }

  /** Connected bridges have the same best bridge. */
  lemma BestIsShared(net: Net, r: nat, a: nat, b: nat)
    requires WellFormed(net) && BestFor(net, r, a) && Reaches(net, a, b)
    ensures BestFor(net, r, b)
  {
    var w :| IsWalk(net, w) && First(w) == a && Last(w) == b;
    forall x | 0 <= x < |net.bridges| ensures Reaches(net, x, a) <==> Reaches(net, x, b) {
      ReachesExtends(net, x, w);
    }
  }

  /** The two ends of a link have the same best bridge. */
  lemma PeersShareBest(net: Net, r: nat, f: Endpoint)
    requires WellFormed(net) && f in net.peer && BestFor(net, r, f.bridge)
    ensures BestFor(net, r, net.peer[f].bridge)
  {
    var start := Origin(f.bridge);
    var w := Hop(start, net.peer[f]);
    assert IsWalk(net, start) && First(start) == Last(start) == f.bridge;
    assert IsEndpoint(net, f) && IsEndpoint(net, net.peer[f]) && net.peer[net.peer[f]] == f;
    assert IsWalk(net, w) && First(w) == f.bridge && Last(w) == net.peer[f].bridge;
    assert Reaches(net, f.bridge, net.peer[f].bridge);
    BestIsShared(net, r, f.bridge, net.peer[f].bridge);
  }

  lemma BestIsUnique(net: Net, r: nat, x: nat, b: nat)
    requires WellFormed(net) && BestFor(net, r, b) && BestFor(net, x, b)
    ensures r == x
  {
    RankInjective(net.bridges[r].id, net.bridges[x].id);
    SameBridge(net, r, x);
  }

  /** Every bridge has a best bridge: the lowest identifier among those connected to it. */
  lemma {:induction false} BestExists(net: Net, b: nat, k: nat) returns (r: nat)
    requires b < |net.bridges| && k <= |net.bridges|
    ensures r < |net.bridges| && Reaches(net, r, b)
    ensures net.bridges[r].id.Rank() <= net.bridges[b].id.Rank()
    ensures forall x :: 0 <= x < k && Reaches(net, x, b) ==> net.bridges[r].id.Rank() <= net.bridges[x].id.Rank()
  {
    if k == 0 {
      r := b;
      assert IsWalk(net, Origin(b)) && First(Origin(b)) == b && Last(Origin(b)) == b;
    } else {
      r := BestExists(net, b, k - 1);
      if Reaches(net, k - 1, b) && net.bridges[k - 1].id.Rank() < net.bridges[r].id.Rank() {
        r := k - 1;
      }
    }
  }

  // ----- Shortest walks -----

  /** The part of a walk up to bridge b. */
  lemma {:induction false} CutAt(net: Net, w: Walk, b: nat) returns (v: Walk)
    requires IsWalk(net, w) && b in Visits(w)
    ensures IsWalk(net, v) && First(v) == First(w) && Last(v) == b && Cost(net, v) <= Cost(net, w)
    ensures Simple(w) ==> Simple(v)
    ensures WellFormed(net) && b != Last(w) ==> Cost(net, v) < Cost(net, w)
  {
    if Last(w) == b {
      v := w;
    } else {
      v := CutAt(net, w.prior, b);
      if WellFormed(net) {
        assert PathCost(net, w.via) > 0;
      }
    }
  }

  /** Leaving out the detours of a walk does not make it dearer. */
  lemma {:induction false} Shorten(net: Net, w: Walk) returns (v: Walk)
    requires IsWalk(net, w)
    ensures IsWalk(net, v) && Simple(v) && First(v) == First(w) && Last(v) == Last(w) && Cost(net, v) <= Cost(net, w)
  {
    match w
    case Origin(b) => v := w;
    case Hop(p, e) =>
      var u := Shorten(net, p);
      if e.bridge in Visits(u) {
        v := CutAt(net, u, e.bridge);
      } else {
        v := Hop(u, e);
      }
  }

  lemma {:induction false} Cheapest(net: Net, w: Walk) returns (v: Walk)
    requires IsWalk(net, w)
    ensures IsWalk(net, v) && First(v) == First(w) && Last(v) == Last(w)
    ensures forall u :: IsWalk(net, u) && First(u) == First(w) && Last(u) == Last(w) ==> Cost(net, v) <= Cost(net, u)
    decreases Cost(net, w)
  {
    v := w;
    if u :| IsWalk(net, u) && First(u) == First(w) && Last(u) == Last(w) && Cost(net, u) < Cost(net, w) {
      v := Cheapest(net, u);
    }
  }

  lemma BestWalkExists(net: Net, b: nat) returns (w: Walk)
    requires b < |net.bridges|
    ensures BestWalk(net, w) && Last(w) == b
  {
    var r := BestExists(net, b, |net.bridges|);
    var u :| IsWalk(net, u) && First(u) == r && Last(u) == b;
    w := Cheapest(net, u);
  }

  /** All best walks to a bridge start at the same bridge and cost the same. */
  lemma BestWalksAgree(net: Net, v: Walk, w: Walk)
    requires WellFormed(net) && BestWalk(net, v) && BestWalk(net, w) && Last(v) == Last(w)
    ensures First(v) == First(w) && Cost(net, v) == Cost(net, w)
  {
    BestIsUnique(net, First(v), First(w), Last(v));
  }

  /** A best walk takes a best walk to the bridge before its end, and any other would do as well. */
  lemma BestWalkExtends(net: Net, w: Walk)
    requires WellFormed(net) && BestWalk(net, w) && w.Hop?
    ensures BestWalk(net, w.prior)
    ensures forall v :: BestWalk(net, v) && Last(v) == Last(w.prior) ==> BestWalk(net, Hop(v, w.via))
  {
    PeersShareBest(net, First(w), w.via);
    forall v | IsWalk(net, v) && First(v) == First(w) && Last(v) == Last(w.prior)
      ensures Cost(net, w.prior) <= Cost(net, v)
    {
      assert IsWalk(net, Hop(v, w.via)) && First(Hop(v, w.via)) == First(w);
    }
    forall v | BestWalk(net, v) && Last(v) == Last(w.prior) ensures BestWalk(net, Hop(v, w.via)) {
      BestWalksAgree(net, v, w.prior);
      assert IsWalk(net, Hop(v, w.via)) && First(Hop(v, w.via)) == First(w);
    }
  }

  /** So a bridge on a best walk is within fewer links than its end. */
  lemma PriorIsWithin(net: Net, w: Walk, k: nat)
    requires WellFormed(net) && BestWalk(net, w) && w.Hop? && Within(net, Last(w), k)
    ensures k > 0 && Within(net, Last(w.prior), k - 1)
  {
    BestWalkExtends(net, w);
    forall v | BestWalk(net, v) && Last(v) == Last(w.prior) ensures Links(v) <= k - 1 {
      var longer := Hop(v, w.via);
      assert BestWalk(net, longer) && Last(longer) == Last(w) && Links(longer) == Links(v) + 1;
    }
  }

  /** A best walk meets no bridge twice. */
  lemma {:induction false} BestWalkIsSimple(net: Net, w: Walk)
    requires WellFormed(net) && BestWalk(net, w)
    ensures Simple(w)
  {
    if w.Hop? {
      BestWalkExtends(net, w);
      BestWalkIsSimple(net, w.prior);
      if w.via.bridge in Visits(w.prior) {
        var v := CutAt(net, w.prior, w.via.bridge);
        assert false;
      }
    }
  }

  // ----- Equal costs -----

  ghost predicate EqualCosts(net: Net, c: nat) {
    forall b, p :: 0 <= b < |net.bridges| && 0 <= p < |net.bridges[b].ports| ==> net.bridges[b].ports[p].pathCost == c
  }

  lemma {:induction false} CostCountsLinks(net: Net, w: Walk, c: nat)
    requires EqualCosts(net, c) && IsWalk(net, w)
    ensures Cost(net, w) == Times(Links(w), c)
  {
    if w.Hop? {
      CostCountsLinks(net, w.prior, c);
    }
  }

  lemma {:induction false} TimesGrowsStrictly(m: nat, n: nat, c: nat)
    requires c > 0
    ensures Times(m, c) <= Times(n, c) <==> m <= n
    decreases m + n
  {
    if m <= n {
      TimesGrows(m, n, c);
    } else {
      TimesGrows(n, m - 1, c);
    }
  }

  /** Where all ports cost the same, a walk is cheaper exactly when it is shorter. */
  lemma CheaperIsShorter(net: Net, v: Walk, w: Walk, c: nat)
    requires EqualCosts(net, c) && c > 0 && IsWalk(net, v) && IsWalk(net, w)
    ensures Cost(net, v) <= Cost(net, w) <==> Links(v) <= Links(w)
  {
    CostCountsLinks(net, v, c);
    CostCountsLinks(net, w, c);
    TimesGrowsStrictly(Links(v), Links(w), c);
  }
}
