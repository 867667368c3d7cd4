/** Rings of equal links: how large a ring the age limit lets the spanning tree settle, and what happens beyond. */
module StpRing {
  import opened Bytes
  import opened StpVector
  import opened StpBridge
  import opened StpNetwork
  import opened StpPaths
  import opened StpSafety
  import opened StpConvergence
  import opened StpTree
  import opened StpSettling
  import opened ForwardingTree
  import BridgeAddress

  function Next(n: nat, i: nat): nat {
    if i + 1 >= n then 0 else i + 1
  }

  function Previous(n: nat, i: nat): nat
    requires n > 0
  {
    if i == 0 then n - 1 else i - 1
  }

  /** The far end of a port: the first port of a bridge leads to the next bridge, the second to the previous one. */
  function Across(n: nat, e: Endpoint): Endpoint
    requires n > 0
  {
    if e.port == 0 then Endpoint(Next(n, e.bridge), 1) else Endpoint(Previous(n, e.bridge), 0)
  }

  /** The port's link leads where the ring says. */
  predicate Linked(net: Net, e: Endpoint) {
    e in net.peer && IsEndpoint(net, e) && net.peer[e] == Across(|net.bridges|, e) && IsEndpoint(net, net.peer[e])
  }

  /** The first two ports of every bridge make the ring; any others have no link. */
  ghost predicate Circular(net: Net) {
    && |net.bridges| >= 3
    && (forall e: Endpoint {:trigger Linked(net, e)} :: e.bridge < |net.bridges| && e.port < 2 ==> Linked(net, e))
    && (forall e: Endpoint :: e in net.peer ==> e.bridge < |net.bridges| && e.port < 2)
  }

  /** All ports cost the same, and the numbering starts at the bridge with the lowest identifier. */
  ghost predicate IsRing(net: Net, c: nat) {
    && WellFormed(net) && Circular(net) && c > 0 && EqualCosts(net, c)
    && (forall b :: 0 <= b < |net.bridges| ==> net.bridges[0].id.Rank() <= net.bridges[b].id.Rank())
  }

  /** The distance from bridge 0, the shorter way round. */
  function Around(n: nat, i: nat): nat
    requires i <= n
  {
    if i <= n - i then i else n - i
  }

  lemma NeighboursDifferByOne(n: nat, e: Endpoint)
    requires n > 0 && e.bridge < n
    ensures Across(n, e).bridge < n
    ensures Around(n, e.bridge) <= Around(n, Across(n, e).bridge) + 1
    ensures Around(n, Across(n, e).bridge) <= Around(n, e.bridge) + 1
  {
  }

  /** In a ring of 21 at most one neighbour of a bridge is nearer to bridge 0. */
  lemma OneNearer(e: Endpoint, f: Endpoint)
    requires e.bridge == f.bridge < 21 && e.port < 2 && f.port < 2
    requires Around(21, Across(21, e).bridge) < Around(21, e.bridge) && Around(21, Across(21, f).bridge) < Around(21, f.bridge)
    ensures e == f
  {
  }

  lemma EqualNeighbours(e: Endpoint)
    requires e.bridge < 21 && Around(21, Across(21, e).bridge) == Around(21, e.bridge)
    ensures Around(21, e.bridge) == 10
  {
  }

  lemma {:induction false} NoShorterWay(net: Net, w: Walk)
    requires Circular(net) && IsWalk(net, w) && First(w) == 0
    ensures Links(w) >= Around(|net.bridges|, Last(w))
  {
    if w.Hop? {
      NoShorterWay(net, w.prior);
      NeighboursDifferByOne(|net.bridges|, w.via);
      assert Linked(net, w.via);
    }
  }

  function Up(i: nat): Walk {
    if i == 0 then Origin(0) else Hop(Up(i - 1), Endpoint(i, 1))
  }

  function Down(n: nat, i: nat): Walk
    requires i <= n
    decreases n - i
  {
    if i == n then Origin(0) else Hop(Down(n, i + 1), Endpoint(i, 0))
  }

  /** A walk goes on to the next bridge by its second port, or to the previous one by its first. */
  lemma HopIsWalk(net: Net, w: Walk, e: Endpoint)
    requires Circular(net) && IsWalk(net, w) && e.bridge < |net.bridges| && e.port < 2
    requires Across(|net.bridges|, e).bridge == Last(w)
    ensures IsWalk(net, Hop(w, e))
  {
    assert Linked(net, e);
  }

  lemma {:induction false} UpIsWalk(net: Net, i: nat)
    requires Circular(net) && i < |net.bridges|
    ensures IsWalk(net, Up(i)) && First(Up(i)) == 0 && Last(Up(i)) == i && Links(Up(i)) == i
  {
    if i > 0 {
      UpIsWalk(net, i - 1);
      HopIsWalk(net, Up(i - 1), Endpoint(i, 1));
    }
  }

  lemma {:induction false} DownIsWalk(net: Net, i: nat)
    requires Circular(net) && 0 < i <= |net.bridges|
    ensures var w := Down(|net.bridges|, i);
            IsWalk(net, w) && First(w) == 0 && Last(w) == (if i == |net.bridges| then 0 else i) && Links(w) == |net.bridges| - i
    decreases |net.bridges| - i
  {
    if i < |net.bridges| {
      DownIsWalk(net, i + 1);
      HopIsWalk(net, Down(|net.bridges|, i + 1), Endpoint(i, 0));
    }
  }

  lemma ShortWay(net: Net, i: nat) returns (w: Walk)
    requires Circular(net) && i < |net.bridges|
    ensures IsWalk(net, w) && First(w) == 0 && Last(w) == i && Links(w) == Around(|net.bridges|, i)
  {
    var n := |net.bridges|;
    if i <= n - i {
      UpIsWalk(net, i);
      w := Up(i);
    } else {
      DownIsWalk(net, i);
      w := Down(n, i);
    }
  }

  lemma RootIsBest(net: Net, c: nat, b: nat)
    requires IsRing(net, c) && b < |net.bridges|
    ensures BestFor(net, 0, b)
  {
    var w := ShortWay(net, b);
  }

  /** The best walks of a ring are the shorter ways round. */
  lemma BestIsAround(net: Net, c: nat, w: Walk)
    requires IsRing(net, c) && BestWalk(net, w)
    ensures First(w) == 0 && Links(w) == Around(|net.bridges|, Last(w))
  {
    var b := Last(w);
    RootIsBest(net, c, b);
    BestIsUnique(net, First(w), 0, b);
    var v := ShortWay(net, b);
    CheaperIsShorter(net, w, v, c);
    NoShorterWay(net, w);
  }

  lemma BetterIsNoFarther(net: Net, c: nat, f: Endpoint)
    requires IsRing(net, c) && f in net.peer && BetterEnd(net, f)
    ensures Around(|net.bridges|, f.bridge) <= Around(|net.bridges|, net.peer[f].bridge)
  {
    var v := BestWalkExists(net, f.bridge);
    var w := BestWalkExists(net, net.peer[f].bridge);
    BestIsAround(net, c, v);
    BestIsAround(net, c, w);
    CheaperIsShorter(net, v, w, c);
    assert Nearer(net, v, w);
  }

  lemma SmallRingIsClose(net: Net, c: nat)
    requires IsRing(net, c) && |net.bridges| <= 20
    ensures CloseEnds(net, 10)
  {
    var n := |net.bridges|;
    forall f, w | f in net.peer && BetterEnd(net, f) && BestWalk(net, w) && Last(w) == f.bridge ensures Links(w) < 10 {
      BestIsAround(net, c, w);
      BetterIsNoFarther(net, c, f);
      assert f == Endpoint(f.bridge, f.port);
    }
  }

  lemma LargeRingHasFarLink(net: Net, c: nat)
    requires IsRing(net, c) && |net.bridges| > 20
    ensures Endpoint(10, 0) in net.peer && net.peer[Endpoint(10, 0)] == Endpoint(11, 1)
    ensures Beyond(net, 10, 9) && Beyond(net, 11, 9)
  {
    assert Linked(net, Endpoint(10, 0));
    forall w | BestWalk(net, w) && (Last(w) == 10 || Last(w) == 11) ensures Links(w) > 9 {
      BestIsAround(net, c, w);
    }
  }

  /** A ring of n equal links is settled by ten rounds exactly if n <= 20; a larger one is settled in no state of any run. */
  lemma RingSettlesExactly(net: Net, c: nat, before: seq<Action>, rounds: seq<seq<Action>>)
    requires IsRing(net, c) && AreRounds(net, Exec(net, Start(net), before), rounds) && |rounds| >= 10
    ensures Settled(net, ExecRounds(net, Exec(net, Start(net), before), rounds)) <==> |net.bridges| <= 20
  {
    if |net.bridges| <= 20 {
      SmallRingIsClose(net, c);
      RoundsSettle(net, 10, before, rounds);
    } else {
      EveryRunIsTraced(net, before);
      RoundsKeepSound(net, Exec(net, Start(net), before), rounds);
      LargeRingNeverSettles(net, c, ExecRounds(net, Exec(net, Start(net), before), rounds));
    }
  }

  lemma LargeRingNeverSettles(net: Net, c: nat, s: Fabric)
    requires IsRing(net, c) && |net.bridges| > 20 && Sound(net, s)
    ensures !Settled(net, s)
  {
    LargeRingHasFarLink(net, c);
    FarLinkNeverSettles(net, s, Endpoint(10, 0));
  }

  // ----- A ring of 21 -----

  /** Every bridge of the ring has its true distance. */
  ghost predicate AllExact(net: Net, s: Fabric)
    requires Matches(net, s)
  {
    forall b: nat :: b < |net.bridges| ==> Exact(net, s, b)
  }

  lemma RingLearns(net: Net, c: nat, before: seq<Action>, rounds: seq<seq<Action>>)
    requires IsRing(net, c) && |net.bridges| == 21 && |rounds| >= 10
    requires AreRounds(net, Exec(net, Start(net), before), rounds)
    ensures AllExact(net, ExecRounds(net, Exec(net, Start(net), before), rounds))
  {
    var t := ExecRounds(net, Exec(net, Start(net), before), rounds);
    forall b: nat | b < |net.bridges| ensures Exact(net, t, b) {
      BridgeLearns(net, c, before, rounds, b);
    }
  }

  lemma BridgeLearns(net: Net, c: nat, before: seq<Action>, rounds: seq<seq<Action>>, b: nat)
    requires IsRing(net, c) && |net.bridges| == 21 && |rounds| >= 10 && b < 21
    requires AreRounds(net, Exec(net, Start(net), before), rounds)
    ensures Exact(net, ExecRounds(net, Exec(net, Start(net), before), rounds), b)
  {
    var w := BestWalkExists(net, b);
    forall v | BestWalk(net, v) && Last(v) == b ensures Links(v) <= 10 {
      BestIsAround(net, c, v);
    }
    RoundsFindShortestPaths(net, before, rounds, w);
    KnowingIsExact(net, ExecRounds(net, Exec(net, Start(net), before), rounds), w);
  }

  /** What bridge b believes, in numbers. */
  lemma ExactInNumbers(net: Net, c: nat, s: Fabric, b: nat)
    requires IsRing(net, c) && Matches(net, s) && b < |net.bridges| && Exact(net, s, b)
    ensures s.bridges[b].rootID == net.bridges[0].id
    ensures s.bridges[b].rootPathCost as int == Times(Around(|net.bridges|, b), c)
  {
    var w := BestWalkExists(net, b);
    BestIsAround(net, c, w);
    CostCountsLinks(net, w, c);
  }

  /** What a record of bridge 0 can say: a distance that is no shorter than the true one and under ten links. */
  lemma RecordInNumbers(net: Net, c: nat, s: Fabric, f: Endpoint) returns (k: nat)
    requires IsRing(net, c) && Sound(net, s) && f in net.peer && PortAt(s, f).received.Some?
    requires PortAt(s, f).received.value.vector.rootID == net.bridges[0].id
    ensures PortAt(s, f).received.value.vector.rootPathCost as int == Times(k, c)
    ensures Around(|net.bridges|, net.peer[f].bridge) <= k <= 9
  {
    assert BridgeSound(net, s, f.bridge);
    var m := PortAt(s, f).received.value;
    assert SentToward(net, s, f, m) && m.age < MAX_AGE;
    var v :| Witness(net, s, v, net.peer[f].bridge, m.vector.rootID, m.vector.rootPathCost, m.age);
    SameBridge(net, First(v), 0);
    NoShorterWay(net, v);
    CostCountsLinks(net, v, c);
    k := Links(v);
  }

  /** A record names no better root than bridge 0. */
  lemma RecordedRootIsNoBetter(net: Net, c: nat, s: Fabric, f: Endpoint)
    requires IsRing(net, c) && Sound(net, s) && f in net.peer && PortAt(s, f).received.Some?
    ensures net.bridges[0].id.Rank() <= PortAt(s, f).received.value.vector.rootID.Rank()
  {
    assert BridgeSound(net, s, f.bridge);
    var m := PortAt(s, f).received.value;
    assert SentToward(net, s, f, m);
    var v :| Witness(net, s, v, net.peer[f].bridge, m.vector.rootID, m.vector.rootPathCost, m.age);
  }

  /** A port whose far end is no nearer to bridge 0 holds nothing that its own vector does not beat. */
  lemma OuterPortBeatsRecord(net: Net, c: nat, s: Fabric, f: Endpoint)
    requires IsRing(net, c) && |net.bridges| == 21 && Sound(net, s) && AllExact(net, s) && f in net.peer
    requires Around(21, net.peer[f].bridge) >= Around(21, f.bridge) && PortAt(s, f).received.Some?
    ensures OwnAt(net, s, f).Superior(PortAt(s, f).received.value.vector)
  {
    var v := PortAt(s, f).received.value.vector;
    ExactInNumbers(net, c, s, f.bridge);
    RecordedRootIsNoBetter(net, c, s, f);
    RankInjective(v.rootID, net.bridges[0].id);
    if v.rootID == net.bridges[0].id {
      var k := RecordInNumbers(net, c, s, f);
      if Around(21, net.peer[f].bridge) == Around(21, f.bridge) {
        assert Linked(net, f);
        EqualNeighbours(f);
      }
      TimesGrowsStrictly(k, Around(21, f.bridge), c);
    }
  }

  lemma UnbeatenPortIsOpen(net: Net, s: Fabric, f: Endpoint)
    requires Sound(net, s) && IsEndpoint(net, f)
    requires PortAt(s, f).received.Some? ==> OwnAt(net, s, f).Superior(PortAt(s, f).received.value.vector)
    ensures PortAt(s, f).role == RoleRoot || PortAt(s, f).role == RoleDesignated
  {
    assert BridgeSound(net, s, f.bridge);
    assert PortAt(s, f).role == RoleFor(net.bridges[f.bridge], s.bridges[f.bridge], f.port);
  }

  lemma OneLinkMore(k: nat, d: nat, c: nat)
    requires c > 0 && Times(d, c) == Times(k, c) + c
    ensures d == k + 1
  {
    TimesGrowsStrictly(k + 1, d, c);
    TimesGrowsStrictly(d, k + 1, c);
  }

  /** The root port of a bridge leads to a neighbour that is nearer to bridge 0. */
  lemma RootPortLeadsIn(net: Net, c: nat, s: Fabric, b: nat) returns (e: Endpoint)
    requires IsRing(net, c) && |net.bridges| == 21 && Sound(net, s) && AllExact(net, s) && 0 < b < 21
    ensures e in net.peer && e.bridge == b && PortAt(s, e).role == RoleRoot
    ensures Around(21, net.peer[e].bridge) < Around(21, b)
  {
    assert BridgeSound(net, s, b);
    ExactInNumbers(net, c, s, b);
    DifferentBridges(net, b, 0);
    var m;
    e, m := RootRecord(net, s, b, s.bridges[b]);
    RootPortRole(net, s, b);
    var k := RecordInNumbers(net, c, s, e);
    assert PathCost(net, e) == c;
    OneLinkMore(k, Around(21, b), c);
  }

  lemma RootPortRole(net: Net, s: Fabric, b: nat)
    requires Sound(net, s) && b < |s.bridges| && s.bridges[b].rootPort.Some? && s.bridges[b].rootPort.value < |s.bridges[b].ports|
    ensures s.bridges[b].ports[s.bridges[b].rootPort.value].role == RoleRoot
  {
    assert BridgeSound(net, s, b);
    var i := s.bridges[b].rootPort.value;
    assert s.bridges[b].ports[i].role == RoleFor(net.bridges[b], s.bridges[b], i);
  }

  lemma NoPortIsBlocked(net: Net, c: nat, s: Fabric, f: Endpoint)
    requires IsRing(net, c) && |net.bridges| == 21 && Sound(net, s) && AllExact(net, s) && f in net.peer
    ensures PortAt(s, f).role == RoleRoot || PortAt(s, f).role == RoleDesignated
  {
    if Around(21, net.peer[f].bridge) >= Around(21, f.bridge) {
      if PortAt(s, f).received.Some? {
        OuterPortBeatsRecord(net, c, s, f);
      }
      UnbeatenPortIsOpen(net, s, f);
    } else {
      var e := RootPortLeadsIn(net, c, s, f.bridge);
      assert Linked(net, e) && Linked(net, f);
      OneNearer(e, f);
    }
  }

  ghost predicate AllOpen(net: Net, s: Fabric)
    requires Matches(net, s)
  {
    forall f :: f in net.peer ==> Open(net, s, f)
  }

  lemma {:induction false} UpIsOnward(net: Net, s: Fabric, i: nat)
    requires Circular(net) && Matches(net, s) && AllOpen(net, s) && i < |net.bridges|
    ensures Onward(net, s, Up(i)) && Last(Up(i)) == i && (i > 0 ==> Up(i).via.port == 1)
  {
    if i > 0 {
      UpIsOnward(net, s, i - 1);
      HopIsOnward(net, s, Up(i - 1), Endpoint(i, 1));
    }
  }

  /** Going on in the same direction is not turning back. */
  lemma HopIsOnward(net: Net, s: Fabric, w: Walk, e: Endpoint)
    requires Circular(net) && Matches(net, s) && AllOpen(net, s) && Onward(net, s, w)
    requires e.bridge < |net.bridges| && e.port == 1 && Across(|net.bridges|, e).bridge == Last(w) && (w.Hop? ==> w.via.port == 1)
    ensures Onward(net, s, Hop(w, e))
  {
    HopIsWalk(net, w, e);
    assert Linked(net, e) && Linked(net, Across(|net.bridges|, e));
  }

  lemma PromotionOpensRing(net: Net, c: nat, s: Fabric, t: Fabric)
    requires IsRing(net, c) && |net.bridges| == 21 && Sound(net, s) && AllExact(net, s) && Matches(net, t)
    requires forall b :: 0 <= b < |s.bridges| ==> t.bridges[b] == PromoteAll(s.bridges[b])
    ensures AllOpen(net, t)
  {
    forall f | f in net.peer ensures IsEndpoint(net, f) && CanForward(t, f) {
      PromotionOpensPort(net, c, s, t, f);
    }
  }

  lemma PromotionOpensPort(net: Net, c: nat, s: Fabric, t: Fabric, f: Endpoint)
    requires IsRing(net, c) && |net.bridges| == 21 && Sound(net, s) && AllExact(net, s) && Matches(net, t) && f in net.peer
    requires t.bridges[f.bridge] == PromoteAll(s.bridges[f.bridge])
    ensures CanForward(t, f)
  {
    NoPortIsBlocked(net, c, s, f);
    assert PortAt(t, f) == PromotePort(PortAt(s, f));
  }

  /** In a ring of 21, after any run, ten rounds and promotion, every link is open: a frame that never turns back comes all
      the way round to where it started. */
  lemma RingOf21Loops(net: Net, c: nat, before: seq<Action>, rounds: seq<seq<Action>>) returns (w: Walk)
    requires IsRing(net, c) && |net.bridges| == 21 && |rounds| >= 10
    requires AreRounds(net, Exec(net, Start(net), before), rounds)
    ensures var s := ExecRounds(net, Exec(net, Start(net), before), rounds);
            Onward(net, Exec(net, s, PromoteFrom(0, 21)), w) && First(w) == Last(w) == 0 && Links(w) == 21
  {
    var s := ExecRounds(net, Exec(net, Start(net), before), rounds);
    EveryRunIsTraced(net, before);
    RoundsKeepSound(net, Exec(net, Start(net), before), rounds);
    RingLearns(net, c, before, rounds);
    PromotesRest(net, s, 0);
    w := RoundTrip(net, c, s, Exec(net, s, PromoteFrom(0, 21)));
  }

  lemma RoundTrip(net: Net, c: nat, s: Fabric, t: Fabric) returns (w: Walk)
    requires IsRing(net, c) && |net.bridges| == 21 && Sound(net, s) && AllExact(net, s) && Matches(net, t)
    requires forall b :: 0 <= b < |s.bridges| ==> t.bridges[b] == PromoteAll(s.bridges[b])
    ensures Onward(net, t, w) && First(w) == Last(w) == 0 && Links(w) == 21
  {
    PromotionOpensRing(net, c, s, t);
    var k := |net.bridges| - 1;
    UpIsOnward(net, t, k);
    UpIsWalk(net, k);
    w := Hop(Up(k), Endpoint(0, 1));
    HopIsOnward(net, t, Up(k), Endpoint(0, 1));
  }

  // ----- There are such rings -----

  function Ends(n: nat): set<Endpoint> {
    set b: nat, p: nat | b < n && p < 2 :: Endpoint(b, p)
  }

  /** Bridges with these identifiers, two ports each, at the default priorities and path cost. */
  function RingOf(ids: seq<BridgeID>): (net: Net)
    requires |ids| >= 3
  {
    Net(seq(|ids|, i requires 0 <= i < |ids| => Config(ids[i], [PortConfig(0x8001, 19), PortConfig(0x8002, 19)])),
        map e | e in Ends(|ids|) :: Across(|ids|, e), 19)
  }

  lemma AcrossAndBack(n: nat, e: Endpoint)
    requires n >= 3 && e in Ends(n)
    ensures Across(n, e) in Ends(n) && Across(n, Across(n, e)) == e && Across(n, e).bridge != e.bridge
  {
  }

  lemma RingPeers(ids: seq<BridgeID>, e: Endpoint)
    requires |ids| >= 3 && e in RingOf(ids).peer
    ensures var net := RingOf(ids);
            IsEndpoint(net, e) && net.peer[e] in net.peer && net.peer[net.peer[e]] == e && net.peer[e].bridge != e.bridge
  {
    AcrossAndBack(|ids|, e);
  }

  lemma RingFits(ids: seq<BridgeID>)
    requires 3 <= |ids| < 0x800_0000 && forall i, j :: 0 <= i < j < |ids| ==> ids[i] != ids[j]
    ensures var net := RingOf(ids);
            && Times(|net.bridges|, net.maxCost) < TWO_32
            && (forall i, j :: 0 <= i < j < |net.bridges| ==> net.bridges[i].id != net.bridges[j].id)
            && (forall b, p :: 0 <= b < |net.bridges| && 0 <= p < |net.bridges[b].ports| ==>
                  0 < net.bridges[b].ports[p].pathCost <= net.maxCost)
  {
    TimesIsProduct(|ids|, 19);
    forall b, p | 0 <= b < |ids| && 0 <= p < 2 ensures RingOf(ids).bridges[b].ports[p].pathCost == 19 {
    }
  }

  lemma RingOfIsWellFormed(ids: seq<BridgeID>)
    requires 3 <= |ids| < 0x800_0000 && forall i, j :: 0 <= i < j < |ids| ==> ids[i] != ids[j]
    ensures WellFormed(RingOf(ids))
  {
    var net := RingOf(ids);
    RingFits(ids);
    forall e | e in net.peer
      ensures IsEndpoint(net, e) && net.peer[e] in net.peer && net.peer[net.peer[e]] == e && net.peer[e].bridge != e.bridge
    {
      RingPeers(ids, e);
    }
  }

  /** Bridges with different identifiers, the lowest first, can be joined in a ring. */
  lemma RingOfIsRing(ids: seq<BridgeID>)
    requires 3 <= |ids| < 0x800_0000 && forall i, j :: 0 <= i < j < |ids| ==> ids[i] != ids[j]
    requires forall i :: 0 <= i < |ids| ==> ids[0].Rank() <= ids[i].Rank()
    ensures IsRing(RingOf(ids), 19) && |RingOf(ids).bridges| == |ids|
  {
    RingOfIsWellFormed(ids);
    forall e: Endpoint | e.bridge < |ids| && e.port < 2 ensures e in RingOf(ids).peer {
      assert e == Endpoint(e.bridge, e.port);
    }
  }

  /** The identifier of a bridge whose two interfaces the address counter has numbered after those of i others. */
  function CountedID(i: nat): BridgeID {
    BridgeID(32768, BridgeAddress.MacOf(2 * i + 1))
  }

  function CountedIDs(n: nat): (ids: seq<BridgeID>)
    ensures |ids| == n && forall i :: 0 <= i < n ==> ids[i] == CountedID(i)
  {
    seq(n, i requires 0 <= i < n => CountedID(i))
  }

  lemma SmallCounter(x: nat)
    requires x < 256
    ensures BridgeAddress.MacOf(x) == [2, 0, 0, 0, 0, x]
  {
  }

  lemma LastByteDecides(priority: uint16, x: byte, y: byte)
    requires x < y
    ensures var a: Mac, b: Mac := [2, 0, 0, 0, 0, x], [2, 0, 0, 0, 0, y];
            BridgeID(priority, a).Compare(BridgeID(priority, b)) < 0
  {
    var a: Mac, b: Mac := [2, 0, 0, 0, 0, x], [2, 0, 0, 0, 0, y];
    assert CompareAddress(a, b, 5) < 0;
    assert CompareAddress(a, b, 3) < 0;
    assert CompareAddress(a, b, 0) < 0;
  }

  lemma CountedIDsIncrease(i: nat, j: nat)
    requires i < j <= 126
    ensures CountedID(i).Compare(CountedID(j)) < 0
  {
    SmallCounter(2 * i + 1);
    SmallCounter(2 * j + 1);
    LastByteDecides(32768, 2 * i + 1, 2 * j + 1);
  }

  lemma CountedRingIsRing(n: nat)
    requires 3 <= n <= 127
    ensures IsRing(RingOf(CountedIDs(n)), 19) && |RingOf(CountedIDs(n)).bridges| == n
  {
    var ids := CountedIDs(n);
    forall i, j | 0 <= i < j < n ensures ids[i].Rank() < ids[j].Rank() && ids[i] != ids[j] {
      CountedIDsIncrease(i, j);
    }
    RingOfIsRing(ids);
  }

  /** So the first 21 bridges of a simulation, or more, joined in a ring at default costs, are settled in no state of any
      run. */
  lemma DefaultRingNeverSettles(n: nat, acts: seq<Action>)
    requires 20 < n <= 127
    ensures var net := RingOf(CountedIDs(n)); IsRing(net, 19) && !Settled(net, Exec(net, Start(net), acts))
  {
    var net := RingOf(CountedIDs(n));
    CountedRingIsRing(n);
    EveryRunIsTraced(net, acts);
    LargeRingNeverSettles(net, 19, Exec(net, Start(net), acts));
  }
}
