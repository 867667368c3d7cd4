/** What a settled network looks like: one root, shortest distances, and one designated end per link. */
module StpTree {
  import opened Wrappers
  import opened StpVector
  import opened StpBridge
  import opened StpNetwork
  import opened StpSafety
  import opened StpConvergence
  import opened StpPaths

  /** Every designated port's vector is what its peer has recorded. */
  ghost predicate Settled(net: Net, s: Fabric)
    requires Matches(net, s)
  {
    forall f :: f in net.peer && IsEndpoint(net, f) && IsEndpoint(net, net.peer[f]) && PortAt(s, f).role == RoleDesignated ==>
      && PortAt(s, net.peer[f]).received.Some?
      && PortAt(s, net.peer[f]).received.value.vector == OwnAt(net, s, f)
  }

  function PortAt(s: Fabric, e: Endpoint): Port
    requires e.bridge < |s.bridges| && e.port < |s.bridges[e.bridge].ports|
  {
    s.bridges[e.bridge].ports[e.port]
  }

  function OwnAt(net: Net, s: Fabric, e: Endpoint): Vector
    requires Matches(net, s) && IsEndpoint(net, e)
  {
    Own(net.bridges[e.bridge], s.bridges[e.bridge], e.port)
  }

  /** Bridge b knows its best bridge, at the cost of a cheapest walk from it. */
  ghost predicate KnowsBest(net: Net, s: Fabric, r: nat, b: nat)
    requires Matches(net, s)
  {
    && r < |net.bridges| && b < |net.bridges|
    && s.bridges[b].rootID == net.bridges[r].id
    && (exists w :: IsWalk(net, w) && First(w) == r && Last(w) == b && Cost(net, w) == s.bridges[b].rootPathCost)
    && (forall w :: IsWalk(net, w) && First(w) == r && Last(w) == b ==> s.bridges[b].rootPathCost <= Cost(net, w))
  }

  // ----- What rounds find -----

  /** What a sound state can say of the best bridge is never better than a best walk. */
  lemma SoundIsNoBetter(net: Net, s: Fabric, w: Walk)
    requires WellFormed(net) && Sound(net, s) && BestWalk(net, w)
    ensures var x := s.bridges[Last(w)];
            net.bridges[First(w)].id.Rank() <= x.rootID.Rank()
            && (x.rootID == net.bridges[First(w)].id ==> Cost(net, w) <= x.rootPathCost)
  {
    var b := Last(w);
    assert BridgeSound(net, s, b);
    var x := s.bridges[b];
    var v :| Witness(net, s, v, b, x.rootID, x.rootPathCost, MessageAge(x));
    assert Reaches(net, First(v), b);
    if x.rootID == net.bridges[First(w)].id {
      SameBridge(net, First(v), First(w));
    }
  }

  /** A bridge that knows no less than a best walk to it says knows exactly that. */
  lemma WalkIsExact(net: Net, s: Fabric, w: Walk)
    requires WellFormed(net) && Sound(net, s) && BestWalk(net, w)
    requires s.bridges[Last(w)].AtLeast(net.bridges[First(w)].id, Cost(net, w))
    ensures KnowsBest(net, s, First(w), Last(w)) && s.bridges[Last(w)].rootPathCost == Cost(net, w)
  {
    SoundIsNoBetter(net, s, w);
    RankInjective(s.bridges[Last(w)].rootID, net.bridges[First(w)].id);
  }

  /** What a bridge at its true distance believes came over a best walk, as old as that walk is long. */
  lemma ExactWitness(net: Net, s: Fabric, r: nat, b: nat) returns (w: Walk)
    requires WellFormed(net) && Sound(net, s) && BestFor(net, r, b) && KnowsBest(net, s, r, b)
    ensures BestWalk(net, w) && First(w) == r && Last(w) == b && MessageAge(s.bridges[b]) == Links(w) * HELLO_TIME
    ensures Links(w) <= 10
  {
    assert BridgeSound(net, s, b);
    var x := s.bridges[b];
    w :| Witness(net, s, w, b, x.rootID, x.rootPathCost, MessageAge(x));
    SameBridge(net, First(w), r);
    assert MessageAge(x) < MAX_AGE + HELLO_TIME;
  }

  /** After any run from a fresh start, as many rounds as a best walk has links tell its end the best bridge of its
      component and its exact distance, in a network of any size, if no best walk to that end has more than ten links. */
  lemma RoundsFindShortestPaths(net: Net, before: seq<Action>, rounds: seq<seq<Action>>, w: Walk)
    requires WellFormed(net) && BestWalk(net, w) && Within(net, Last(w), 10) && |rounds| >= Links(w)
    requires AreRounds(net, Exec(net, Start(net), before), rounds)
    ensures KnowsBest(net, ExecRounds(net, Exec(net, Start(net), before), rounds), First(w), Last(w))
  {
    var s := Exec(net, Start(net), before);
    EveryRunIsTraced(net, before);
    RoundsKeepSound(net, s, rounds);
    BestIsInTime(net, w);
    KnowledgeAfterRounds(net, before, rounds, w);
    WalkIsExact(net, ExecRounds(net, s, rounds), w);
  }

  /** A bridge whose best walks all have more than ten links is at its true distance in no state of any run. */
  lemma FarIsNeverExact(net: Net, s: Fabric, r: nat, b: nat)
    requires WellFormed(net) && Sound(net, s) && BestFor(net, r, b) && b < |net.bridges| && Beyond(net, b, 10)
    ensures !KnowsBest(net, s, r, b)
  {
    if KnowsBest(net, s, r, b) {
      var w := ExactWitness(net, s, r, b);
      assert false;
    }
  }

  /** Where no tie straddles the limit, ten rounds give a bridge its true root and distance exactly if its best walks have
      at most ten links; otherwise nothing ever does. */
  lemma LearnsExactly(net: Net, before: seq<Action>, rounds: seq<seq<Action>>, r: nat, b: nat)
    requires WellFormed(net) && b < |net.bridges| && BestFor(net, r, b) && |rounds| >= 10
    requires Within(net, b, 10) || Beyond(net, b, 10)
    requires AreRounds(net, Exec(net, Start(net), before), rounds)
    ensures KnowsBest(net, ExecRounds(net, Exec(net, Start(net), before), rounds), r, b) <==> Within(net, b, 10)
  {
    var s := Exec(net, Start(net), before);
    EveryRunIsTraced(net, before);
    RoundsKeepSound(net, s, rounds);
    var w := BestWalkExists(net, b);
    BestIsUnique(net, First(w), r, b);
    if Within(net, b, 10) {
      RoundsFindShortestPaths(net, before, rounds, w);
    } else {
      FarIsNeverExact(net, ExecRounds(net, s, rounds), r, b);
    }
  }

  // ----- Settled states -----

  /** In a settled state the peer of every port knows a path over their link. */
  lemma SettledCrossesLink(net: Net, s: Fabric, f: Endpoint)
    requires WellFormed(net) && Sound(net, s) && Settled(net, s) && f in net.peer
    ensures var e := net.peer[f];
            s.bridges[e.bridge].AtLeast(s.bridges[f.bridge].rootID, s.bridges[f.bridge].rootPathCost + PathCost(net, e))
  {
    var e := net.peer[f];
    if PortAt(s, f).role == RoleDesignated {
      assert BridgeSound(net, s, e.bridge);
      RecordBoundsBridge(net.bridges[e.bridge], s.bridges[e.bridge], e.port,
                         s.bridges[f.bridge].rootID, s.bridges[f.bridge].rootPathCost);
    } else {
      UndesignatedPeerKnows(net, s, f);
    }
  }

  lemma {:induction false} SettledKnowsWalk(net: Net, s: Fabric, w: Walk)
    requires WellFormed(net) && Sound(net, s) && Settled(net, s) && IsWalk(net, w)
    ensures s.bridges[Last(w)].AtLeast(net.bridges[First(w)].id, Cost(net, w))
  {
    match w
    case Origin(b) => EveryBridgeKnowsItself(net, s, b); assert KnownWithin(net, s, b, 0); assert Links(w) <= 0;
    case Hop(p, e) =>
      SettledKnowsWalk(net, s, p);
      SettledCrossesLink(net, s, net.peer[e]);
      AtLeastTransitive(s.bridges[e.bridge], s.bridges[Last(p)].rootID, s.bridges[Last(p)].rootPathCost,
                        net.bridges[First(p)].id, Cost(net, p), PathCost(net, e));
  }

  /** In every settled state of every run, all bridges of a component agree on its lowest identifier
      and know their true shortest distance to it. */
  lemma SettledFindsShortestPaths(net: Net, s: Fabric, r: nat, b: nat)
    requires WellFormed(net) && Sound(net, s) && Settled(net, s)
    requires b < |net.bridges| && BestFor(net, r, b)
    ensures KnowsBest(net, s, r, b)
  {
    var w := BestWalkExists(net, b);
    BestIsUnique(net, First(w), r, b);
    SettledKnowsWalk(net, s, w);
    WalkIsExact(net, s, w);
  }

  /** A port that is not designated holds a vector its own does not beat, so its peer's own vector is superior. */
  lemma UndesignatedIsBeaten(net: Net, s: Fabric, f: Endpoint)
    requires WellFormed(net) && Sound(net, s) && f in net.peer
    requires PortAt(s, f).role != RoleDesignated
    ensures OwnAt(net, s, net.peer[f]).Superior(OwnAt(net, s, f))
  {
    var e := net.peer[f];
    var m := UndesignatedHoldsBetter(net, s, f);
    assert NotWorse(OwnAt(net, s, e), m.vector);
    NotWorseTransitive(OwnAt(net, s, e), m.vector, OwnAt(net, s, f));
    DifferentBridges(net, f.bridge, e.bridge);
  }

  lemma DifferentBridges(net: Net, i: nat, j: nat)
    requires WellFormed(net) && i < |net.bridges| && j < |net.bridges| && i != j
    ensures net.bridges[i].id != net.bridges[j].id
  {
  }

  /** Every link between bridges has at least one designated end in every state of every run,
      and exactly one in a settled state. */
  lemma OneDesignatedEnd(net: Net, s: Fabric, f: Endpoint)
    requires WellFormed(net) && Sound(net, s) && f in net.peer
    ensures PortAt(s, f).role == RoleDesignated || PortAt(s, net.peer[f]).role == RoleDesignated
    ensures Settled(net, s) ==> (PortAt(s, f).role == RoleDesignated) != (PortAt(s, net.peer[f]).role == RoleDesignated)
  {
    var e := net.peer[f];
    CompareIsStrictTotalOrder(OwnAt(net, s, f), OwnAt(net, s, e), OwnAt(net, s, f));
    if PortAt(s, f).role != RoleDesignated {
      UndesignatedIsBeaten(net, s, f);
      if PortAt(s, e).role != RoleDesignated {
        UndesignatedIsBeaten(net, s, e);
        assert false;
      }
    }
    if PortAt(s, f).role == RoleDesignated && PortAt(s, e).role == RoleDesignated && Settled(net, s) {
      DesignatedBeatsRecord(net, s, f);
      DesignatedBeatsRecord(net, s, e);
      assert false;
    }
  }

  lemma DesignatedBeatsRecord(net: Net, s: Fabric, f: Endpoint)
    requires Sound(net, s) && IsEndpoint(net, f) && PortAt(s, f).role == RoleDesignated && PortAt(s, f).received.Some?
    ensures OwnAt(net, s, f).Superior(PortAt(s, f).received.value.vector)
  {
    assert BridgeSound(net, s, f.bridge);
    assert PortAt(s, f).role == RoleFor(net.bridges[f.bridge], s.bridges[f.bridge], f.port);
  }

  /** In every state of every run a bridge has exactly one root port, unless it believes it is the root: then none. */
  lemma OneRootPort(net: Net, s: Fabric, b: nat)
    requires Sound(net, s) && b < |net.bridges|
    ensures s.bridges[b].rootID != net.bridges[b].id ==>
              exists i :: 0 <= i < |s.bridges[b].ports| && s.bridges[b].ports[i].role == RoleRoot
                && forall j :: 0 <= j < |s.bridges[b].ports| && s.bridges[b].ports[j].role == RoleRoot ==> j == i
    ensures s.bridges[b].rootID == net.bridges[b].id ==>
              forall j :: 0 <= j < |s.bridges[b].ports| ==> s.bridges[b].ports[j].role != RoleRoot
  {
    assert BridgeSound(net, s, b);
    var r := s.bridges[b];
    forall j | 0 <= j < |r.ports| ensures r.ports[j].role == RoleRoot <==> r.rootPort == Some(j) {
      assert r.ports[j].role == RoleFor(net.bridges[b], r, j);
    }
    if r.rootPort.Some? {
      assert r.ports[r.rootPort.value].role == RoleRoot;
    }
  }
}
