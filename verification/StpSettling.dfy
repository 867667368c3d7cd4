/** When rounds reach a settled state, and when no run ever does. */
module StpSettling {
  import opened Bytes
  import opened StpVector
  import opened StpBridge
  import opened StpNetwork
  import opened StpPaths
  import opened StpSafety
  import opened StpConvergence
  import opened StpMonotone
  import opened StpTree

  /** The end of v is nearer the root than the end of w or, as near, has the lower identifier. */
  predicate Nearer(net: Net, v: Walk, w: Walk)
    requires IsWalk(net, v) && IsWalk(net, w)
  {
    || Cost(net, v) < Cost(net, w)
    || (Cost(net, v) == Cost(net, w) && net.bridges[Last(v)].id.Rank() < net.bridges[Last(w)].id.Rank())
  }

  /** The end of a link that is to be designated. */
  ghost predicate BetterEnd(net: Net, f: Endpoint)
    requires f in net.peer
  {
    forall v, w :: BestWalk(net, v) && Last(v) == f.bridge && BestWalk(net, w) && Last(w) == net.peer[f].bridge ==> Nearer(net, v, w)
  }

  /** The better end of every link is within fewer than d links of its root. */
  ghost predicate CloseEnds(net: Net, d: nat) {
    forall f, w :: f in net.peer && BetterEnd(net, f) && BestWalk(net, w) && Last(w) == f.bridge ==> Links(w) < d
  }

  /** The bridge has its true root and its true distance. */
  ghost predicate Exact(net: Net, s: Fabric, b: nat)
    requires Matches(net, s) && b < |net.bridges|
  {
    forall w :: BestWalk(net, w) && Last(w) == b ==>
      s.bridges[b].rootID == net.bridges[First(w)].id && s.bridges[b].rootPathCost == Cost(net, w)
  }

  // ----- The better end of a link -----

  lemma NearerIsBetter(net: Net, f: Endpoint, v: Walk, w: Walk)
    requires WellFormed(net) && f in net.peer
    requires BestWalk(net, v) && Last(v) == f.bridge && BestWalk(net, w) && Last(w) == net.peer[f].bridge
    requires Nearer(net, v, w)
    ensures BetterEnd(net, f)
  {
    forall v', w' | BestWalk(net, v') && Last(v') == f.bridge && BestWalk(net, w') && Last(w') == net.peer[f].bridge
      ensures Nearer(net, v', w')
    {
      BestWalksAgree(net, v, v');
      BestWalksAgree(net, w, w');
    }
  }

  lemma OneEndIsBetter(net: Net, f: Endpoint)
    requires WellFormed(net) && f in net.peer
    ensures BetterEnd(net, f) || BetterEnd(net, net.peer[f])
  {
    var e := net.peer[f];
    var v := BestWalkExists(net, f.bridge);
    var w := BestWalkExists(net, e.bridge);
    DifferentBridges(net, f.bridge, e.bridge);
    RankInjective(net.bridges[f.bridge].id, net.bridges[e.bridge].id);
    if Nearer(net, v, w) {
      NearerIsBetter(net, f, v, w);
    } else {
      NearerIsBetter(net, e, w, v);
    }
  }

  lemma KnowingIsExact(net: Net, s: Fabric, w: Walk)
    requires WellFormed(net) && Matches(net, s) && BestWalk(net, w) && KnowsBest(net, s, First(w), Last(w))
    ensures Exact(net, s, Last(w))
  {
    forall v | BestWalk(net, v) && Last(v) == Last(w)
      ensures s.bridges[Last(w)].rootID == net.bridges[First(v)].id && s.bridges[Last(w)].rootPathCost == Cost(net, v)
    {
      BestWalksAgree(net, v, w);
    }
  }

  lemma ExactStays(net: Net, s: Fabric, t: Fabric, b: nat)
    requires WellFormed(net) && Sound(net, s) && Sound(net, t) && Progress(net, s, t)
    requires b < |net.bridges| && Exact(net, s, b)
    ensures Exact(net, t, b)
  {
    forall w | BestWalk(net, w) && Last(w) == b
      ensures t.bridges[b].rootID == net.bridges[First(w)].id && t.bridges[b].rootPathCost == Cost(net, w)
    {
      assert t.bridges[b].AtLeast(s.bridges[b].rootID, s.bridges[b].rootPathCost);
      WalkIsExact(net, t, w);
    }
  }

  /** Once the better end has its true distance, its own vector beats whatever the other end may say. */
  lemma BetterEndWins(net: Net, s: Fabric, f: Endpoint)
    requires WellFormed(net) && Sound(net, s) && f in net.peer && BetterEnd(net, f) && Exact(net, s, f.bridge)
    ensures OwnAt(net, s, f).Superior(OwnAt(net, s, net.peer[f]))
  {
    var e := net.peer[f];
    var v := BestWalkExists(net, f.bridge);
    var w := BestWalkExists(net, e.bridge);
    PeersShareBest(net, First(v), f);
    BestIsUnique(net, First(v), First(w), e.bridge);
    NearerWins(net, s, v, w, OwnAt(net, s, f).portID, OwnAt(net, s, e).portID);
  }

  lemma NearerWins(net: Net, s: Fabric, v: Walk, w: Walk, port: uint16, other: uint16)
    requires WellFormed(net) && Sound(net, s) && BestWalk(net, v) && BestWalk(net, w) && First(v) == First(w)
    requires Nearer(net, v, w) && Exact(net, s, Last(v))
    ensures var x, y := s.bridges[Last(v)], s.bridges[Last(w)];
            Vector(x.rootID, x.rootPathCost, net.bridges[Last(v)].id, port)
            .Superior(Vector(y.rootID, y.rootPathCost, net.bridges[Last(w)].id, other))
  {
    SoundIsNoBetter(net, s, w);
    RankInjective(s.bridges[Last(w)].rootID, net.bridges[First(w)].id);
  }

  /** Then, if it is within nine links, its next hello is recorded by the other end. */
  lemma BetterEndAdvertises(net: Net, s: Fabric, f: Endpoint)
    requires WellFormed(net) && Sound(net, s) && f in net.peer && BetterEnd(net, f) && Exact(net, s, f.bridge)
    requires Within(net, f.bridge, 9)
    ensures Advertises(s.bridges[f.bridge], f.port)
  {
    var e := net.peer[f];
    BetterEndWins(net, s, f);
    CompareIsStrictTotalOrder(OwnAt(net, s, f), OwnAt(net, s, e), OwnAt(net, s, f));
    assert BridgeSound(net, s, f.bridge);
    if PortAt(s, f).role != RoleDesignated {
      UndesignatedIsBeaten(net, s, f);
    }
    var w := BestWalkExists(net, f.bridge);
    WalkIsExact(net, s, w);
    var v := ExactWitness(net, s, First(w), f.bridge);
    assert Links(v) <= 9;
  }

  /** What a port holds is never better than what its peer would send. */
  lemma RecordIsPeersAtBest(net: Net, s: Fabric, f: Endpoint)
    requires WellFormed(net) && Sound(net, s) && f in net.peer
    requires PortAt(s, net.peer[f]).received.Some?
    requires NotWorse(PortAt(s, net.peer[f]).received.value.vector, OwnAt(net, s, f))
    ensures PortAt(s, net.peer[f]).received.value.vector == OwnAt(net, s, f)
  {
    var e := net.peer[f];
    assert BridgeSound(net, s, e.bridge);
    assert SentToward(net, s, e, PortAt(s, e).received.value);
  }

  /** The far end of f's link holds what f's own bridge would send on it. */
  ghost predicate Taught(net: Net, t: Fabric, f: Endpoint)
    requires Matches(net, t)
  {
    && f in net.peer && IsEndpoint(net, f) && IsEndpoint(net, net.peer[f])
    && PortAt(t, net.peer[f]).received.Some?
    && PortAt(t, net.peer[f]).received.value.vector == OwnAt(net, t, f)
  }

  /** After a round at whose start the better end had its true distance, within nine links, the other end holds its vector. */
  lemma NearLinkIsTaught(net: Net, s: Fabric, acts: seq<Action>, f: Endpoint)
    requires WellFormed(net) && Sound(net, s) && IsRound(net, s, acts) && f in net.peer
    requires BetterEnd(net, f) && Exact(net, s, f.bridge) && Within(net, f.bridge, 9)
    ensures var t := Exec(net, s, acts);
            Sound(net, t) && Exact(net, t, f.bridge) && Taught(net, t, f)
  {
    var t := Exec(net, s, acts);
    ExecKeepsSound(net, s, acts);
    var m, rest := FindHello(net, s, acts, f.bridge);
    ExecKeepsSound(net, m, rest);
    ExactStays(net, s, m, f.bridge);
    ExactStays(net, m, t, f.bridge);
    BetterEndAdvertises(net, m, f);
    HelloIsRecorded(net, m, rest, f);
    SameOwn(net, m, t, f);
    RecordIsPeersAtBest(net, t, f);
  }

  lemma SameOwn(net: Net, m: Fabric, t: Fabric, f: Endpoint)
    requires WellFormed(net) && Sound(net, m) && Sound(net, t) && f in net.peer
    requires Exact(net, m, f.bridge) && Exact(net, t, f.bridge)
    ensures OwnAt(net, m, f) == OwnAt(net, t, f)
  {
    var w := BestWalkExists(net, f.bridge);
  }

  /** What the far end holds of an end at its true distance it holds for ever. */
  lemma TaughtStays(net: Net, s: Fabric, t: Fabric, f: Endpoint)
    requires WellFormed(net) && Sound(net, s) && Sound(net, t) && Progress(net, s, t) && AllRecordsImprove(s, t)
    requires f in net.peer && Exact(net, s, f.bridge) && Taught(net, s, f)
    ensures Exact(net, t, f.bridge) && Taught(net, t, f)
  {
    var e := net.peer[f];
    ExactStays(net, s, t, f.bridge);
    SameOwn(net, s, t, f);
    assert RecordsImprove(s.bridges[e.bridge], t.bridges[e.bridge]);
    RecordIsPeersAtBest(net, t, f);
  }

  /** Every better end has its true distance, within nine links or with the far end knowing it. */
  ghost predicate EndsReady(net: Net, s: Fabric)
    requires WellFormed(net) && Matches(net, s)
  {
    forall f :: f in net.peer && BetterEnd(net, f) ==>
      Exact(net, s, f.bridge) && (Within(net, f.bridge, 9) || Taught(net, s, f))
  }

  lemma ReadyLinkIsTaught(net: Net, s: Fabric, acts: seq<Action>, f: Endpoint)
    requires WellFormed(net) && Sound(net, s) && IsRound(net, s, acts) && f in net.peer
    requires BetterEnd(net, f) && Exact(net, s, f.bridge) && (Within(net, f.bridge, 9) || Taught(net, s, f))
    ensures var t := Exec(net, s, acts);
            Sound(net, t) && Exact(net, t, f.bridge) && Taught(net, t, f)
  {
    if Within(net, f.bridge, 9) {
      NearLinkIsTaught(net, s, acts, f);
    } else {
      ExecKeepsSound(net, s, acts);
      ExecImprovesRecords(net, s, acts);
      TaughtStays(net, s, Exec(net, s, acts), f);
    }
  }

  /** A round at whose start every better end has its true distance, and is near or already heard, settles the network. */
  lemma RoundSettles(net: Net, s: Fabric, acts: seq<Action>)
    requires WellFormed(net) && Sound(net, s) && IsRound(net, s, acts) && EndsReady(net, s)
    ensures Settled(net, Exec(net, s, acts))
  {
    var t := Exec(net, s, acts);
    ExecKeepsSound(net, s, acts);
    if !Settled(net, t) {
      var f := UnsettledLink(net, t);
      SettledAtLink(net, s, acts, f);
      assert false;
    }
  }

  lemma UnsettledLink(net: Net, t: Fabric) returns (f: Endpoint)
    requires Matches(net, t) && !Settled(net, t)
    ensures f in net.peer && IsEndpoint(net, f) && PortAt(t, f).role == RoleDesignated && !Taught(net, t, f)
  {
    f :| && f in net.peer && IsEndpoint(net, f) && IsEndpoint(net, net.peer[f]) && PortAt(t, f).role == RoleDesignated
         && !(PortAt(t, net.peer[f]).received.Some? && PortAt(t, net.peer[f]).received.value.vector == OwnAt(net, t, f));
  }

  lemma SettledAtLink(net: Net, s: Fabric, acts: seq<Action>, f: Endpoint)
    requires WellFormed(net) && Sound(net, s) && IsRound(net, s, acts) && EndsReady(net, s)
    requires Sound(net, Exec(net, s, acts)) && f in net.peer && PortAt(Exec(net, s, acts), f).role == RoleDesignated
    ensures Taught(net, Exec(net, s, acts), f)
  {
    var t, e := Exec(net, s, acts), net.peer[f];
    OneEndIsBetter(net, f);
    if BetterEnd(net, f) {
      ReadyLinkIsTaught(net, s, acts, f);
    } else {
      ReadyLinkIsTaught(net, s, acts, e);
      BetterEndWins(net, t, e);
      DesignatedBeatsRecord(net, t, f);
      CompareIsStrictTotalOrder(OwnAt(net, t, f), OwnAt(net, t, e), OwnAt(net, t, f));
      assert false;
    }
  }

  // ----- Main results -----

  /** d rounds after any run from a fresh start, a network of any size is settled in which the better end of every link is
      within fewer than d links of its root, for d at most 10. */
  lemma RoundsSettle(net: Net, d: nat, before: seq<Action>, rounds: seq<seq<Action>>)
    requires WellFormed(net) && CloseEnds(net, d) && d <= 10
    requires AreRounds(net, Exec(net, Start(net), before), rounds) && |rounds| >= d
    ensures Sound(net, ExecRounds(net, Exec(net, Start(net), before), rounds))
    ensures Settled(net, ExecRounds(net, Exec(net, Start(net), before), rounds))
  {
    var s := Exec(net, Start(net), before);
    EveryRunIsTraced(net, before);
    RoundsKeepSound(net, s, rounds);
    if !Settled(net, ExecRounds(net, s, rounds)) {
      var f := UnsettledLink(net, ExecRounds(net, s, rounds));
      CloseEndsArePositive(net, d, f);
      LastRoundSettles(net, d, before, rounds);
    }
  }

  lemma LastRoundSettles(net: Net, d: nat, before: seq<Action>, rounds: seq<seq<Action>>)
    requires WellFormed(net) && CloseEnds(net, d) && d <= 10 && Sound(net, Exec(net, Start(net), before))
    requires AreRounds(net, Exec(net, Start(net), before), rounds) && |rounds| >= d && rounds != []
    ensures Settled(net, ExecRounds(net, Exec(net, Start(net), before), rounds))
  {
    var s, n := Exec(net, Start(net), before), |rounds| - 1;
    var m := LastRound(net, s, rounds);
    RoundsKeepSound(net, s, rounds[..n]);
    RoundsReadyEnds(net, d, before, rounds[..n]);
    RoundSettles(net, m, rounds[n]);
  }

  lemma RoundsReadyEnds(net: Net, d: nat, before: seq<Action>, rounds: seq<seq<Action>>)
    requires WellFormed(net) && CloseEnds(net, d) && d <= 10
    requires AreRounds(net, Exec(net, Start(net), before), rounds) && |rounds| >= d - 1
    ensures EndsReady(net, ExecRounds(net, Exec(net, Start(net), before), rounds))
  {
    var m := ExecRounds(net, Exec(net, Start(net), before), rounds);
    forall f | f in net.peer && BetterEnd(net, f) ensures Exact(net, m, f.bridge) && Within(net, f.bridge, 9) {
      var w := BestWalkExists(net, f.bridge);
      assert Links(w) < d;
      RoundsFindShortestPaths(net, before, rounds, w);
      KnowingIsExact(net, m, w);
    }
  }

  lemma CloseEndsArePositive(net: Net, d: nat, f: Endpoint)
    requires WellFormed(net) && CloseEnds(net, d) && f in net.peer
    ensures d > 0
  {
    OneEndIsBetter(net, f);
    var e := if BetterEnd(net, f) then f else net.peer[f];
    var w := BestWalkExists(net, e.bridge);
    assert Links(w) < d;
  }

  /** A link whose better end has only best walks of ten links or more is settled in no state of any run: what that end
      knows is too old to send, so its neighbour never hears it. */
  lemma NeverSettles(net: Net, s: Fabric, f: Endpoint)
    requires WellFormed(net) && Sound(net, s) && f in net.peer && BetterEnd(net, f) && Beyond(net, f.bridge, 9)
    ensures !Settled(net, s)
  {
    if Settled(net, s) {
      var e := net.peer[f];
      var w := BestWalkExists(net, f.bridge);
      SettledFindsShortestPaths(net, s, First(w), f.bridge);
      KnowingIsExact(net, s, w);
      BetterEndWins(net, s, f);
      CompareIsStrictTotalOrder(OwnAt(net, s, f), OwnAt(net, s, e), OwnAt(net, s, f));
      if PortAt(s, f).role != RoleDesignated {
        UndesignatedIsBeaten(net, s, f);
      }
      RecordIsShort(net, s, f, w);
      assert false;
    }
  }

  /** A record of a bridge's true distance came over a best walk of at most nine links. */
  lemma RecordIsShort(net: Net, s: Fabric, f: Endpoint, w: Walk)
    requires WellFormed(net) && Sound(net, s) && f in net.peer && BestWalk(net, w) && Last(w) == f.bridge
    requires Exact(net, s, f.bridge)
    requires PortAt(s, net.peer[f]).received.Some? && PortAt(s, net.peer[f]).received.value.vector == OwnAt(net, s, f)
    ensures !Beyond(net, f.bridge, 9)
  {
    var e := net.peer[f];
    assert BridgeSound(net, s, e.bridge);
    var m := PortAt(s, e).received.value;
    assert SentToward(net, s, e, m) && m.age < MAX_AGE;
    var v :| Witness(net, s, v, f.bridge, m.vector.rootID, m.vector.rootPathCost, m.age);
    SameBridge(net, First(v), First(w));
    assert BestWalk(net, v) && Links(v) <= 9;
  }

  /** In particular, a link both of whose ends are ten or more links out on every best walk is never settled. */
  lemma FarLinkNeverSettles(net: Net, s: Fabric, f: Endpoint)
    requires WellFormed(net) && Sound(net, s) && f in net.peer
    requires Beyond(net, f.bridge, 9) && Beyond(net, net.peer[f].bridge, 9)
    ensures !Settled(net, s)
  {
    OneEndIsBetter(net, f);
    NeverSettles(net, s, if BetterEnd(net, f) then f else net.peer[f]);
  }

  /** Where no tie straddles the limit, ten rounds settle a network exactly if the better end of every link is within nine
      links of its root; otherwise no run ever settles it. */
  lemma SettlesExactly(net: Net, before: seq<Action>, rounds: seq<seq<Action>>)
    requires WellFormed(net) && AreRounds(net, Exec(net, Start(net), before), rounds) && |rounds| >= 10
    requires forall f :: f in net.peer && BetterEnd(net, f) ==> Within(net, f.bridge, 9) || Beyond(net, f.bridge, 9)
    ensures Settled(net, ExecRounds(net, Exec(net, Start(net), before), rounds)) <==> CloseEnds(net, 10)
  {
    var s := Exec(net, Start(net), before);
    EveryRunIsTraced(net, before);
    RoundsKeepSound(net, s, rounds);
    if CloseEnds(net, 10) {
      RoundsSettle(net, 10, before, rounds);
    } else {
      var f, w :| f in net.peer && BetterEnd(net, f) && BestWalk(net, w) && Last(w) == f.bridge && Links(w) >= 10;
      NeverSettles(net, ExecRounds(net, s, rounds), f);
    }
  }

  /** Where all ports cost the same, no tie straddles any limit. */
  lemma EqualCostsDoNotStraddle(net: Net, b: nat, c: nat, k: nat)
    requires WellFormed(net) && EqualCosts(net, c) && c > 0 && b < |net.bridges|
    ensures Within(net, b, k) || Beyond(net, b, k)
  {
    var w := BestWalkExists(net, b);
    forall v | BestWalk(net, v) && Last(v) == b ensures Links(v) == Links(w) {
      BestWalksAgree(net, v, w);
      CheaperIsShorter(net, v, w, c);
      CheaperIsShorter(net, w, v, c);
    }
  }

  // ----- Networks without long walks -----

  /** The better end of a link is reached without the link, so the link makes a best walk to it longer, not repetitive. */
  lemma ShallowIsClose(net: Net, d: nat)
    requires WellFormed(net) && Shallow(net, d)
    ensures CloseEnds(net, d)
  {
    forall f, w | f in net.peer && BetterEnd(net, f) && BestWalk(net, w) && Last(w) == f.bridge ensures Links(w) < d {
      BestWalkIsSimple(net, w);
      BestWalkAvoidsWorseEnd(net, f, w);
      var longer := Hop(w, net.peer[f]);
      assert IsWalk(net, longer) && Simple(longer);
    }
  }

  lemma BestWalkAvoidsWorseEnd(net: Net, f: Endpoint, w: Walk)
    requires WellFormed(net) && f in net.peer && BetterEnd(net, f) && BestWalk(net, w) && Last(w) == f.bridge
    ensures net.peer[f].bridge !in Visits(w)
  {
    var e := net.peer[f];
    var u := BestWalkExists(net, e.bridge);
    if e.bridge in Visits(w) {
      PeersShareBest(net, First(w), f);
      BestIsUnique(net, First(w), First(u), e.bridge);
      EarlierIsNearer(net, w, u);
      assert false;
    }
  }

  lemma EarlierIsNearer(net: Net, w: Walk, u: Walk)
    requires WellFormed(net) && BestWalk(net, w) && BestWalk(net, u) && First(u) == First(w)
    requires Last(u) in Visits(w) && Last(u) != Last(w)
    ensures !Nearer(net, w, u)
  {
    var v := CutAt(net, w, Last(u));
    assert Cost(net, u) <= Cost(net, v) < Cost(net, w);
  }

  /** In particular n - 1 rounds settle n <= 11 bridges, however they are joined. */
  lemma FewBridgesSettle(net: Net, before: seq<Action>, rounds: seq<seq<Action>>)
    requires WellFormed(net) && 0 < |net.bridges| <= 11
    requires AreRounds(net, Exec(net, Start(net), before), rounds) && |rounds| >= |net.bridges| - 1
    ensures Settled(net, ExecRounds(net, Exec(net, Start(net), before), rounds))
  {
    FewIsShallow(net);
    ShallowIsClose(net, |net.bridges| - 1);
    RoundsSettle(net, |net.bridges| - 1, before, rounds);
  }
}
