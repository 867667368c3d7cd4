/** The links a settled spanning tree leaves open: frames that never turn back on them never meet a bridge twice,
    have one way to every bridge, and do have that way. */
module ForwardingTree {
  import opened Wrappers
  import opened StpBridge
  import opened StpNetwork
  import opened StpPaths
  import opened StpSafety
  import opened StpConvergence
  import opened StpTree
  import opened StpSettling

  /** Every port with a forwarding role has been promoted to forwarding. */
  ghost predicate Promoted(s: Fabric) {
    forall b, i | 0 <= b < |s.bridges| && 0 <= i < |s.bridges[b].ports| ::
      s.bridges[b].ports[i].role == RoleRoot || s.bridges[b].ports[i].role == RoleDesignated ==>
        s.bridges[b].ports[i].state == StateForwarding
  }

  /** A state of a run from a fresh start that has settled, with its ports promoted. */
  ghost predicate Ready(net: Net, s: Fabric) {
    WellFormed(net) && Sound(net, s) && Settled(net, s) && Promoted(s)
  }

  /** The switching path may send and receive data frames on this port. */
  predicate CanForward(s: Fabric, e: Endpoint)
    requires e.bridge < |s.bridges| && e.port < |s.bridges[e.bridge].ports|
  {
    PortAt(s, e).state == StateForwarding
  }

  function CostAt(s: Fabric, b: nat): nat
    requires b < |s.bridges|
  {
    s.bridges[b].rootPathCost
  }

  /** Both ends of f's link forward. */
  predicate Open(net: Net, s: Fabric, f: Endpoint)
    requires Matches(net, s)
  {
    && f in net.peer && IsEndpoint(net, f) && IsEndpoint(net, net.peer[f])
    && CanForward(s, f) && CanForward(s, net.peer[f])
  }

  predicate IsRootPort(s: Fabric, e: Endpoint)
    requires e.bridge < |s.bridges|
  {
    s.bridges[e.bridge].rootPort == Some(e.port)
  }

  lemma RoleIsRoot(net: Net, s: Fabric, e: Endpoint)
    requires Sound(net, s) && IsEndpoint(net, e)
    ensures IsRootPort(s, e) <==> PortAt(s, e).role == RoleRoot
  {
    assert BridgeSound(net, s, e.bridge);
    assert PortAt(s, e).role == RoleFor(net.bridges[e.bridge], s.bridges[e.bridge], e.port);
  }

  lemma ForwardingIffRole(net: Net, s: Fabric, e: Endpoint)
    requires Ready(net, s) && IsEndpoint(net, e)
    ensures CanForward(s, e) <==> PortAt(s, e).role == RoleRoot || PortAt(s, e).role == RoleDesignated
  {
    assert BridgeSound(net, s, e.bridge);
    assert PortAt(s, e).role == RoleFor(net.bridges[e.bridge], s.bridges[e.bridge], e.port);
  }

  /** A root port is joined to a designated port that is closer to the root by exactly the link's cost. */
  lemma RootPortClimbs(net: Net, s: Fabric, e: Endpoint)
    requires Ready(net, s) && IsEndpoint(net, e) && IsRootPort(s, e)
    ensures e in net.peer && Open(net, s, e)
    ensures CostAt(s, e.bridge) == CostAt(s, net.peer[e].bridge) + PathCost(net, e)
    ensures s.bridges[e.bridge].rootID == s.bridges[net.peer[e].bridge].rootID
  {
    RoleIsRoot(net, s, e);
    assert BridgeSound(net, s, e.bridge);
    var e', m := RootRecord(net, s, e.bridge, s.bridges[e.bridge]);
    OneDesignatedEnd(net, s, e);
    ForwardingIffRole(net, s, e);
    ForwardingIffRole(net, s, net.peer[e]);
  }

  /** The links left open are exactly those with a root port at one end and, at the other, the port it is joined to. */
  lemma OpenIffRootPort(net: Net, s: Fabric, f: Endpoint)
    requires Ready(net, s) && f in net.peer
    ensures Open(net, s, f) <==> IsRootPort(s, f) || IsRootPort(s, net.peer[f])
    ensures !(IsRootPort(s, f) && IsRootPort(s, net.peer[f]))
  {
    var e := net.peer[f];
    RoleIsRoot(net, s, f);
    RoleIsRoot(net, s, e);
    ForwardingIffRole(net, s, f);
    ForwardingIffRole(net, s, e);
    OneDesignatedEnd(net, s, f);
  }

  // ----- Walks of a frame that never leaves through the port it came in by -----

  /** Every hop crosses an open link, and no hop goes straight back. */
  ghost predicate Onward(net: Net, s: Fabric, w: Walk)
    requires Matches(net, s)
  {
    IsWalk(net, w) && match w
      case Origin(_) => true
      case Hop(p, e) => Onward(net, s, p) && Open(net, s, net.peer[e]) && (p.Hop? ==> net.peer[e] != p.via)
  }

  /** The last hop goes from a bridge to its parent. */
  predicate EndsUp(net: Net, s: Fabric, w: Walk)
    requires Matches(net, s) && IsWalk(net, w)
  {
    w.Hop? && IsRootPort(s, net.peer[w.via])
  }

  /** The last hop goes to a child. */
  predicate EndsDown(net: Net, s: Fabric, w: Walk)
    requires Matches(net, s) && IsWalk(net, w)
  {
    w.Hop? && IsRootPort(s, w.via)
  }

  lemma UpOrDown(net: Net, s: Fabric, w: Walk)
    requires Ready(net, s) && Onward(net, s, w) && w.Hop?
    ensures EndsUp(net, s, w) != EndsDown(net, s, w)
    ensures EndsUp(net, s, w) ==> CostAt(s, Last(w)) < CostAt(s, Last(w.prior))
    ensures EndsDown(net, s, w) ==> CostAt(s, Last(w.prior)) < CostAt(s, Last(w))
  {
    var f := net.peer[w.via];
    OpenIffRootPort(net, s, f);
    if IsRootPort(s, f) {
      RootPortClimbs(net, s, f);
    } else {
      RootPortClimbs(net, s, w.via);
    }
  }

  /** A walk that goes up was going up all along: from a child the only way up is the way it came. */
  ghost predicate AllUp(net: Net, s: Fabric, w: Walk)
    requires Matches(net, s) && IsWalk(net, w)
  {
    w.Hop? ==> EndsUp(net, s, w) && AllUp(net, s, w.prior)
  }

  lemma {:induction false} UpMeansAllUp(net: Net, s: Fabric, w: Walk)
    requires Ready(net, s) && Onward(net, s, w) && (w.Hop? ==> EndsUp(net, s, w))
    ensures AllUp(net, s, w)
    ensures forall b :: b in Visits(w) && b != Last(w) ==> b < |s.bridges| && CostAt(s, b) > CostAt(s, Last(w))
  {
    if w.Hop? {
      var p := w.prior;
      UpOrDown(net, s, w);
      if p.Hop? {
        UpOrDown(net, s, p);
      }
      UpMeansAllUp(net, s, p);
    }
  }

  predicate IsPrefix(u: Walk, w: Walk) {
    u == w || (w.Hop? && IsPrefix(u, w.prior))
  }

  lemma {:induction false} PrefixEnds(u: Walk, w: Walk)
    requires IsPrefix(u, w)
    ensures Last(u) in Visits(w) && First(u) == First(w)
  {
    if u != w {
      PrefixEnds(u, w.prior);
    } else if w.Hop? {
      FirstOfPrior(w);
    }
  }

  lemma FirstOfPrior(w: Walk)
    ensures Last(w) in Visits(w)
  {
  }

  lemma PrefixToSameEnd(u: Walk, w: Walk)
    requires IsPrefix(u, w) && Simple(w) && Last(u) == Last(w)
    ensures u == w
  {
    if u != w {
      PrefixEnds(u, w.prior);
    }
  }

  /** A bridge seen before either is no farther from the root than the end, or was left upwards. */
  lemma {:induction false} SeenBefore(net: Net, s: Fabric, w: Walk, b: nat) returns (u: Walk)
    requires Ready(net, s) && Onward(net, s, w) && b in Visits(w) && b < |s.bridges|
    ensures CostAt(s, Last(w)) >= CostAt(s, b)
         || (IsPrefix(u, w) && u.Hop? && IsWalk(net, u) && Last(u.prior) == b && EndsUp(net, s, u))
  {
    u := w;
    if b != Last(w) {
      UpOrDown(net, s, w);
      u := SeenBefore(net, s, w.prior, b);
      if CostAt(s, Last(w.prior)) >= CostAt(s, b) && EndsUp(net, s, w) {
        if w.prior.Hop? {
          UpOrDown(net, s, w.prior);
        }
        UpMeansAllUp(net, s, w.prior);
        u := w;
      }
    }
  }

  /** A frame that never turns back meets no bridge twice. */
  lemma {:induction false} OnwardIsSimple(net: Net, s: Fabric, w: Walk)
    requires Ready(net, s) && Onward(net, s, w)
    ensures Simple(w)
  {
    if w.Hop? {
      OnwardIsSimple(net, s, w.prior);
      NoReturn(net, s, w);
    }
  }

  lemma NoReturn(net: Net, s: Fabric, w: Walk)
    requires Ready(net, s) && Onward(net, s, w) && w.Hop? && Simple(w.prior)
    ensures w.via.bridge !in Visits(w.prior)
  {
    var p, e := w.prior, w.via;
    if e.bridge in Visits(p) {
      UpOrDown(net, s, w);
      if EndsUp(net, s, w) {
        UpMeansAllUp(net, s, w);
        if p.Hop? {
          UpOrDown(net, s, p);
        }
        UpMeansAllUp(net, s, p);
        assert false;
      } else {
        var u := SeenBefore(net, s, p, e.bridge);
        assert net.peer[u.via] == e;
        PrefixToSameEnd(u, p);
        assert false;
      }
    }
  }

  // ----- One way only -----

  lemma {:induction false} NextHopOfPrefix(net: Net, s: Fabric, u: Walk, w: Walk) returns (v: Walk)
    requires Matches(net, s) && Onward(net, s, w) && AllUp(net, s, w) && IsPrefix(u, w) && u != w
    ensures v.Hop? && v.prior == u && IsPrefix(v, w) && IsWalk(net, v) && EndsUp(net, s, v)
  {
    if w.prior == u {
      v := w;
    } else {
      v := NextHopOfPrefix(net, s, u, w.prior);
    }
  }

  lemma {:induction false} OriginIsPrefix(w: Walk)
    ensures IsPrefix(Origin(First(w)), w)
  {
    if w.Hop? {
      OriginIsPrefix(w.prior);
    }
  }

  lemma {:induction false} PrefixTransitive(u: Walk, v: Walk, w: Walk)
    requires IsPrefix(u, v) && IsPrefix(v, w)
    ensures IsPrefix(u, w)
  {
    if v != w {
      PrefixTransitive(u, v, w.prior);
    }
  }

  /** Two walks up from the same bridge follow the same root ports. */
  lemma {:induction false} UpWalksAgree(net: Net, s: Fabric, u: Walk, v: Walk)
    requires Ready(net, s) && Onward(net, s, u) && Onward(net, s, v) && AllUp(net, s, u) && AllUp(net, s, v)
    requires First(u) == First(v)
    ensures IsPrefix(u, v) || IsPrefix(v, u)
  {
    match u
    case Origin(_) => OriginIsPrefix(v);
    case Hop(p, e) =>
      UpWalksAgree(net, s, p, v);
      if IsPrefix(v, p) {
        assert IsPrefix(v, u);
      } else {
        var x := NextHopOfPrefix(net, s, p, v);
        assert net.peer[x.via] == net.peer[e];
        assert net.peer[net.peer[x.via]] == x.via && net.peer[net.peer[e]] == e;
        assert x == u;
      }
  }

  /** The part of the walk before it starts down. */
  lemma {:induction false} Climb(net: Net, s: Fabric, w: Walk) returns (u: Walk)
    requires Ready(net, s) && Onward(net, s, w)
    ensures Onward(net, s, u) && AllUp(net, s, u) && IsPrefix(u, w) && First(u) == First(w)
    ensures CostAt(s, Last(u)) <= CostAt(s, Last(w))
    ensures EndsDown(net, s, w) ==> u != w && CostAt(s, Last(u)) < CostAt(s, Last(w))
  {
    if w.Origin? {
      u := w;
    } else {
      UpOrDown(net, s, w);
      if EndsUp(net, s, w) {
        UpMeansAllUp(net, s, w);
        u := w;
      } else {
        u := Climb(net, s, w.prior);
      }
    }
  }

  lemma UpWalkLeadsElsewhere(net: Net, s: Fabric, v: Walk, w: Walk)
    requires Ready(net, s) && Onward(net, s, v) && Onward(net, s, w)
    requires First(v) == First(w) && EndsUp(net, s, v) && EndsDown(net, s, w)
    ensures Last(v) != Last(w)
  {
    if Last(v) == Last(w) {
      UpMeansAllUp(net, s, v);
      var u := Climb(net, s, w);
      UpWalksAgree(net, s, u, v);
      if IsPrefix(v, u) {
        PrefixTransitive(v, u, w);
        OnwardIsSimple(net, s, w);
        PrefixToSameEnd(v, w);
        UpOrDown(net, s, w);
        assert false;
      } else {
        PrefixEnds(u, v);
        assert false;
      }
    }
  }

  /** Between two bridges there is at most one walk that never turns back. */
  lemma {:induction false} OneWay(net: Net, s: Fabric, v: Walk, w: Walk)
    requires Ready(net, s) && Onward(net, s, v) && Onward(net, s, w)
    requires First(v) == First(w) && Last(v) == Last(w)
    ensures v == w
  {
    OnwardIsSimple(net, s, v);
    OnwardIsSimple(net, s, w);
    OriginIsPrefix(v);
    OriginIsPrefix(w);
    if v.Origin? {
      PrefixToSameEnd(v, w);
    } else if w.Origin? {
      PrefixToSameEnd(w, v);
    } else {
      UpOrDown(net, s, v);
      UpOrDown(net, s, w);
      if EndsUp(net, s, v) != EndsUp(net, s, w) {
        if EndsUp(net, s, v) {
          UpWalkLeadsElsewhere(net, s, v, w);
        } else {
          UpWalkLeadsElsewhere(net, s, w, v);
        }
        assert false;
      } else if EndsUp(net, s, v) {
        UpMeansAllUp(net, s, v);
        UpMeansAllUp(net, s, w);
        UpWalksAgree(net, s, v, w);
        if IsPrefix(v, w) {
          PrefixToSameEnd(v, w);
        } else {
          PrefixToSameEnd(w, v);
        }
      } else {
        assert v.via == w.via;
        OneWay(net, s, v.prior, w.prior);
      }
    }
  }

  // ----- And a way there is -----

  /** A walk over open links, which may turn back. */
  ghost predicate Along(net: Net, s: Fabric, w: Walk)
    requires Matches(net, s)
  {
    IsWalk(net, w) && (w.Hop? ==> Along(net, s, w.prior) && Open(net, s, net.peer[w.via]))
  }

  /** Cancelling the hops that turn back leaves an onward walk between the same bridges. */
  lemma {:induction false} Straighten(net: Net, s: Fabric, w: Walk) returns (v: Walk)
    requires Ready(net, s) && Along(net, s, w)
    ensures Onward(net, s, v) && First(v) == First(w) && Last(v) == Last(w)
  {
    match w
    case Origin(_) => v := w;
    case Hop(p, e) =>
      var u := Straighten(net, s, p);
      if u.Hop? && net.peer[e] == u.via {
        assert net.peer[u.via] == e;
        v := u.prior;
      } else {
        v := Hop(u, e);
      }
  }

  /** A walk over open links can be continued up to a bridge that believes it is the root. */
  lemma {:induction false} ClimbToRoot(net: Net, s: Fabric, w: Walk) returns (v: Walk)
    requires Ready(net, s) && Along(net, s, w)
    ensures Along(net, s, v) && First(v) == First(w)
    ensures s.bridges[Last(v)].rootPort == None && s.bridges[Last(v)].rootID == s.bridges[Last(w)].rootID
    decreases CostAt(s, Last(w))
  {
    v := w;
    if s.bridges[Last(w)].rootPort.Some? {
      assert BridgeSound(net, s, Last(w));
      var f := Endpoint(Last(w), s.bridges[Last(w)].rootPort.value);
      RootPortClimbs(net, s, f);
      v := ClimbToRoot(net, s, Hop(w, net.peer[f]));
    }
  }

  /** A walk that ends at the root can be continued down to any bridge with that root. */
  lemma {:induction false} DescendTo(net: Net, s: Fabric, w: Walk, b: nat) returns (v: Walk)
    requires Ready(net, s) && Along(net, s, w) && b < |s.bridges|
    requires s.bridges[Last(w)].rootPort == None && s.bridges[Last(w)].rootID == s.bridges[b].rootID
    ensures Along(net, s, v) && First(v) == First(w) && Last(v) == b
    decreases CostAt(s, b)
  {
    assert BridgeSound(net, s, b) && BridgeSound(net, s, Last(w));
    if s.bridges[b].rootPort == None {
      SameBridge(net, b, Last(w));
      v := w;
    } else {
      var e := Endpoint(b, s.bridges[b].rootPort.value);
      RootPortClimbs(net, s, e);
      var u := DescendTo(net, s, w, net.peer[e].bridge);
      v := Hop(u, e);
    }
  }

  /** Any two connected bridges are joined by an onward walk over the links left open: the tree spans. */
  lemma TreeSpans(net: Net, s: Fabric, a: nat, b: nat) returns (v: Walk)
    requires Ready(net, s) && Reaches(net, a, b) && a < |net.bridges| && b < |net.bridges|
    ensures Onward(net, s, v) && First(v) == a && Last(v) == b
  {
    var r := BestExists(net, a, |net.bridges|);
    BestIsShared(net, r, a, b);
    SettledFindsShortestPaths(net, s, r, a);
    SettledFindsShortestPaths(net, s, r, b);
    var up := ClimbToRoot(net, s, Origin(a));
    var down := DescendTo(net, s, up, b);
    v := Straighten(net, s, down);
  }

  /** Onward walks over the links left open reach exactly the connected bridges, each by exactly one walk:
      the open links form a spanning tree of every component. */
  lemma OpenLinksSpanOnce(net: Net, s: Fabric, a: nat, b: nat)
    requires Ready(net, s) && a < |net.bridges| && b < |net.bridges|
    ensures Reaches(net, a, b) <==> exists w :: Onward(net, s, w) && First(w) == a && Last(w) == b
    ensures forall v, w :: Onward(net, s, v) && Onward(net, s, w) && First(v) == First(w) == a && Last(v) == Last(w) == b ==> v == w
    ensures forall w :: Onward(net, s, w) ==> Links(w) < |net.bridges|
  {
    if Reaches(net, a, b) {
      var w := TreeSpans(net, s, a, b);
    }
    forall v, w | Onward(net, s, v) && Onward(net, s, w) && First(v) == First(w) == a && Last(v) == Last(w) == b
      ensures v == w
    {
      OneWay(net, s, v, w);
    }
    forall w | Onward(net, s, w) ensures Links(w) < |net.bridges| {
      OnwardIsSimple(net, s, w);
      SimpleIsShort(net, w);
    }
  }

  // ----- Reaching a ready state -----

  /** promoteForwardingPorts on bridges i to n - 1. */
  function PromoteFrom(i: nat, n: nat): seq<Action>
    requires i <= n
    decreases n - i
  {
    if i == n then [] else [Promote(i)] + PromoteFrom(i + 1, n)
  }

  lemma {:induction false} PromotesRest(net: Net, s: Fabric, i: nat)
    requires Matches(net, s) && i <= |s.bridges|
    ensures var t := Exec(net, s, PromoteFrom(i, |s.bridges|));
            forall b :: 0 <= b < |s.bridges| ==> t.bridges[b] == if b < i then s.bridges[b] else PromoteAll(s.bridges[b])
    decreases |s.bridges| - i
  {
    if i < |s.bridges| {
      var acts := PromoteFrom(i, |s.bridges|);
      assert acts[0] == Promote(i) && acts[1..] == PromoteFrom(i + 1, |s.bridges|);
      PromotesRest(net, Step(net, s, Promote(i)), i + 1);
    }
  }

  lemma PromotionKeepsSettled(net: Net, s: Fabric, t: Fabric)
    requires Matches(net, s) && Matches(net, t) && Settled(net, s)
    requires forall b :: 0 <= b < |s.bridges| ==> t.bridges[b] == PromoteAll(s.bridges[b])
    ensures Settled(net, t)
  {
    forall f | f in net.peer && IsEndpoint(net, f) && IsEndpoint(net, net.peer[f]) && PortAt(t, f).role == RoleDesignated
      ensures PortAt(t, net.peer[f]).received.Some? && PortAt(t, net.peer[f]).received.value.vector == OwnAt(net, t, f)
    {
      assert PortAt(t, f) == PromotePort(PortAt(s, f));
      assert PortAt(t, net.peer[f]) == PromotePort(PortAt(s, net.peer[f]));
    }
  }

  lemma PromotionPromotes(net: Net, s: Fabric, t: Fabric)
    requires Matches(net, s) && Matches(net, t)
    requires forall b :: 0 <= b < |s.bridges| ==> t.bridges[b] == PromoteAll(s.bridges[b])
    ensures Promoted(t)
  {
    forall b, i | 0 <= b < |t.bridges| && 0 <= i < |t.bridges[b].ports|
      ensures t.bridges[b].ports[i] == PromotePort(s.bridges[b].ports[i])
    {
    }
  }

  /** d rounds of hellos and the promotion of all ports, after any run from a fresh start, make a network ready in which
      the better end of every link is within fewer than d <= 10 links of its root. */
  lemma RoundsMakeReady(net: Net, d: nat, before: seq<Action>, rounds: seq<seq<Action>>)
    requires WellFormed(net) && CloseEnds(net, d) && d <= 10
    requires AreRounds(net, Exec(net, Start(net), before), rounds) && |rounds| >= d
    ensures var s := ExecRounds(net, Exec(net, Start(net), before), rounds);
            Ready(net, Exec(net, s, PromoteFrom(0, |net.bridges|)))
  {
    var s := ExecRounds(net, Exec(net, Start(net), before), rounds);
    RoundsSettle(net, d, before, rounds);
    ExecKeepsSound(net, s, PromoteFrom(0, |net.bridges|));
    PromotesRest(net, s, 0);
    var t := Exec(net, s, PromoteFrom(0, |net.bridges|));
    PromotionKeepsSettled(net, s, t);
    PromotionPromotes(net, s, t);
  }
}
