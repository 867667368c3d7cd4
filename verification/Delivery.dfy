/** Known unicast: a frame whose destination the bridges on its way have learned goes straight to the station. */
module Delivery {
  import opened Wrappers
  import opened StpVector
  import opened StpBridge
  import opened StpNetwork
  import opened StpSafety
  import opened StpTree
  import opened ForwardingTree
  import opened Flooding
  import opened Switching

  /** Every bridge of the walk has learned the station, and the VLAN is allowed on both ends of its links. The walk leads from
      the station's bridge. */
  ghost predicate KnownAlong(net: Net, allowed: set<Endpoint>, learned: map<(nat, Mac), nat>, m: Mac, w: Walk) {
    && (Last(w), m) in learned
    && (w.Hop? ==> w.via in allowed && w.via in net.peer && net.peer[w.via] in allowed && KnownAlong(net, allowed, learned, m, w.prior))
  }

  lemma {:induction false} LearningOtherKeepsKnown(net: Net, allowed: set<Endpoint>, learned: map<(nat, Mac), nat>, m: Mac, w: Walk, e: Endpoint, other: Mac)
    requires KnownAlong(net, allowed, learned, m, w)
    ensures KnownAlong(net, allowed, Learn(learned, e, other), m, w)
  {
    if w.Hop? {
      LearningOtherKeepsKnown(net, allowed, learned, m, w.prior, e, other);
    }
  }

  lemma HeardPortHasLink(net: Net, s: Fabric, e: Endpoint)
    requires Sound(net, s) && IsEndpoint(net, e) && PortAt(s, e).received.Some?
    ensures e in net.peer
  {
    assert BridgeSound(net, s, e.bridge);
    assert SentToward(net, s, Endpoint(e.bridge, e.port), PortAt(s, e).received.value);
  }

  lemma UnheardPortIsOpen(net: Net, s: Fabric, e: Endpoint)
    requires Sound(net, s) && IsEndpoint(net, e) && PortAt(s, e).received == None
    ensures PortAt(s, e).role == RoleRoot || PortAt(s, e).role == RoleDesignated
  {
    assert BridgeSound(net, s, e.bridge);
    assert PortAt(s, e).role == RoleFor(net.bridges[e.bridge], s.bridges[e.bridge], e.port);
  }

  /** A port without a link has heard nothing, so on a ready tree it forwards. */
  lemma HostPortForwards(net: Net, s: Fabric, e: Endpoint)
    requires Ready(net, s) && IsEndpoint(net, e) && e !in net.peer
    ensures CanForward(s, e)
  {
    if PortAt(s, e).received == None {
      UnheardPortIsOpen(net, s, e);
      ForwardingIffRole(net, s, e);
    } else {
      HeardPortHasLink(net, s, e);
    }
  }

  /** The bridge at the end of a walk from a station has learned the port by which the walk comes in. */
  lemma LearnedIsWayBack(net: Net, s: Fabric, home: map<Mac, Endpoint>, t: Traffic, m: Mac, w: Walk)
    requires Ready(net, s) && TrafficInv(net, s, home, t) && m in home
    requires Onward(net, s, w) && First(w) == home[m].bridge && (Last(w), m) in t.learned
    ensures Endpoint(Last(w), t.learned[(Last(w), m)]) == Ingress(home[m], w)
  {
    var e := Ingress(home[m], w);
    assert e.bridge == Last(w);
    assert LeadsHome(net, s, home[m], Last(w), e.port, w);
    HomePortIsUnique(net, s, home, Last(w), m, t.learned[(Last(w), m)], e.port);
  }

  /** A frame at a bridge on the way: where the way goes on and the port it goes out by. The way is the walk from the
      destination's bridge to this one, taken backwards. */
  ghost predicate Underway(net: Net, s: Fabric, allowed: set<Endpoint>, home: map<Mac, Endpoint>, t: Traffic, f: Flight, w: Walk)
    requires Matches(net, s)
  {
    && t.flights == [f] && f.src in home && f.dst in home && f.src != f.dst && f.dst != BROADCAST
    && IsEndpoint(net, At(home, f)) && CanForward(s, At(home, f)) && At(home, f) in allowed && At(home, f) != Ingress(home[f.dst], w)
    && Onward(net, s, w) && First(w) == home[f.dst].bridge && Last(w) == Last(f.trail)
    && KnownAlong(net, allowed, t.learned, f.dst, w) && home[f.dst] in allowed
  }

  /** The bridge the frame is at takes it in and sends it on this port and no other. */
  ghost predicate LeavesBy(net: Net, s: Fabric, allowed: set<Endpoint>, home: map<Mac, Endpoint>, t: Traffic, f: Flight, o: Endpoint)
    requires Matches(net, s) && TableFits(s, t.learned)
  {
    && f.src in home && IsEndpoint(net, At(home, f)) && CanForward(s, At(home, f)) && At(home, f) in allowed
    && Egress(s, allowed, Learn(t.learned, At(home, f), f.src), At(home, f), f.dst) == [o]
  }

  lemma OneCopy(net: Net, f: Flight, o: Endpoint)
    ensures Flights(net, f, [o]) == if o in net.peer then [f.(trail := Hop(f.trail, net.peer[o]))] else []
  {
    assert [o][1..] == [];
    assert Copies(net, f.trail, [o]) == if o in net.peer then [Hop(f.trail, net.peer[o])] else [];
  }

  /** Handling a frame alone that leaves by one port. */
  lemma HandledAlone(net: Net, s: Fabric, allowed: set<Endpoint>, home: map<Mac, Endpoint>, t: Traffic, f: Flight, o: Endpoint)
    requires Ready(net, s) && TableFits(s, t.learned) && t.flights == [f] && LeavesBy(net, s, allowed, home, t, f, o)
    ensures var r := EventStep(net, s, allowed, home, t, Process(0));
            && r.learned == Learn(t.learned, At(home, f), f.src)
            && r.flights == if o in net.peer then [f.(trail := Hop(f.trail, net.peer[o]))] else []
  {
    LearnIsForward(net, s, At(home, f));
    OneCopy(net, f, o);
    assert Without(t.flights, 0) == [];
    assert EventStep(net, s, allowed, home, t, Process(0)) == ProcessFlight(net, s, allowed, At(home, f), t, 0);
  }

  /** It is sent on the one port that leads to the station. */
  lemma SentOneWay(net: Net, s: Fabric, allowed: set<Endpoint>, home: map<Mac, Endpoint>, t: Traffic, f: Flight, w: Walk)
    requires Ready(net, s) && Attached(net, home) && TrafficInv(net, s, home, t) && Underway(net, s, allowed, home, t, f, w)
    ensures At(home, f).bridge == Last(w) && LeavesBy(net, s, allowed, home, t, f, Ingress(home[f.dst], w))
  {
    assert f in t.flights;
    ArrivedIsOnward(net, s, home, f);
    LearnedIsWayBack(net, s, home, t, f.dst, w);
    WayBackForwards(net, s, allowed, home, t, f, w);
    SentWhereLearned(s, allowed, t.learned, At(home, f), f.src, f.dst, Ingress(home[f.dst], w));
  }

  lemma SentWhereLearned(s: Fabric, allowed: set<Endpoint>, learned: map<(nat, Mac), nat>, e: Endpoint, src: Mac, dst: Mac, o: Endpoint)
    requires TableFits(s, learned) && e.bridge < |s.bridges| && e.port < |s.bridges[e.bridge].ports| && src != dst && dst != BROADCAST
    requires (e.bridge, dst) in learned && o == Endpoint(e.bridge, learned[(e.bridge, dst)]) && o != e && CanForward(s, o) && o in allowed
    ensures Egress(s, allowed, Learn(learned, e, src), e, dst) == [o]
  {
    assert Learn(learned, e, src)[(e.bridge, dst)] == learned[(e.bridge, dst)];
  }

  lemma WayBackForwards(net: Net, s: Fabric, allowed: set<Endpoint>, home: map<Mac, Endpoint>, t: Traffic, f: Flight, w: Walk)
    requires Ready(net, s) && Attached(net, home) && Underway(net, s, allowed, home, t, f, w)
    ensures var o := Ingress(home[f.dst], w); IsEndpoint(net, o) && CanForward(s, o) && o in allowed
  {
    match w
    case Origin(_) => HostPortForwards(net, s, home[f.dst]);
    case Hop(_, e) => assert net.peer[net.peer[e]] == e;
  }

  /** There is one copy of the frame, at so many links from its sender. */
  predicate Alone(t: Traffic, id: nat, links: nat) {
    |t.flights| == 1 && t.flights[0].id == id && Links(t.flights[0].trail) == links
  }

  /** The first frame in flight is handled. */
  ghost predicate Handles(net: Net, s: Fabric, allowed: set<Endpoint>, home: map<Mac, Endpoint>, t: Traffic, r: Traffic)
    requires Matches(net, s)
  {
    TableFits(s, t.learned) && forall ev :: ev == Process(0) ==> EventStep(net, s, allowed, home, t, ev) == r
  }

  lemma NextHop(net: Net, s: Fabric, allowed: set<Endpoint>, home: map<Mac, Endpoint>, t: Traffic, f: Flight, w: Walk) returns (r: Traffic, g: Flight)
    requires Ready(net, s) && Attached(net, home) && TrafficInv(net, s, home, t) && Underway(net, s, allowed, home, t, f, w) && w.Hop?
    ensures Handles(net, s, allowed, home, t, r) && TrafficInv(net, s, home, r)
    ensures g == f.(trail := Hop(f.trail, net.peer[w.via])) && Underway(net, s, allowed, home, r, g, w.prior)
  {
    r, g := EventStep(net, s, allowed, home, t, Process(0)), f.(trail := Hop(f.trail, net.peer[w.via]));
    EventKeepsInv(net, s, allowed, home, t, Process(0));
    SentOneWay(net, s, allowed, home, t, f, w);
    HandledAlone(net, s, allowed, home, t, f, w.via);
    LearningOtherKeepsKnown(net, allowed, t.learned, f.dst, w.prior, At(home, f), f.src);
    StillUnderway(net, s, allowed, home, t, f, w, r, g);
  }

  lemma StillUnderway(net: Net, s: Fabric, allowed: set<Endpoint>, home: map<Mac, Endpoint>, t: Traffic, f: Flight, w: Walk, r: Traffic, g: Flight)
    requires Ready(net, s) && Attached(net, home) && Underway(net, s, allowed, home, t, f, w) && w.Hop?
    requires r.flights == [g] && g == f.(trail := Hop(f.trail, net.peer[w.via])) && KnownAlong(net, allowed, r.learned, f.dst, w.prior)
    ensures Underway(net, s, allowed, home, r, g, w.prior)
  {
    assert net.peer[net.peer[w.via]] == w.via;
    assert Open(net, s, net.peer[w.via]);
  }

  /** A stage of the journey, in one piece. */
  ghost predicate Stage(net: Net, s: Fabric, allowed: set<Endpoint>, home: map<Mac, Endpoint>, t: Traffic, f: Flight, w: Walk) {
    && Matches(net, s)
    && forall v :: v == w ==>
         Underway(net, s, allowed, home, t, f, v) && Ready(net, s) && Attached(net, home) && TrafficInv(net, s, home, t)
  }

  lemma StageIs(net: Net, s: Fabric, allowed: set<Endpoint>, home: map<Mac, Endpoint>, t: Traffic, f: Flight, w: Walk)
    requires Matches(net, s)
    ensures Stage(net, s, allowed, home, t, f, w) <==>
            Ready(net, s) && Attached(net, home) && TrafficInv(net, s, home, t) && Underway(net, s, allowed, home, t, f, w)
  {
    if Stage(net, s, allowed, home, t, f, w) {
      assert Underway(net, s, allowed, home, t, f, w);
    }
  }

  /** Handling the frame takes it to the next bridge of the way, still alone. */
  lemma OneHop(net: Net, s: Fabric, allowed: set<Endpoint>, home: map<Mac, Endpoint>, t: Traffic, f: Flight, w: Walk) returns (r: Traffic, g: Flight)
    requires Stage(net, s, allowed, home, t, f, w) && w.Hop?
    ensures Stage(net, s, allowed, home, r, g, w.prior) && Handles(net, s, allowed, home, t, r) && Alone(t, f.id, Links(f.trail))
    ensures g.id == f.id && g.src == f.src && g.dst == f.dst && Links(g.trail) == Links(f.trail) + 1
  {
    StageIs(net, s, allowed, home, t, f, w);
    r, g := NextHop(net, s, allowed, home, t, f, w);
    StageIs(net, s, allowed, home, r, g, w.prior);
  }

  lemma LastStage(net: Net, s: Fabric, allowed: set<Endpoint>, home: map<Mac, Endpoint>, t: Traffic, f: Flight, w: Walk)
    requires Stage(net, s, allowed, home, t, f, w) && w.Origin?
    ensures Alone(t, f.id, Links(f.trail)) && f.dst in home && w == Origin(home[f.dst].bridge)
  {
    StageIs(net, s, allowed, home, t, f, w);
  }

  function Processes(n: nat): seq<Event> {
    seq(n, _ => Process(0))
  }

  /** The stages of a journey: each handles the one copy there is, which is then one link further. */
  ghost predicate Journey(net: Net, s: Fabric, allowed: set<Endpoint>, home: map<Mac, Endpoint>, stages: seq<Traffic>, id: nat, links: nat)
    requires Matches(net, s)
  {
    && stages != []
    && (forall i :: 0 <= i < |stages| ==> Alone(stages[i], id, links + i))
    && (forall i :: 0 < i < |stages| ==> Handles(net, s, allowed, home, stages[i - 1], stages[i]))
  }

  lemma FirstStage(net: Net, s: Fabric, allowed: set<Endpoint>, home: map<Mac, Endpoint>, t: Traffic, id: nat, links: nat)
    returns (all: seq<Traffic>)
    requires Matches(net, s) && Alone(t, id, links)
    ensures Journey(net, s, allowed, home, all, id, links) && |all| == 1 && all[0] == t
  {
    all := [t];
  }

  lemma OneMoreStage(net: Net, s: Fabric, allowed: set<Endpoint>, home: map<Mac, Endpoint>, t: Traffic, stages: seq<Traffic>, id: nat, links: nat)
    returns (all: seq<Traffic>)
    requires Matches(net, s) && Journey(net, s, allowed, home, stages, id, links + 1)
    requires Alone(t, id, links) && Handles(net, s, allowed, home, t, stages[0])
    ensures Journey(net, s, allowed, home, all, id, links)
    ensures |all| == |stages| + 1 && all[0] == t && all[|stages|] == stages[|stages| - 1]
  {
    all := [t] + stages;
    assert forall i :: 0 < i < |all| ==> all[i] == stages[i - 1];
    forall i | 0 < i < |all| ensures Handles(net, s, allowed, home, all[i - 1], all[i]) {
      if i > 1 {
        assert all[i - 1] == stages[i - 2];
      }
    }
  }

  lemma HandlesIs(net: Net, s: Fabric, allowed: set<Endpoint>, home: map<Mac, Endpoint>, t: Traffic, r: Traffic)
    requires Matches(net, s) && Handles(net, s, allowed, home, t, r)
    ensures EventStep(net, s, allowed, home, t, Process(0)) == r && TableFits(s, r.learned)
  {
  }

  lemma {:induction false} JourneyIsTraffic(net: Net, s: Fabric, allowed: set<Endpoint>, home: map<Mac, Endpoint>, stages: seq<Traffic>, id: nat, links: nat)
    requires Matches(net, s) && Journey(net, s, allowed, home, stages, id, links) && TableFits(s, stages[0].learned)
    ensures stages[|stages| - 1] == Traffics(net, s, allowed, home, stages[0], Processes(|stages| - 1))
    decreases |stages|
  {
    if |stages| > 1 {
      var rest := stages[1..];
      HandlesIs(net, s, allowed, home, stages[0], stages[1]);
      assert forall i :: 0 < i < |rest| ==> rest[i - 1] == stages[i] && rest[i] == stages[i + 1];
      JourneyIsTraffic(net, s, allowed, home, rest, id, links + 1);
      assert Processes(|stages| - 1)[1..] == Processes(|rest| - 1);
    }
  }

  lemma {:induction false} Travels(net: Net, s: Fabric, allowed: set<Endpoint>, home: map<Mac, Endpoint>, t: Traffic, f: Flight, w: Walk)
    returns (stages: seq<Traffic>, r: Traffic, g: Flight)
    requires Stage(net, s, allowed, home, t, f, w)
    ensures |stages| == Links(w) + 1 && stages[0] == t && stages[Links(w)] == r
    ensures Journey(net, s, allowed, home, stages, f.id, Links(f.trail))
    ensures f.dst in home && Stage(net, s, allowed, home, r, g, Origin(home[f.dst].bridge))
    ensures g.src == f.src && g.dst == f.dst
    decreases w
  {
    if w.Origin? {
      r, g := t, f;
      LastStage(net, s, allowed, home, t, f, w);
      stages := FirstStage(net, s, allowed, home, t, f.id, Links(f.trail));
    } else {
      var m, h := OneHop(net, s, allowed, home, t, f, w);
      stages, r, g := Travels(net, s, allowed, home, m, h, w.prior);
      stages := OneMoreStage(net, s, allowed, home, t, stages, f.id, Links(f.trail));
    }
  }

  /** On a ready tree, if every bridge on the way from one station to another has learned the other and the VLAN is allowed
      there, a frame between them arrives: it crosses exactly as many links as lie between their bridges, as one copy at
      every stage, and its last bridge sends it to the station's port and no other. */
  lemma KnownUnicastArrives(net: Net, s: Fabric, allowed: set<Endpoint>, home: map<Mac, Endpoint>, t: Traffic, src: Mac, dst: Mac, w: Walk)
    returns (stages: seq<Traffic>, r: Traffic, g: Flight)
    requires Ready(net, s) && Attached(net, home) && TrafficInv(net, s, home, t) && t.flights == []
    requires src in home && dst in home && home[src] != home[dst] && dst != BROADCAST
    requires Onward(net, s, w) && First(w) == home[dst].bridge && Last(w) == home[src].bridge
    requires KnownAlong(net, allowed, t.learned, dst, w) && home[src] in allowed && home[dst] in allowed
    ensures Distance(net, s, home[dst].bridge, home[src].bridge, Links(w)) && |stages| == Links(w) + 1
    ensures stages[0] == EventStep(net, s, allowed, home, t, Inject(src, dst))
    ensures Journey(net, s, allowed, home, stages, |t.injected|, 0) && stages[Links(w)] == r
    ensures TableFits(s, r.learned) && r == Traffics(net, s, allowed, home, t, [Inject(src, dst)] + Processes(Links(w)))
    ensures r.flights == [g] && g.src == src && g.dst == dst && LeavesBy(net, s, allowed, home, r, g, home[dst])
    ensures EventStep(net, s, allowed, home, r, Process(0)).flights == []
  {
    var u, f := EventStep(net, s, allowed, home, t, Inject(src, dst)), Flight(|t.injected|, Origin(home[src].bridge), src, dst);
    StartsUnderway(net, s, allowed, home, t, src, dst, w, u, f);
    StageIs(net, s, allowed, home, u, f, w);
    stages, r, g := Travels(net, s, allowed, home, u, f, w);
    StageIs(net, s, allowed, home, r, g, Origin(home[dst].bridge));
    JourneyIsTraffic(net, s, allowed, home, stages, |t.injected|, 0);
    assert ([Inject(src, dst)] + Processes(Links(w)))[1..] == Processes(Links(w));
    SentOneWay(net, s, allowed, home, r, g, Origin(home[dst].bridge));
    HandledAlone(net, s, allowed, home, r, g, home[dst]);
  }

  lemma StartsUnderway(net: Net, s: Fabric, allowed: set<Endpoint>, home: map<Mac, Endpoint>, t: Traffic, src: Mac, dst: Mac, w: Walk,
                       u: Traffic, f: Flight)
    requires Ready(net, s) && Attached(net, home) && TrafficInv(net, s, home, t) && t.flights == []
    requires src in home && dst in home && home[src] != home[dst] && dst != BROADCAST
    requires Onward(net, s, w) && First(w) == home[dst].bridge && Last(w) == home[src].bridge
    requires KnownAlong(net, allowed, t.learned, dst, w) && home[src] in allowed && home[dst] in allowed
    requires u == EventStep(net, s, allowed, home, t, Inject(src, dst)) && f == Flight(|t.injected|, Origin(home[src].bridge), src, dst)
    ensures TrafficInv(net, s, home, u) && Underway(net, s, allowed, home, u, f, w)
  {
    EventKeepsInv(net, s, allowed, home, t, Inject(src, dst));
    HostPortForwards(net, s, home[src]);
    assert u.flights == [f];
  }
}
