/** MAC learning, flooding and known-unicast forwarding on a ready spanning tree, for the frames of one VLAN. */
module Switching {
  import opened StpVector
  import opened StpBridge
  import opened StpNetwork
  import opened StpSafety
  import opened StpExchange
  import opened StpTree
  import opened ForwardingTree
  import opened Flooding

  const BROADCAST: Mac := [0xFF, 0xFF, 0xFF, 0xFF, 0xFF, 0xFF]

  /** A copy of a frame: which frame it is, the walk it has made from its sender's bridge, and its addresses. */
  datatype Flight = Flight(id: nat, trail: Walk, src: Mac, dst: Mac)

  /** What each bridge has learned (the port to a MAC address), the copies in flight, the addresses of the frames sent so
      far, by their numbers, and the copies that bridges have taken in. */
  datatype Traffic = Traffic(learned: map<(nat, Mac), nat>, flights: seq<Flight>, injected: seq<(Mac, Mac)>, taken: seq<Flight>)

  const QUIET := Traffic(map[], [], [], [])

  datatype Event = Inject(src: Mac, dst: Mac) | Process(index: nat) | Forget(bridge: nat, mac: Mac)

  /** The port each station is attached to: a host port of some bridge. Stations do not move. */
  ghost predicate Attached(net: Net, home: map<Mac, Endpoint>) {
    forall m :: m in home ==> IsEndpoint(net, home[m]) && home[m] !in net.peer
  }

  predicate CanLearn(s: Fabric, e: Endpoint)
    requires e.bridge < |s.bridges| && e.port < |s.bridges[e.bridge].ports|
  {
    PortAt(s, e).state == StateLearning || PortAt(s, e).state == StateForwarding
  }

  function Learn(learned: map<(nat, Mac), nat>, e: Endpoint, src: Mac): map<(nat, Mac), nat> {
    if src == BROADCAST then learned else learned[(e.bridge, src) := e.port]
  }

  /** The ports a frame that came in on e is sent from, once its source has been learned. */
  function Egress(s: Fabric, allowed: set<Endpoint>, learned: map<(nat, Mac), nat>, e: Endpoint, dst: Mac): seq<Endpoint>
    requires e.bridge < |s.bridges|
    requires forall k :: k in learned && k.0 == e.bridge ==> learned[k] < |s.bridges[e.bridge].ports|
  {
    if dst == BROADCAST || (e.bridge, dst) !in learned
    then Sends(s, allowed, e, |s.bridges[e.bridge].ports|)
    else
      var o := Endpoint(e.bridge, learned[(e.bridge, dst)]);
      if o == e then []
      else if !CanForward(s, o) then []
      else if o !in allowed then []
      else [o]
  }

  predicate TableFits(s: Fabric, learned: map<(nat, Mac), nat>) {
    forall k :: k in learned ==> k.0 < |s.bridges| && learned[k] < |s.bridges[k.0].ports|
  }

  function Flights(net: Net, f: Flight, out: seq<Endpoint>): (r: seq<Flight>)
    ensures |r| <= |out|
    ensures forall g :: g in r ==> exists o :: o in out && o in net.peer && g == f.(trail := Hop(f.trail, net.peer[o]))
  {
    var copies := Copies(net, f.trail, out);
    var r := seq(|copies|, i requires 0 <= i < |copies| => f.(trail := copies[i]));
    assert forall g :: g in r ==> g.trail in copies && g == f.(trail := g.trail);
    r
  }

  function ProcessFlight(net: Net, s: Fabric, allowed: set<Endpoint>, e: Endpoint, t: Traffic, k: nat): (r: Traffic)
    requires Matches(net, s) && k < |t.flights| && IsEndpoint(net, e) && TableFits(s, t.learned)
    ensures TableFits(s, r.learned)
  {
    var f, rest := t.flights[k], Without(t.flights, k);
    if !CanLearn(s, e) || e !in allowed then t.(flights := rest)
    else
      var learned := Learn(t.learned, e, f.src);
      var copies := if CanForward(s, e) then Flights(net, f, Egress(s, allowed, learned, e, f.dst)) else [];
      t.(learned := learned, flights := rest + copies, taken := t.taken + [f])
  }

  /** The frame f has come in on this port of its walk's last bridge. */
  function At(home: map<Mac, Endpoint>, f: Flight): Endpoint
    requires f.src in home
  {
    Ingress(home[f.src], f.trail)
  }

  function EventStep(net: Net, s: Fabric, allowed: set<Endpoint>, home: map<Mac, Endpoint>, t: Traffic, ev: Event): (r: Traffic)
    requires Matches(net, s) && TableFits(s, t.learned)
    ensures TableFits(s, r.learned)
  {
    match ev
    case Inject(src, dst) =>
      if src in home
      then t.(flights := t.flights + [Flight(|t.injected|, Origin(home[src].bridge), src, dst)], injected := t.injected + [(src, dst)])
      else t
    case Process(k) =>
      if k < |t.flights| && t.flights[k].src in home && IsEndpoint(net, At(home, t.flights[k]))
      then ProcessFlight(net, s, allowed, At(home, t.flights[k]), t, k)
      else t
    case Forget(b, m) => t.(learned := t.learned - {(b, m)})
  }

  function Traffics(net: Net, s: Fabric, allowed: set<Endpoint>, home: map<Mac, Endpoint>, t: Traffic, evs: seq<Event>): (r: Traffic)
    requires Matches(net, s) && TableFits(s, t.learned)
    ensures TableFits(s, r.learned)
    decreases |evs|
  {
    if evs == [] then t else Traffics(net, s, allowed, home, EventStep(net, s, allowed, home, t, evs[0]), evs[1..])
  }

  // ----- What every mix of flooding and forwarding keeps -----

  /** The frame left each bridge on its way by a port other than the one it came in by. */
  ghost predicate OnItsWay(net: Net, s: Fabric, home: map<Mac, Endpoint>, f: Flight)
    requires Matches(net, s)
  {
    && f.src in home
    && First(f.trail) == home[f.src].bridge
    && match f.trail
       case Origin(b) => true
       case Hop(p, e) =>
         && Onward(net, s, p) && e in net.peer && IsEndpoint(net, e) && IsEndpoint(net, net.peer[e])
         && net.peer[e].bridge == Last(p) && net.peer[e] != Ingress(home[f.src], p) && CanForward(s, net.peer[e])
  }

  /** The port is where an onward walk from the station arrives at the bridge. */
  ghost predicate PointsHome(net: Net, s: Fabric, home: map<Mac, Endpoint>, b: nat, m: Mac, port: nat)
    requires Matches(net, s)
  {
    m in home && exists w :: LeadsHome(net, s, home[m], b, port, w)
  }

  ghost predicate LeadsHome(net: Net, s: Fabric, station: Endpoint, b: nat, port: nat, w: Walk)
    requires Matches(net, s)
  {
    Onward(net, s, w) && First(w) == station.bridge && Last(w) == b && Ingress(station, w) == Endpoint(b, port)
  }

  ghost predicate TrafficInv(net: Net, s: Fabric, home: map<Mac, Endpoint>, t: Traffic)
    requires Matches(net, s)
  {
    && TableFits(s, t.learned)
    && (forall k :: k in t.learned ==> PointsHome(net, s, home, k.0, k.1, t.learned[k]))
    && (forall f :: f in t.flights ==> OnItsWay(net, s, home, f))
  }

  lemma ArrivedIsOnward(net: Net, s: Fabric, home: map<Mac, Endpoint>, f: Flight)
    requires Ready(net, s) && Attached(net, home) && OnItsWay(net, s, home, f)
    ensures IsEndpoint(net, At(home, f)) && At(home, f).bridge == Last(f.trail)
    ensures CanForward(s, At(home, f)) ==> Onward(net, s, f.trail)
  {
    if f.trail.Hop? {
      assert net.peer[net.peer[f.trail.via]] == f.trail.via;
    }
  }

  /** On a ready tree a port that may learn may also forward. */
  lemma LearnIsForward(net: Net, s: Fabric, e: Endpoint)
    requires Ready(net, s) && IsEndpoint(net, e)
    ensures CanLearn(s, e) <==> CanForward(s, e)
  {
    ForwardingIffRole(net, s, e);
    assert BridgeSound(net, s, e.bridge);
    assert PortAt(s, e).role == RoleFor(net.bridges[e.bridge], s.bridges[e.bridge], e.port);
  }

  lemma EgressIsElsewhere(s: Fabric, allowed: set<Endpoint>, learned: map<(nat, Mac), nat>, e: Endpoint, dst: Mac)
    requires e.bridge < |s.bridges| && TableFits(s, learned)
    ensures forall o :: o in Egress(s, allowed, learned, e, dst) ==>
              o.bridge == e.bridge && o.port < |s.bridges[e.bridge].ports| && o != e && CanForward(s, o)
  {
  }

  lemma SentFlightsOnTheirWay(net: Net, s: Fabric, home: map<Mac, Endpoint>, f: Flight, out: seq<Endpoint>)
    requires Ready(net, s) && f.src in home && Onward(net, s, f.trail) && First(f.trail) == home[f.src].bridge
    requires forall o :: o in out ==>
               IsEndpoint(net, o) && o.bridge == Last(f.trail) && o != At(home, f) && CanForward(s, o)
    ensures forall g :: g in Flights(net, f, out) ==> OnItsWay(net, s, home, g)
  {
    forall g | g in Flights(net, f, out) ensures OnItsWay(net, s, home, g) {
      var o :| o in out && o in net.peer && g == f.(trail := Hop(f.trail, net.peer[o]));
      assert net.peer[net.peer[o]] == o;
    }
  }

  lemma ProcessKeepsInv(net: Net, s: Fabric, allowed: set<Endpoint>, home: map<Mac, Endpoint>, t: Traffic, k: nat)
    requires Ready(net, s) && Attached(net, home) && TrafficInv(net, s, home, t) && k < |t.flights|
    ensures t.flights[k].src in home && IsEndpoint(net, At(home, t.flights[k]))
    ensures TrafficInv(net, s, home, ProcessFlight(net, s, allowed, At(home, t.flights[k]), t, k))
  {
    var f := t.flights[k];
    assert f in t.flights;
    var e := At(home, f);
    ArrivedIsOnward(net, s, home, f);
    LearnIsForward(net, s, e);
    var r := ProcessFlight(net, s, allowed, e, t, k);
    if CanForward(s, e) && e in allowed {
      var learned := Learn(t.learned, e, f.src);
      assert LeadsHome(net, s, home[f.src], e.bridge, e.port, f.trail);
      EgressIsElsewhere(s, allowed, learned, e, f.dst);
      SentFlightsOnTheirWay(net, s, home, f, Egress(s, allowed, learned, e, f.dst));
    }
  }

  lemma EventKeepsInv(net: Net, s: Fabric, allowed: set<Endpoint>, home: map<Mac, Endpoint>, t: Traffic, ev: Event)
    requires Ready(net, s) && Attached(net, home) && TrafficInv(net, s, home, t)
    ensures TrafficInv(net, s, home, EventStep(net, s, allowed, home, t, ev))
  {
    if ev.Process? && ev.index < |t.flights| {
      ProcessKeepsInv(net, s, allowed, home, t, ev.index);
    }
  }

  lemma {:induction false} TrafficKeepsInv(net: Net, s: Fabric, allowed: set<Endpoint>, home: map<Mac, Endpoint>, t: Traffic, evs: seq<Event>)
    requires Ready(net, s) && Attached(net, home) && TrafficInv(net, s, home, t)
    ensures TrafficInv(net, s, home, Traffics(net, s, allowed, home, t, evs))
    decreases |evs|
  {
    if evs != [] {
      EventKeepsInv(net, s, allowed, home, t, evs[0]);
      TrafficKeepsInv(net, s, allowed, home, EventStep(net, s, allowed, home, t, evs[0]), evs[1..]);
    }
  }

  // ----- What follows -----

  /** The number of links between two bridges on the tree. */
  ghost predicate Distance(net: Net, s: Fabric, a: nat, b: nat, d: nat)
    requires Matches(net, s)
  {
    exists w :: Onward(net, s, w) && First(w) == a && Last(w) == b && Links(w) == d
  }

  /** The distance is a function of the two bridges. */
  lemma DistanceIsUnique(net: Net, s: Fabric, a: nat, b: nat, d: nat, d': nat)
    requires Ready(net, s) && Distance(net, s, a, b, d) && Distance(net, s, a, b, d')
    ensures d == d'
  {
    var w :| Onward(net, s, w) && First(w) == a && Last(w) == b && Links(w) == d;
    var w' :| Onward(net, s, w') && First(w') == a && Last(w') == b && Links(w') == d';
    OneWay(net, s, w, w');
  }

  /** Which port points home is settled by the tree. */
  lemma HomePortIsUnique(net: Net, s: Fabric, home: map<Mac, Endpoint>, b: nat, m: Mac, port: nat, other: nat)
    requires Ready(net, s) && PointsHome(net, s, home, b, m, port) && PointsHome(net, s, home, b, m, other)
    ensures port == other
  {
    var v :| LeadsHome(net, s, home[m], b, port, v);
    var w :| LeadsHome(net, s, home[m], b, other, w);
    OneWay(net, s, v, w);
  }

  /** The port is the station's own, or its far end is one link closer to the station. */
  ghost predicate OneLinkCloser(net: Net, s: Fabric, station: Endpoint, e: Endpoint)
    requires Matches(net, s)
  {
    || e == station
    || exists d: nat :: && e in net.peer
                        && Distance(net, s, station.bridge, e.bridge, d + 1)
                        && Distance(net, s, station.bridge, net.peer[e].bridge, d)
  }

  lemma HomePortIsCloser(net: Net, s: Fabric, home: map<Mac, Endpoint>, b: nat, m: Mac, port: nat)
    requires Ready(net, s) && PointsHome(net, s, home, b, m, port)
    ensures OneLinkCloser(net, s, home[m], Endpoint(b, port))
  {
    var w :| LeadsHome(net, s, home[m], b, port, w);
    if w.Hop? {
      assert Distance(net, s, home[m].bridge, b, Links(w.prior) + 1);
      assert Distance(net, s, home[m].bridge, net.peer[w.via].bridge, Links(w.prior));
    }
  }

  /** After any traffic from empty tables, what a bridge has learned about a station is the station's own port or
      a port whose far end is one link closer to the station, and no other port could have been learned: so each
      known-unicast hop shortens the way to the station. */
  lemma LearnedPointsHome(net: Net, s: Fabric, allowed: set<Endpoint>, home: map<Mac, Endpoint>, evs: seq<Event>, b: nat, m: Mac)
    requires Ready(net, s) && Attached(net, home)
    requires (b, m) in Traffics(net, s, allowed, home, QUIET, evs).learned
    ensures var port := Traffics(net, s, allowed, home, QUIET, evs).learned[(b, m)];
            && m in home
            && OneLinkCloser(net, s, home[m], Endpoint(b, port))
            && forall other :: PointsHome(net, s, home, b, m, other) <==> other == port
  {
    TrafficKeepsInv(net, s, allowed, home, QUIET, evs);
    var port := Traffics(net, s, allowed, home, QUIET, evs).learned[(b, m)];
    assert PointsHome(net, s, home, b, m, port);
    HomePortIsCloser(net, s, home, b, m, port);
    forall other | PointsHome(net, s, home, b, m, other) ensures other == port {
      HomePortIsUnique(net, s, home, b, m, port, other);
    }
  }

  /** No frame loops: under any mix of flooding and forwarding a frame meets no bridge twice. */
  lemma NoFrameLoops(net: Net, s: Fabric, allowed: set<Endpoint>, home: map<Mac, Endpoint>, evs: seq<Event>, f: Flight)
    requires Ready(net, s) && Attached(net, home)
    requires f in Traffics(net, s, allowed, home, QUIET, evs).flights
    ensures Links(f.trail) <= |net.bridges|
    ensures f.trail.Hop? ==> Simple(f.trail.prior)
    ensures f.trail.Hop? && IsEndpoint(net, f.trail.via) && CanForward(s, f.trail.via) ==> Simple(f.trail)
  {
    TrafficKeepsInv(net, s, allowed, home, QUIET, evs);
    ArrivedIsOnward(net, s, home, f);
    if f.trail.Hop? {
      OnwardIsSimple(net, s, f.trail.prior);
      SimpleIsShort(net, f.trail.prior);
      if CanForward(s, f.trail.via) {
        OnwardIsSimple(net, s, f.trail);
      }
    }
  }

  // ----- Each frame at most once -----

  /** The copy is of a frame that was sent, and the bridge before took the same frame in. */
  ghost predicate Logged(t: Traffic, f: Flight) {
    && f.id < |t.injected| && t.injected[f.id] == (f.src, f.dst)
    && (f.trail.Hop? ==> f.(trail := f.trail.prior) in t.taken)
  }

  ghost predicate TookOnward(net: Net, s: Fabric, home: map<Mac, Endpoint>, f: Flight)
    requires Matches(net, s)
  {
    f.src in home && First(f.trail) == home[f.src].bridge && Onward(net, s, f.trail)
  }

  /** No copy is there twice, in flight or taken in. */
  ghost predicate OnceInv(net: Net, s: Fabric, home: map<Mac, Endpoint>, t: Traffic)
    requires Matches(net, s)
  {
    && Distinct(t.flights) && Distinct(t.taken)
    && (forall f :: f in t.flights ==> f !in t.taken && Logged(t, f))
    && (forall f :: f in t.taken ==> Logged(t, f) && TookOnward(net, s, home, f))
  }

  lemma FlightsDistinct(net: Net, f: Flight, out: seq<Endpoint>)
    requires WellFormed(net) && Distinct(out)
    ensures Distinct(Flights(net, f, out))
  {
    CopiesDistinct(net, f.trail, out);
  }

  lemma FlightsAreNew(net: Net, s: Fabric, home: map<Mac, Endpoint>, t: Traffic, f: Flight, out: seq<Endpoint>)
    requires Matches(net, s) && OnceInv(net, s, home, t) && f in t.flights
    ensures forall c :: c in Flights(net, f, out) ==> c !in t.flights && c !in t.taken && c != f
  {
    forall c | c in Flights(net, f, out) ensures c !in t.flights && c !in t.taken && c != f {
      assert c.(trail := c.trail.prior) == f;
    }
  }

  lemma TakenKeepsOnce(net: Net, s: Fabric, home: map<Mac, Endpoint>, t: Traffic, k: nat, out: seq<Endpoint>, r: Traffic)
    requires Ready(net, s) && OnceInv(net, s, home, t) && k < |t.flights| && TookOnward(net, s, home, t.flights[k])
    requires Distinct(out) && r.injected == t.injected && r.taken == t.taken + [t.flights[k]]
    requires r.flights == Without(t.flights, k) + Flights(net, t.flights[k], out)
    ensures OnceInv(net, s, home, r)
  {
    var f, copies := t.flights[k], Flights(net, t.flights[k], out);
    assert f in t.flights && f in r.taken;
    DistinctWithout(t.flights, k);
    FlightsDistinct(net, f, out);
    FlightsAreNew(net, s, home, t, f, out);
    DistinctConcat(Without(t.flights, k), copies);
    DistinctConcat(t.taken, [f]);
    forall g | g in r.flights || g in r.taken ensures Logged(r, g) {
      if g in copies {
        assert g.(trail := g.trail.prior) == f;
      } else {
        assert Logged(t, g);
      }
    }
  }

  lemma EgressIsDistinct(s: Fabric, allowed: set<Endpoint>, learned: map<(nat, Mac), nat>, e: Endpoint, dst: Mac)
    requires e.bridge < |s.bridges| && TableFits(s, learned)
    ensures Distinct(Egress(s, allowed, learned, e, dst))
  {
  }

  lemma ProcessKeepsOnce(net: Net, s: Fabric, allowed: set<Endpoint>, home: map<Mac, Endpoint>, t: Traffic, k: nat)
    requires Ready(net, s) && Attached(net, home) && TrafficInv(net, s, home, t) && OnceInv(net, s, home, t) && k < |t.flights|
    requires t.flights[k].src in home && IsEndpoint(net, At(home, t.flights[k]))
    ensures OnceInv(net, s, home, ProcessFlight(net, s, allowed, At(home, t.flights[k]), t, k))
  {
    var f := t.flights[k];
    assert f in t.flights;
    var e := At(home, f);
    ArrivedIsOnward(net, s, home, f);
    LearnIsForward(net, s, e);
    var r := ProcessFlight(net, s, allowed, e, t, k);
    if CanForward(s, e) && e in allowed {
      var learned := Learn(t.learned, e, f.src);
      EgressIsDistinct(s, allowed, learned, e, f.dst);
      TakenKeepsOnce(net, s, home, t, k, Egress(s, allowed, learned, e, f.dst), r);
    } else {
      DropKeepsOnce(net, s, home, t, k, r);
    }
  }

  lemma DropKeepsOnce(net: Net, s: Fabric, home: map<Mac, Endpoint>, t: Traffic, k: nat, r: Traffic)
    requires Matches(net, s) && OnceInv(net, s, home, t) && k < |t.flights| && r == t.(flights := Without(t.flights, k))
    ensures OnceInv(net, s, home, r)
  {
    DistinctWithout(t.flights, k);
    assert forall g :: Logged(t, g) ==> Logged(r, g);
  }

  lemma InjectKeepsOnce(net: Net, s: Fabric, home: map<Mac, Endpoint>, t: Traffic, f: Flight, r: Traffic)
    requires Matches(net, s) && OnceInv(net, s, home, t)
    requires f.id == |t.injected| && f.trail.Origin?
    requires r == t.(flights := t.flights + [f], injected := t.injected + [(f.src, f.dst)])
    ensures OnceInv(net, s, home, r)
  {
    DistinctConcat(t.flights, [f]);
    forall g | g in r.flights || g in r.taken ensures Logged(r, g) {
      assert g == f || Logged(t, g);
    }
  }

  lemma EventKeepsOnce(net: Net, s: Fabric, allowed: set<Endpoint>, home: map<Mac, Endpoint>, t: Traffic, ev: Event)
    requires Ready(net, s) && Attached(net, home) && TrafficInv(net, s, home, t) && OnceInv(net, s, home, t)
    ensures OnceInv(net, s, home, EventStep(net, s, allowed, home, t, ev))
  {
    var r := EventStep(net, s, allowed, home, t, ev);
    match ev
    case Inject(src, dst) =>
      if src in home {
        InjectKeepsOnce(net, s, home, t, Flight(|t.injected|, Origin(home[src].bridge), src, dst), r);
      }
    case Process(k) =>
      if k < |t.flights| {
        assert t.flights[k] in t.flights;
        ArrivedIsOnward(net, s, home, t.flights[k]);
        ProcessKeepsOnce(net, s, allowed, home, t, k);
      }
    case Forget(b, m) =>
      assert forall g :: Logged(t, g) ==> Logged(r, g);
  }

  lemma {:induction false} TrafficKeepsOnce(net: Net, s: Fabric, allowed: set<Endpoint>, home: map<Mac, Endpoint>, t: Traffic, evs: seq<Event>)
    requires Ready(net, s) && Attached(net, home) && TrafficInv(net, s, home, t) && OnceInv(net, s, home, t)
    ensures OnceInv(net, s, home, Traffics(net, s, allowed, home, t, evs))
    decreases |evs|
  {
    if evs != [] {
      EventKeepsInv(net, s, allowed, home, t, evs[0]);
      EventKeepsOnce(net, s, allowed, home, t, evs[0]);
      TrafficKeepsOnce(net, s, allowed, home, EventStep(net, s, allowed, home, t, evs[0]), evs[1..]);
    }
  }

  /** However frames are flooded, forwarded and interleaved, no bridge takes in the same frame twice. */
  lemma NoFrameTwice(net: Net, s: Fabric, allowed: set<Endpoint>, home: map<Mac, Endpoint>, evs: seq<Event>, i: nat, j: nat)
    requires Ready(net, s) && Attached(net, home)
    requires var taken := Traffics(net, s, allowed, home, QUIET, evs).taken; i < j < |taken| && taken[i].id == taken[j].id
    ensures var taken := Traffics(net, s, allowed, home, QUIET, evs).taken; Last(taken[i].trail) != Last(taken[j].trail)
  {
    TrafficKeepsOnce(net, s, allowed, home, QUIET, evs);
    var t := Traffics(net, s, allowed, home, QUIET, evs);
    var f, g := t.taken[i], t.taken[j];
    assert Logged(t, f) && Logged(t, g) && TookOnward(net, s, home, f) && TookOnward(net, s, home, g);
    if Last(f.trail) == Last(g.trail) {
      OneWay(net, s, f.trail, g.trail);
    }
  }

  // ----- All traffic comes to rest -----

  /** How many steps a frame can still cause with k links to go, on bridges of at most p ports. */
  function Burst(p: nat, k: nat): nat {
    if k == 0 then 1 else 1 + Times(p, Burst(p, k - 1))
  }

  function Budget(net: Net, p: nat, f: Flight): nat {
    if Links(f.trail) <= |net.bridges| then Burst(p, |net.bridges| - Links(f.trail)) else 1
  }

  function Budgets(net: Net, p: nat, fs: seq<Flight>): seq<nat> {
    seq(|fs|, i requires 0 <= i < |fs| => Budget(net, p, fs[i]))
  }

  lemma {:induction false} SumOfEqual(s: seq<nat>, x: nat)
    requires forall i :: 0 <= i < |s| ==> s[i] == x
    ensures Sum(s) == Times(|s|, x)
  {
    if s != [] {
      SumOfEqual(s[1..], x);
    }
  }

  lemma {:induction false} SendsFew(s: Fabric, allowed: set<Endpoint>, e: Endpoint, k: nat)
    requires e.bridge < |s.bridges| && k <= |s.bridges[e.bridge].ports|
    ensures |Sends(s, allowed, e, k)| <= k
  {
    if k > 0 {
      SendsFew(s, allowed, e, k - 1);
    }
  }

  lemma CopyBudgets(net: Net, p: nat, f: Flight, out: seq<Endpoint>, x: nat)
    requires Links(f.trail) < |net.bridges| && x == Burst(p, |net.bridges| - Links(f.trail) - 1)
    ensures forall i :: 0 <= i < |Flights(net, f, out)| ==> Budgets(net, p, Flights(net, f, out))[i] == x
  {
    var copies := Flights(net, f, out);
    forall i | 0 <= i < |copies| ensures Budgets(net, p, copies)[i] == x {
      assert copies[i] in copies;
      assert Links(copies[i].trail) == Links(f.trail) + 1;
    }
  }

  lemma CopiesCostLess(net: Net, p: nat, f: Flight, out: seq<Endpoint>)
    requires |out| <= p && Links(f.trail) < |net.bridges|
    ensures Sum(Budgets(net, p, Flights(net, f, out))) < Budget(net, p, f)
  {
    var copies := Flights(net, f, out);
    var x := Burst(p, |net.bridges| - Links(f.trail) - 1);
    CopyBudgets(net, p, f, out, x);
    SumOfEqual(Budgets(net, p, copies), x);
    TimesGrows(|copies|, p, x);
  }

  lemma BudgetsWithout(net: Net, p: nat, fs: seq<Flight>, k: nat, more: seq<Flight>)
    requires k < |fs|
    ensures Sum(Budgets(net, p, Without(fs, k) + more))
         == Sum(Budgets(net, p, fs)) - Budget(net, p, fs[k]) + Sum(Budgets(net, p, more))
  {
    var bs := Budgets(net, p, fs);
    SumSplit(bs, k);
    assert Budgets(net, p, Without(fs, k) + more) == (bs[..k] + bs[k + 1..]) + Budgets(net, p, more);
    SumOfConcat(bs[..k] + bs[k + 1..], Budgets(net, p, more));
    SumOfConcat(bs[..k], bs[k + 1..]);
  }

  lemma ArrivalCostsLess(net: Net, s: Fabric, allowed: set<Endpoint>, t: Traffic, k: nat, p: nat, e: Endpoint)
    requires Ready(net, s) && TableFits(s, t.learned) && k < |t.flights| && IsEndpoint(net, e)
    requires CanForward(s, e) ==> Onward(net, s, t.flights[k].trail)
    requires 0 < p && forall b :: 0 <= b < |s.bridges| ==> |s.bridges[b].ports| <= p
    ensures Sum(Budgets(net, p, ProcessFlight(net, s, allowed, e, t, k).flights)) < Sum(Budgets(net, p, t.flights))
  {
    var f := t.flights[k];
    LearnIsForward(net, s, e);
    if CanForward(s, e) && e in allowed {
      OnwardIsSimple(net, s, f.trail);
      SimpleIsShort(net, f.trail);
      SendsFew(s, allowed, e, |s.bridges[e.bridge].ports|);
      var out := Egress(s, allowed, Learn(t.learned, e, f.src), e, f.dst);
      CopiesCostLess(net, p, f, out);
      BudgetsWithout(net, p, t.flights, k, Flights(net, f, out));
    } else {
      BudgetsWithout(net, p, t.flights, k, []);
      assert Without(t.flights, k) + [] == Without(t.flights, k);
      assert Budget(net, p, f) > 0;
    }
  }

  lemma {:induction false} TrafficsOneMore(net: Net, s: Fabric, allowed: set<Endpoint>, home: map<Mac, Endpoint>, t: Traffic, evs: seq<Event>, ev: Event)
    requires Matches(net, s) && TableFits(s, t.learned)
    ensures Traffics(net, s, allowed, home, t, evs + [ev])
         == EventStep(net, s, allowed, home, Traffics(net, s, allowed, home, t, evs), ev)
    decreases |evs|
  {
    if evs == [] {
      assert evs + [ev] == [ev] && [ev][1..] == [];
    } else {
      TrafficsOneMore(net, s, allowed, home, EventStep(net, s, allowed, home, t, evs[0]), evs[1..], ev);
      assert (evs + [ev])[1..] == evs[1..] + [ev] && (evs + [ev])[0] == evs[0];
    }
  }

  /** Whatever frames are in flight and whichever is handled next, all of them come to rest. */
  method HandleAll(net: Net, s: Fabric, allowed: set<Endpoint>, home: map<Mac, Endpoint>, start: Traffic, ghost p: nat)
    returns (t: Traffic, evs: seq<Event>)
    requires Ready(net, s) && Attached(net, home) && TrafficInv(net, s, home, start)
    requires 0 < p && forall b :: 0 <= b < |s.bridges| ==> |s.bridges[b].ports| <= p
    ensures t == Traffics(net, s, allowed, home, start, evs) && t.flights == []
    ensures forall ev :: ev in evs ==> ev.Process?
  {
    t, evs := start, [];
    while t.flights != []
      invariant TrafficInv(net, s, home, t)
      invariant t == Traffics(net, s, allowed, home, start, evs)
      invariant forall ev :: ev in evs ==> ev.Process?
      decreases Sum(Budgets(net, p, t.flights))
    {
      var k :| 0 <= k < |t.flights|;
      ProcessKeepsInv(net, s, allowed, home, t, k);
      assert t.flights[k] in t.flights;
      ArrivedIsOnward(net, s, home, t.flights[k]);
      ArrivalCostsLess(net, s, allowed, t, k, p, At(home, t.flights[k]));
      TrafficsOneMore(net, s, allowed, home, start, evs, Process(k));
      t, evs := ProcessFlight(net, s, allowed, At(home, t.flights[k]), t, k), evs + [Process(k)];
    }
  }
}
