/** Broadcasts and frames for unknown stations: how a switch floods them, and where the copies get to among all other
    traffic. */
module Broadcast {
  import opened StpVector
  import opened StpBridge
  import opened StpNetwork
  import opened StpPaths
  import opened StpTree
  import opened ForwardingTree
  import opened Flooding
  import opened Switching
  import opened Delivery

  // ----- One switch -----

  /** A port that lets data frames out, and lets this VLAN out. */
  predicate LetsOut(s: Fabric, allowed: set<Endpoint>, o: Endpoint) {
    && o.bridge < |s.bridges| && o.port < |s.bridges[o.bridge].ports|
    && s.bridges[o.bridge].ports[o.port].state == StateForwarding && o in allowed
  }

  /** A broadcast, and a frame for a station the switch has not learned, leaves by every port of the switch that lets it out
      but the one it came in by, once each and in port order. */
  lemma FloodedEverywhere(s: Fabric, allowed: set<Endpoint>, learned: map<(nat, Mac), nat>, e: Endpoint, dst: Mac)
    requires e.bridge < |s.bridges| && TableFits(s, learned)
    requires dst == [255, 255, 255, 255, 255, 255] || (e.bridge, dst) !in learned
    ensures var out := Egress(s, allowed, learned, e, dst);
            && (forall x, y :: 0 <= x < y < |out| ==> out[x].port < out[y].port)
            && (forall o :: o in out <==> o.bridge == e.bridge && o != e && LetsOut(s, allowed, o))
  {
  }

  /** A frame for a station it has learned leaves by that port alone, and not at all if it came in there or is not let out. */
  lemma KnownLeavesByOne(s: Fabric, allowed: set<Endpoint>, learned: map<(nat, Mac), nat>, e: Endpoint, dst: Mac)
    requires e.bridge < |s.bridges| && TableFits(s, learned)
    requires dst != [255, 255, 255, 255, 255, 255] && (e.bridge, dst) in learned
    ensures var o := Endpoint(e.bridge, learned[(e.bridge, dst)]);
            Egress(s, allowed, learned, e, dst) == if o != e && LetsOut(s, allowed, o) then [o] else []
  {
  }

  /** A switch takes a frame in on a port that learns or forwards and lets the VLAN in, and then knows its sender to be behind
      that port; nothing else it knows changes. It sends the frame on only if the port forwards. */
  lemma TakenInIsLearned(net: Net, s: Fabric, allowed: set<Endpoint>, e: Endpoint, t: Traffic, k: nat, r: Traffic)
    requires Matches(net, s) && k < |t.flights| && IsEndpoint(net, e) && TableFits(s, t.learned)
    requires r == ProcessFlight(net, s, allowed, e, t, k)
    ensures var f, state := t.flights[k], PortAt(s, e).state;
            if e in allowed && (state == StateLearning || state == StateForwarding) then
              && r.taken == t.taken + [f]
              && (f.src != [255, 255, 255, 255, 255, 255] ==> (e.bridge, f.src) in r.learned && r.learned[(e.bridge, f.src)] == e.port)
              && (forall b, m :: (b, m) != (e.bridge, f.src) || m == [255, 255, 255, 255, 255, 255] ==>
                    ((b, m) in r.learned <==> (b, m) in t.learned) && ((b, m) in t.learned ==> r.learned[(b, m)] == t.learned[(b, m)]))
              && (state == StateLearning ==> r.flights == Without(t.flights, k))
            else r == t.(flights := Without(t.flights, k))
  {
  }

  /** When an entry expires only that one is gone, and what is sent to its station is flooded from then on. */
  lemma ForgottenIsUnknown(net: Net, s: Fabric, allowed: set<Endpoint>, home: map<Mac, Endpoint>, t: Traffic, b: nat, m: Mac, r: Traffic)
    requires Matches(net, s) && TableFits(s, t.learned) && r == EventStep(net, s, allowed, home, t, Forget(b, m))
    ensures r == t.(learned := r.learned) && (b, m) !in r.learned
    ensures forall k :: k != (b, m) ==> (k in r.learned <==> k in t.learned) && (k in t.learned ==> r.learned[k] == t.learned[k])
  {
  }

  // ----- The copies of one frame among others -----

  /** The ways of the copies of frame n, in order. */
  function Trails(fs: seq<Flight>, n: nat): (ws: seq<Walk>)
    ensures forall w :: w in ws <==> exists f :: f in fs && f.id == n && f.trail == w
  {
    if fs == [] then []
    else
      var rest := Trails(fs[..|fs| - 1], n);
      var f := fs[|fs| - 1];
      assert fs == fs[..|fs| - 1] + [f];
      if f.id == n then rest + [f.trail] else rest
  }

  lemma {:induction false} TrailsOfConcat(a: seq<Flight>, b: seq<Flight>, n: nat)
    ensures Trails(a + b, n) == Trails(a, n) + Trails(b, n)
  {
    if b == [] {
      assert a + b == a;
    } else {
      TrailsOfConcat(a, b[..|b| - 1], n);
      assert (a + b)[..|a + b| - 1] == a + b[..|b| - 1];
    }
  }

  lemma TrailsOfOne(f: Flight, n: nat)
    ensures Trails([f], n) == if f.id == n then [f.trail] else []
  {
    assert [f][..0] == [];
  }

  lemma TrailsOfThree(a: seq<Flight>, m: seq<Flight>, c: seq<Flight>, n: nat)
    ensures Trails(a + m + c, n) == Trails(a, n) + Trails(m, n) + Trails(c, n)
    ensures Trails(a + c, n) == Trails(a, n) + Trails(c, n)
  {
    TrailsOfConcat(a + m, c, n);
    TrailsOfConcat(a, m, n);
    TrailsOfConcat(a, c, n);
  }

  lemma SplitAround(fs: seq<Flight>, k: nat)
    requires k < |fs|
    ensures fs == fs[..k] + [fs[k]] + fs[k + 1..]
  {
  }

  lemma TrailsWithout(fs: seq<Flight>, k: nat, n: nat)
    requires k < |fs|
    ensures fs[k].id != n ==> Trails(Without(fs, k), n) == Trails(fs, n)
    ensures fs[k].id == n ==>
              var j := |Trails(fs[..k], n)|;
              && j < |Trails(fs, n)| && Trails(fs, n)[j] == fs[k].trail
              && Trails(Without(fs, k), n) == Without(Trails(fs, n), j)
  {
    SplitAround(fs, k);
    TrailsOfThree(fs[..k], [fs[k]], fs[k + 1..], n);
    TrailsOfOne(fs[k], n);
  }

  lemma {:induction false} TrailsOfFlights(fs: seq<Flight>, n: nat)
    requires forall i :: 0 <= i < |fs| ==> fs[i].id == n
    ensures |Trails(fs, n)| == |fs| && forall i :: 0 <= i < |fs| ==> Trails(fs, n)[i] == fs[i].trail
  {
    if fs != [] {
      TrailsOfFlights(fs[..|fs| - 1], n);
    }
  }

  lemma {:induction false} TrailsOfOthers(fs: seq<Flight>, n: nat)
    requires forall i :: 0 <= i < |fs| ==> fs[i].id != n
    ensures Trails(fs, n) == []
  {
    if fs != [] {
      TrailsOfOthers(fs[..|fs| - 1], n);
    }
  }

  lemma TrailsOfCopies(net: Net, f: Flight, out: seq<Endpoint>, n: nat)
    ensures Trails(Flights(net, f, out), n) == if f.id == n then Copies(net, f.trail, out) else []
  {
    var copies := Flights(net, f, out);
    assert forall i :: 0 <= i < |copies| ==> copies[i] in copies;
    if f.id == n {
      TrailsOfFlights(copies, n);
    } else {
      TrailsOfOthers(copies, n);
    }
  }

  /** The copies of frame n, in flight and taken in, as a flood that has been sent on these ports. */
  function FloodOf(t: Traffic, n: nat, sent: seq<Endpoint>): Flood {
    Flood(Trails(t.flights, n), Trails(t.taken, n), sent)
  }

  /** Frame n is being flooded from this port. */
  ghost predicate Spreads(net: Net, s: Fabric, allowed: set<Endpoint>, entry: Endpoint, t: Traffic, n: nat)
    requires Matches(net, s)
  {
    exists sent :: FloodInv(net, s, allowed, entry, FloodOf(t, n, sent))
  }

  /** The destination is not known anywhere and has sent nothing that is still under way. */
  ghost predicate Unheard(t: Traffic, dst: Mac) {
    && (forall k :: k in t.learned ==> k.1 != dst)
    && (forall f :: f in t.flights ==> f.src != dst)
  }

  /** Frame n was sent by src to dst, and every switch is bound to flood it. */
  ghost predicate Flooded(t: Traffic, n: nat, src: Mac, dst: Mac) {
    && n < |t.injected| && t.injected[n] == (src, dst)
    && (dst == BROADCAST || (Unheard(t, dst) && src != dst))
  }

  predicate KeepsSilent(ev: Event, dst: Mac) {
    ev.Inject? ==> dst == BROADCAST || ev.src != dst
  }

  lemma SilenceStays(net: Net, s: Fabric, allowed: set<Endpoint>, home: map<Mac, Endpoint>, t: Traffic, ev: Event, n: nat, src: Mac, dst: Mac)
    requires Matches(net, s) && TableFits(s, t.learned) && Flooded(t, n, src, dst) && KeepsSilent(ev, dst)
    ensures Flooded(EventStep(net, s, allowed, home, t, ev), n, src, dst)
  {
    if ev.Process? && ev.index < |t.flights| {
      assert t.flights[ev.index] in t.flights;
    }
  }

  /** Handling a copy of the frame is a step of its flood. */
  lemma CopyIsFloodStep(net: Net, s: Fabric, allowed: set<Endpoint>, home: map<Mac, Endpoint>, t: Traffic, k: nat, n: nat,
                        sent: seq<Endpoint>, j: nat, r: Traffic, more: seq<Endpoint>)
    requires Matches(net, s) && TableFits(s, t.learned) && k < |t.flights| && t.flights[k].id == n && t.flights[k].src in home
    requires IsEndpoint(net, At(home, t.flights[k])) && r == ProcessFlight(net, s, allowed, At(home, t.flights[k]), t, k)
    requires t.flights[k].dst == BROADCAST || (t.flights[k].src != t.flights[k].dst && Unheard(t, t.flights[k].dst))
    requires CanLearn(s, At(home, t.flights[k])) <==> CanForward(s, At(home, t.flights[k]))
    requires j == |Trails(t.flights[..k], n)|
    requires more == if Accepts(s, allowed, At(home, t.flights[k]))
                     then sent + Sends(s, allowed, At(home, t.flights[k]), |s.bridges[At(home, t.flights[k]).bridge].ports|) else sent
    ensures j < |Trails(t.flights, n)| && Trails(t.flights, n)[j] == t.flights[k].trail
    ensures FloodOf(r, n, more) == FloodStep(net, s, allowed, home[t.flights[k].src], FloodOf(t, n, sent), j)
  {
    var f := t.flights[k];
    var e := At(home, f);
    TrailsWithout(t.flights, k, n);
    if Accepts(s, allowed, e) {
      var out := Egress(s, allowed, Learn(t.learned, e, f.src), e, f.dst);
      assert out == Sends(s, allowed, e, |s.bridges[e.bridge].ports|);
      TrailsOfConcat(Without(t.flights, k), Flights(net, f, out), n);
      TrailsOfCopies(net, f, out, n);
      TrailsOfConcat(t.taken, [f], n);
      TrailsOfOne(f, n);
    }
  }

  /** Handling a copy of another frame leaves it as it is. */
  lemma OtherCopyIsApart(net: Net, s: Fabric, allowed: set<Endpoint>, e: Endpoint, t: Traffic, k: nat, n: nat, r: Traffic)
    requires Matches(net, s) && TableFits(s, t.learned) && k < |t.flights| && t.flights[k].id != n && IsEndpoint(net, e)
    requires r == ProcessFlight(net, s, allowed, e, t, k)
    ensures Trails(r.flights, n) == Trails(t.flights, n) && Trails(r.taken, n) == Trails(t.taken, n)
  {
    var f := t.flights[k];
    TrailsWithout(t.flights, k, n);
    if CanLearn(s, e) && e in allowed {
      var copies := if CanForward(s, e) then Flights(net, f, Egress(s, allowed, Learn(t.learned, e, f.src), e, f.dst)) else [];
      TrailsOfConcat(Without(t.flights, k), copies, n);
      TrailsOfOthers(copies, n);
      TrailsOfConcat(t.taken, [f], n);
      TrailsOfOne(f, n);
    }
  }

  lemma CopySpreads(net: Net, s: Fabric, allowed: set<Endpoint>, home: map<Mac, Endpoint>, t: Traffic, k: nat, n: nat, r: Traffic)
    requires Ready(net, s) && Attached(net, home) && TrafficInv(net, s, home, t) && k < |t.flights| && t.flights[k].id == n
    requires t.flights[k].src in home && Accepts(s, allowed, home[t.flights[k].src])
    requires t.flights[k].dst == BROADCAST || (t.flights[k].src != t.flights[k].dst && Unheard(t, t.flights[k].dst))
    requires Spreads(net, s, allowed, home[t.flights[k].src], t, n) && IsEndpoint(net, At(home, t.flights[k]))
    requires r == ProcessFlight(net, s, allowed, At(home, t.flights[k]), t, k)
    ensures Spreads(net, s, allowed, home[t.flights[k].src], r, n)
  {
    var f := t.flights[k];
    var e, entry := At(home, f), home[f.src];
    var sent :| FloodInv(net, s, allowed, entry, FloodOf(t, n, sent));
    var j := |Trails(t.flights[..k], n)|;
    var more := if Accepts(s, allowed, e) then sent + Sends(s, allowed, e, |s.bridges[e.bridge].ports|) else sent;
    LearnIsForward(net, s, e);
    CopyIsFloodStep(net, s, allowed, home, t, k, n, sent, j, r, more);
    FloodStepKeepsInv(net, s, allowed, entry, FloodOf(t, n, sent), j);
  }

  lemma SameCopiesSpread(net: Net, s: Fabric, allowed: set<Endpoint>, entry: Endpoint, t: Traffic, n: nat, r: Traffic)
    requires Matches(net, s) && Spreads(net, s, allowed, entry, t, n)
    requires Trails(r.flights, n) == Trails(t.flights, n) && Trails(r.taken, n) == Trails(t.taken, n)
    ensures Spreads(net, s, allowed, entry, r, n)
  {
    var sent :| FloodInv(net, s, allowed, entry, FloodOf(t, n, sent));
    assert FloodOf(r, n, sent) == FloodOf(t, n, sent);
  }

  lemma EventSpreads(net: Net, s: Fabric, allowed: set<Endpoint>, home: map<Mac, Endpoint>, t: Traffic, ev: Event, n: nat, src: Mac, dst: Mac)
    requires Ready(net, s) && Attached(net, home) && TrafficInv(net, s, home, t) && OnceInv(net, s, home, t)
    requires Flooded(t, n, src, dst) && src in home && Accepts(s, allowed, home[src]) && Spreads(net, s, allowed, home[src], t, n)
    ensures Spreads(net, s, allowed, home[src], EventStep(net, s, allowed, home, t, ev), n)
  {
    var r := EventStep(net, s, allowed, home, t, ev);
    if ev.Process? && ev.index < |t.flights| {
      var f := t.flights[ev.index];
      assert f in t.flights;
      ArrivedIsOnward(net, s, home, f);
      if f.id == n {
        assert Logged(t, f);
        CopySpreads(net, s, allowed, home, t, ev.index, n, r);
      } else {
        OtherCopyIsApart(net, s, allowed, At(home, f), t, ev.index, n, r);
        SameCopiesSpread(net, s, allowed, home[src], t, n, r);
      }
    } else {
      if ev.Inject? && ev.src in home {
        var g := Flight(|t.injected|, Origin(home[ev.src].bridge), ev.src, ev.dst);
        TrailsOfConcat(t.flights, [g], n);
        TrailsOfOne(g, n);
      }
      SameCopiesSpread(net, s, allowed, home[src], t, n, r);
    }
  }

  lemma {:induction false} TrafficSpreads(net: Net, s: Fabric, allowed: set<Endpoint>, home: map<Mac, Endpoint>, t: Traffic, evs: seq<Event>,
                                          n: nat, src: Mac, dst: Mac)
    requires Ready(net, s) && Attached(net, home) && TrafficInv(net, s, home, t) && OnceInv(net, s, home, t)
    requires Flooded(t, n, src, dst) && src in home && Accepts(s, allowed, home[src]) && Spreads(net, s, allowed, home[src], t, n)
    requires forall ev :: ev in evs ==> KeepsSilent(ev, dst)
    ensures Spreads(net, s, allowed, home[src], Traffics(net, s, allowed, home, t, evs), n)
    decreases |evs|
  {
    if evs != [] {
      EventKeepsInv(net, s, allowed, home, t, evs[0]);
      EventKeepsOnce(net, s, allowed, home, t, evs[0]);
      SilenceStays(net, s, allowed, home, t, evs[0], n, src, dst);
      EventSpreads(net, s, allowed, home, t, evs[0], n, src, dst);
      TrafficSpreads(net, s, allowed, home, EventStep(net, s, allowed, home, t, evs[0]), evs[1..], n, src, dst);
    }
  }

  lemma FloodStarts(net: Net, s: Fabric, allowed: set<Endpoint>, entry: Endpoint)
    requires Ready(net, s) && IsEndpoint(net, entry) && entry !in net.peer && Accepts(s, allowed, entry)
    ensures FloodInv(net, s, allowed, entry, Flood([Origin(entry.bridge)], [], []))
  {
  }

  lemma InjectedTrails(net: Net, s: Fabric, home: map<Mac, Endpoint>, t: Traffic, g: Flight)
    requires Matches(net, s) && OnceInv(net, s, home, t) && g.id == |t.injected|
    ensures Trails(t.flights + [g], g.id) == [g.trail] && Trails(t.taken, g.id) == []
  {
    forall i | 0 <= i < |t.flights| ensures t.flights[i].id != g.id {
      assert t.flights[i] in t.flights;
    }
    forall i | 0 <= i < |t.taken| ensures t.taken[i].id != g.id {
      assert t.taken[i] in t.taken;
    }
    TrailsOfOthers(t.flights, g.id);
    TrailsOfOthers(t.taken, g.id);
    TrailsOfConcat(t.flights, [g], g.id);
    TrailsOfOne(g, g.id);
  }

  /** A frame just sent is the start of a flood. */
  lemma InjectionSpreads(net: Net, s: Fabric, allowed: set<Endpoint>, home: map<Mac, Endpoint>, t: Traffic, src: Mac, dst: Mac, r: Traffic)
    requires Ready(net, s) && Attached(net, home) && OnceInv(net, s, home, t) && TableFits(s, t.learned)
    requires src in home && Accepts(s, allowed, home[src]) && r == EventStep(net, s, allowed, home, t, Inject(src, dst))
    ensures Spreads(net, s, allowed, home[src], r, |t.injected|)
  {
    InjectedTrails(net, s, home, t, Flight(|t.injected|, Origin(home[src].bridge), src, dst));
    FloodStarts(net, s, allowed, home[src]);
    assert FloodOf(r, |t.injected|, []) == Flood([Origin(home[src].bridge)], [], []);
  }

  /** Bridge b has taken frame n in. */
  ghost predicate TookIn(t: Traffic, n: nat, b: nat) {
    exists f :: f in t.taken && f.id == n && Last(f.trail) == b
  }

  lemma TookInIsVisited(t: Traffic, n: nat, b: nat)
    ensures TookIn(t, n, b) <==> b in Visited(Trails(t.taken, n))
  {
    var ws := Trails(t.taken, n);
    if TookIn(t, n, b) {
      var f :| f in t.taken && f.id == n && Last(f.trail) == b;
      assert f.trail in ws;
      var i :| 0 <= i < |ws| && ws[i] == f.trail;
      assert Visited(ws)[i] == b;
    }
    if b in Visited(ws) {
      var i :| 0 <= i < |ws| && Visited(ws)[i] == b;
      assert ws[i] in ws;
    }
  }

  lemma TookInAreVisited(t: Traffic, n: nat)
    ensures forall b: nat :: TookIn(t, n, b) <==> b in Visited(Trails(t.taken, n))
  {
    forall b: nat ensures TookIn(t, n, b) <==> b in Visited(Trails(t.taken, n)) {
      TookInIsVisited(t, n, b);
    }
  }

  /** The bridges that took frame n in are exactly those its VLAN is carried to from where it came in: every connected bridge,
      when the VLAN is allowed on the tree. */
  ghost predicate ReachedExactly(net: Net, s: Fabric, allowed: set<Endpoint>, entry: Endpoint, t: Traffic, n: nat)
    requires Matches(net, s)
  {
    && (forall b: nat :: TookIn(t, n, b) <==> exists w :: Carried(net, s, allowed, w) && First(w) == entry.bridge && Last(w) == b)
    && (AllowedOnTree(net, s, allowed, entry.bridge) ==>
          forall b: nat :: TookIn(t, n, b) <==> b < |net.bridges| && Reaches(net, entry.bridge, b))
  }

  lemma FloodAtRest(net: Net, s: Fabric, allowed: set<Endpoint>, entry: Endpoint, t: Traffic, n: nat)
    requires Ready(net, s) && IsEndpoint(net, entry) && entry !in net.peer && Spreads(net, s, allowed, entry, t, n)
    requires forall f :: f in t.flights ==> f.id != n
    ensures ReachedExactly(net, s, allowed, entry, t, n)
  {
    TrailsOfOthers(t.flights, n);
    var sent :| FloodInv(net, s, allowed, entry, FloodOf(t, n, sent));
    VisitedExactly(net, s, allowed, entry, FloodOf(t, n, sent));
    TookInAreVisited(t, n);
  }

  lemma SentFrameSpreads(net: Net, s: Fabric, allowed: set<Endpoint>, home: map<Mac, Endpoint>, t: Traffic, src: Mac, dst: Mac, evs: seq<Event>)
    requires Ready(net, s) && Attached(net, home) && TrafficInv(net, s, home, t) && OnceInv(net, s, home, t)
    requires src in home && home[src] in allowed
    requires dst == BROADCAST || (Unheard(t, dst) && dst != src && forall ev :: ev in evs ==> KeepsSilent(ev, dst))
    ensures Spreads(net, s, allowed, home[src], Traffics(net, s, allowed, home, t, [Inject(src, dst)] + evs), |t.injected|)
  {
    var u := EventStep(net, s, allowed, home, t, Inject(src, dst));
    assert ([Inject(src, dst)] + evs)[1..] == evs;
    HostPortForwards(net, s, home[src]);
    EventKeepsInv(net, s, allowed, home, t, Inject(src, dst));
    EventKeepsOnce(net, s, allowed, home, t, Inject(src, dst));
    InjectionSpreads(net, s, allowed, home, t, src, dst, u);
    TrafficSpreads(net, s, allowed, home, u, evs, |t.injected|, src, dst);
  }

  /** A broadcast, or a frame for a station that nobody has heard of and that keeps silent, is sent into whatever traffic there
      has been from empty tables on. Once none of its copies is in flight any more, and whatever else was sent, handled and
      forgotten meanwhile, it has reached exactly the bridges its VLAN is carried to. */
  lemma FloodArrives(net: Net, s: Fabric, allowed: set<Endpoint>, home: map<Mac, Endpoint>, before: seq<Event>, t: Traffic,
                     src: Mac, dst: Mac, evs: seq<Event>, r: Traffic)
    requires Ready(net, s) && Attached(net, home) && t == Traffics(net, s, allowed, home, QUIET, before)
    requires src in home && home[src] in allowed
    requires dst == BROADCAST || (Unheard(t, dst) && dst != src && forall ev :: ev in evs ==> KeepsSilent(ev, dst))
    requires r == Traffics(net, s, allowed, home, t, [Inject(src, dst)] + evs)
    requires forall f :: f in r.flights ==> f.id != |t.injected|
    ensures ReachedExactly(net, s, allowed, home[src], r, |t.injected|)
  {
    TrafficKeepsInv(net, s, allowed, home, QUIET, before);
    TrafficKeepsOnce(net, s, allowed, home, QUIET, before);
    SentFrameSpreads(net, s, allowed, home, t, src, dst, evs);
    FloodAtRest(net, s, allowed, home[src], r, |t.injected|);
  }

  /** Each bridge that takes it in sends it to every station there but its sender, where the VLAN is allowed. */
  lemma StationsAreReached(net: Net, s: Fabric, allowed: set<Endpoint>, home: map<Mac, Endpoint>, learned: map<(nat, Mac), nat>, f: Flight, m: Mac)
    requires Ready(net, s) && Attached(net, home) && TableFits(s, learned) && TookOnward(net, s, home, f)
    requires f.dst == BROADCAST || (Last(f.trail), f.dst) !in learned
    requires m in home && home[m] in allowed && home[m].bridge == Last(f.trail) && home[m] != home[f.src]
    ensures home[m] in Egress(s, allowed, learned, At(home, f), f.dst)
  {
    HostPortForwards(net, s, home[m]);
    FloodedEverywhere(s, allowed, learned, At(home, f), f.dst);
  }
}
