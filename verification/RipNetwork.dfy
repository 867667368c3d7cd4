/** RIP across routers: whatever is delivered, lost, delayed or stopped, every learned metric is the cost of a real path. */
module RipNetwork {
  import opened Bytes
  import opened Wrappers
  import opened RoutingTables
  import opened Rip
  import opened RipDaemon

  datatype Endpoint = Endpoint(node: nat, port: nat)

  /** The fixed part: the links, and the routes that do not come from RIP. */
  datatype Net = Net(peer: map<Endpoint, Endpoint>, base: seq<seq<Route>>)

  /** A response on its way to an interface. */
  datatype Message = Message(to: Endpoint, src: uint32, entries: seq<RipEntry>)

  datatype World = World(routers: seq<Router>, flight: seq<Message>)

  /** An update advertises the forwarding table with the poisons of an earlier reading of the learned routes. A message that
      arrives is checked by a thread of the router; everything else a router does is a step of its own. */
  datatype Event =
    | Send(from: Endpoint, src: uint32, earlier: map<Prefix, RipRoute>, advertised: seq<Route>)
    | Arrive(i: nat, thread: nat)
    | Lose(i: nat)
    | Act(node: nat, action: Action)

  ghost predicate WellFormed(net: Net) {
    && (forall e :: e in net.peer ==> e.node < |net.base| && net.peer[e] in net.peer && net.peer[net.peer[e]] == e)
    && (forall v :: 0 <= v < |net.base| ==> Valid(net.base[v]) && forall i :: 0 <= i < |net.base[v]| ==> net.base[v][i].source != SOURCE_RIP)
  }

  /** No router has been started. */
  function Start(net: Net): World {
    World(seq(|net.base|, v requires 0 <= v < |net.base| => Router(Tables(map[], net.base[v]), Stopped, map[], None)), [])
  }

  function PacketOf(m: Message): Packet {
    Packet(m.entries, m.src, m.to.port)
  }

  ghost predicate Possible(net: Net, w: World, ev: Event) {
    match ev
    case Send(from, src, earlier, advertised) =>
      from in net.peer && from.node < |w.routers| && IsAdvertisement(Tables(earlier, w.routers[from.node].tables.fib), advertised)
    case Arrive(i, thread) =>
      i < |w.flight| && w.flight[i].to.node < |w.routers|
      && Enabled(w.routers[w.flight[i].to.node], Check(thread, PacketOf(w.flight[i])))
    case Lose(i) => i < |w.flight|
    case Act(v, a) => v < |w.routers| && !a.Check? && Enabled(w.routers[v], a)
  }

  function Entries(advertised: seq<Route>, outgoing: nat): (es: seq<RipEntry>)
    ensures |es| == |advertised| && forall i :: 0 <= i < |es| ==> es[i] == EntryFor(advertised[i], outgoing)
  {
    seq(|advertised|, i requires 0 <= i < |advertised| => EntryFor(advertised[i], outgoing))
  }

  ghost function After(net: Net, w: World, ev: Event): World
    requires Possible(net, w, ev)
  {
    match ev
    case Send(from, src, _, advertised) =>
      w.(flight := w.flight + [Message(net.peer[from], src, Entries(advertised, from.port))])
    case Arrive(i, thread) =>
      var m := w.flight[i];
      World(w.routers[m.to.node := Next(w.routers[m.to.node], Check(thread, PacketOf(m)))], w.flight[..i] + w.flight[i + 1..])
    case Lose(i) => w.(flight := w.flight[..i] + w.flight[i + 1..])
    case Act(v, a) => w.(routers := w.routers[v := Next(w.routers[v], a)])
  }

  ghost predicate Runs(net: Net, w: World, evs: seq<Event>, w': World)
    decreases |evs|
  {
    if evs == [] then w' == w
    else Possible(net, w, evs[0]) && Runs(net, After(net, w, evs[0]), evs[1..], w')
  }

  /** What router v does in an event, if anything. */
  function StepOf(w: World, ev: Event, v: nat): Option<Action> {
    match ev
    case Arrive(i, thread) => if i < |w.flight| && w.flight[i].to.node == v then Some(Check(thread, PacketOf(w.flight[i]))) else None
    case Act(u, a) => if u == v then Some(a) else None
    case _ => None
  }

  /** The steps of router v in a run. */
  ghost function StepsOf(net: Net, w: World, evs: seq<Event>, w': World, v: nat): seq<Action>
    requires Runs(net, w, evs, w')
    decreases |evs|
  {
    if evs == [] then []
    else
      var rest := StepsOf(net, After(net, w, evs[0]), evs[1..], w', v);
      match StepOf(w, evs[0], v) case None => rest case Some(a) => [a] + rest
  }

  /** Each router of the network runs as a router does by itself, so what holds of every run of one router holds here. */
  lemma {:induction false} EachRouterRuns(net: Net, w: World, evs: seq<Event>, w': World, v: nat)
    requires Runs(net, w, evs, w') && v < |w.routers|
    ensures |w'.routers| == |w.routers| && IsRun(w.routers[v], StepsOf(net, w, evs, w', v), w'.routers[v])
    decreases |evs|
  {
    if evs != [] {
      var m := After(net, w, evs[0]);
      EachRouterRuns(net, m, evs[1..], w', v);
      match StepOf(w, evs[0], v)
      case None => assert m.routers[v] == w.routers[v];
      case Some(a) => RunFrom(w.routers[v], a, StepsOf(net, m, evs[1..], w', v), w'.routers[v]);
    }
  }

  // ----- Real paths -----

  /** The router itself advertises the prefix, from a route of its own, at this cost. */
  ghost predicate Originates(net: Net, v: nat, k: Prefix, cost: nat) {
    v < |net.base| && exists i :: 0 <= i < |net.base[v]| && net.base[v][i].dest == k.net && net.base[v][i].mask == k.mask
                                 && Cost(net.base[v][i]) == cost
  }

  ghost predicate Adjacent(net: Net, u: nat, v: nat) {
    exists p: nat, q: nat :: Endpoint(u, p) in net.peer && net.peer[Endpoint(u, p)] == Endpoint(v, q)
  }

  /** A path of routers from one that originates the prefix. */
  ghost predicate IsPath(net: Net, path: seq<nat>, k: Prefix, cost: nat) {
    && path != []
    && (forall i :: 0 < i < |path| ==> Adjacent(net, path[i - 1], path[i]))
    && cost >= |path| - 1 && Originates(net, path[0], k, cost - (|path| - 1))
  }

  /** Some path to v costs exactly this: its origin's cost plus one for each link. */
  ghost predicate Offers(net: Net, v: nat, k: Prefix, cost: nat) {
    exists path :: IsPath(net, path, k, cost) && path[|path| - 1] == v
  }

  lemma {:induction false} OriginOffers(net: Net, v: nat, k: Prefix, cost: nat)
    requires Originates(net, v, k, cost)
    ensures Offers(net, v, k, cost)
  {
    assert IsPath(net, [v], k, cost);
  }

  lemma {:induction false} LinkOffers(net: Net, u: Endpoint, k: Prefix, cost: nat)
    requires u in net.peer && Offers(net, u.node, k, cost)
    ensures Offers(net, net.peer[u].node, k, cost + 1)
  {
    var path :| IsPath(net, path, k, cost) && path[|path| - 1] == u.node;
    var v := net.peer[u].node;
    var longer := path + [v];
    assert Adjacent(net, u.node, v) by {
      assert Endpoint(u.node, u.port) in net.peer && net.peer[Endpoint(u.node, u.port)] == Endpoint(v, net.peer[u].port);
    }
    assert IsPath(net, longer, k, cost + 1);
  }

  // ----- The invariant -----

  /** The metric costs one more than some path to the router at the other end of the interface. */
  ghost predicate Witnessed(net: Net, v: nat, k: Prefix, oif: nat, metric: nat) {
    && Endpoint(v, oif) in net.peer && 1 <= metric
    && Offers(net, net.peer[Endpoint(v, oif)].node, k, metric - 1)
  }

  /** The route for the prefix in the forwarding table, if RIP has one. */
  ghost predicate RipWitnessed(net: Net, v: nat, fib: seq<Route>, k: Prefix) {
    HasRip(fib, k) ==>
      var r := Get(fib, k.net, k.mask, SOURCE_RIP).value; Witnessed(net, v, k, r.oif, r.metric)
  }

  /** Learned routes are witnessed, and so are the RIP routes of the forwarding table, even those that a stop has left behind. */
  ghost predicate TablesOk(net: Net, v: nat, t: Tables) {
    && v < |net.base| && Stored(t) && SameOthers(net.base[v], t.fib)
    && (forall k :: k in t.rip && !t.rip[k].expired ==> Witnessed(net, v, k, t.rip[k].oif, t.rip[k].metric))
    && (forall k: Prefix :: RipWitnessed(net, v, t.fib, k))
  }

  /** Every reachable prefix in a message is the cost of a path to its sender. */
  ghost predicate EntryOk(net: Net, to: Endpoint, e: RipEntry)
    requires to in net.peer
  {
    e.metric <= MAX_METRIC && (e.metric < MAX_METRIC ==> Offers(net, net.peer[to].node, PrefixOf(e), e.metric))
  }

  ghost predicate EntriesOk(net: Net, to: Endpoint, es: seq<RipEntry>) {
    to in net.peer && forall i :: 0 <= i < |es| ==> EntryOk(net, to, es[i])
  }

  ghost predicate RouterOk(net: Net, v: nat, r: Router) {
    && TablesOk(net, v, r.tables)
    && (r.holder.Some? ==> r.holder.value in r.packets)
    && forall t :: t in r.packets ==> EntriesOk(net, Endpoint(v, r.packets[t].oif), r.packets[t].entries)
  }

  ghost predicate Sound(net: Net, w: World) {
    && |w.routers| == |net.base|
    && (forall v :: 0 <= v < |w.routers| ==> RouterOk(net, v, w.routers[v]))
    && (forall i :: 0 <= i < |w.flight| ==> EntriesOk(net, w.flight[i].to, w.flight[i].entries))
  }

  lemma {:induction false} StartIsSound(net: Net)
    requires WellFormed(net)
    ensures Sound(net, Start(net))
    ensures forall v :: 0 <= v < |net.base| ==> Orderly(Start(net).routers[v])
  {
    forall v | 0 <= v < |net.base| ensures TablesOk(net, v, Tables(map[], net.base[v])) && Agree(Tables(map[], net.base[v])) {
      NoRipIs(net.base[v]);
      forall k: Prefix ensures !HasRip(net.base[v], k) {
      }
      ClearAgreesExactly(Tables(map[], net.base[v]));
    }
  }

  /** What a router advertises is the cost of a path to it, or infinity, whenever its two stores were read. */
  lemma {:induction false} AdvertisedIsOffered(net: Net, v: nat, earlier: map<Prefix, RipRoute>, t: Tables, advertised: seq<Route>, i: nat, outgoing: nat)
    requires WellFormed(net) && TablesOk(net, v, t) && IsAdvertisement(Tables(earlier, t.fib), advertised) && i < |advertised|
    ensures var e := EntryFor(advertised[i], outgoing);
            e.metric < MAX_METRIC ==> Offers(net, v, PrefixOf(e), e.metric)
  {
    var r := advertised[i];
    var e, k := EntryFor(r, outgoing), Prefix(r.dest, r.mask);
    if e.metric < MAX_METRIC {
      assert i < |t.fib| && r == t.fib[i] by {
        if i < |t.fib| {
          assert advertised[..|t.fib|][i] == r;
        }
      }
      PrefixSurvivesTheWire(r, outgoing);
      GetIs(t.fib, i);
      if r.source == SOURCE_RIP {
        assert HasRip(t.fib, k) && RipWitnessed(net, v, t.fib, k);
        LinkOffers(net, net.peer[Endpoint(v, r.oif)], k, r.metric - 1);
      } else {
        assert Get(net.base[v], r.dest, r.mask, r.source) == Some(r);
        assert Originates(net, v, k, Cost(r));
        OriginOffers(net, v, k, Cost(r));
      }
    }
  }

  lemma {:induction false} EntryKeepsTables(net: Net, v: nat, t: Tables, e: RipEntry, src: uint32, port: nat, now: int)
    requires WellFormed(net) && TablesOk(net, v, t) && Endpoint(v, port) in net.peer && EntryOk(net, Endpoint(v, port), e)
    ensures TablesOk(net, v, ProcessEntry(t, e, src, port, now))
  {
    var t' := ProcessEntry(t, e, src, port, now);
    EntryAt(t, e, src, port, now, PrefixOf(e));
    forall d: uint32, m: byte, s: byte | s != SOURCE_RIP {
      EntryKeepsOthers(t, e, src, port, now, d, m, s);
    }
    forall k: Prefix
      ensures k in t'.rip && !t'.rip[k].expired ==> Witnessed(net, v, k, t'.rip[k].oif, t'.rip[k].metric)
      ensures RipWitnessed(net, v, t'.fib, k)
    {
      EntryAt(t, e, src, port, now, k);
      assert RipWitnessed(net, v, t.fib, k);
    }
  }

  lemma {:induction false} RouterStepKeepsOk(net: Net, v: nat, r: Router, a: Action)
    requires WellFormed(net) && RouterOk(net, v, r) && Enabled(r, a)
    requires a.Check? ==> EntriesOk(net, Endpoint(v, a.packet.oif), a.packet.entries)
    ensures RouterOk(net, v, Next(r, a))
  {
    StepKeepsSane(r, a);
    match a
    case Entry(now) =>
      var p := r.packets[r.holder.value];
      EntryKeepsTables(net, v, r.tables, p.entries[0], p.src, p.oif, now);
    case Expire(fib, now) => ExpireKeepsTables(net, v, r.tables, fib, now);
    case StopFlush => FlushIsWithin(r.tables);
    case _ =>
  }

  lemma {:induction false} ExpireKeepsTables(net: Net, v: nat, t: Tables, fib: seq<Route>, now: int)
    requires TablesOk(net, v, t) && RipRoutesRemoved(t.fib, fib, TimingOut(t.rip, now))
    ensures TablesOk(net, v, Tables(Checked(t.rip, now), fib))
  {
    forall k: Prefix ensures RipWitnessed(net, v, fib, k) {
      assert RipWitnessed(net, v, t.fib, k);
    }
  }

  lemma {:induction false} StepKeepsSound(net: Net, w: World, ev: Event)
    requires WellFormed(net) && Sound(net, w) && Possible(net, w, ev)
    ensures Sound(net, After(net, w, ev))
  {
    match ev
    case Send(from, src, earlier, advertised) =>
      var es := Entries(advertised, from.port);
      forall i | 0 <= i < |es| ensures EntryOk(net, net.peer[from], es[i]) {
        AdvertisedIsOffered(net, from.node, earlier, w.routers[from.node].tables, advertised, i, from.port);
      }
    case Arrive(i, thread) =>
      var m := w.flight[i];
      assert EntriesOk(net, m.to, m.entries) && m.to == Endpoint(m.to.node, m.to.port);
      RouterStepKeepsOk(net, m.to.node, w.routers[m.to.node], Check(thread, PacketOf(m)));
    case Lose(i) =>
    case Act(v, a) => RouterStepKeepsOk(net, v, w.routers[v], a);
  }

  lemma {:induction false} RunKeepsSound(net: Net, w: World, evs: seq<Event>, w': World)
    requires WellFormed(net) && Sound(net, w) && Runs(net, w, evs, w')
    ensures Sound(net, w')
    decreases |evs|
  {
    if evs != [] {
      StepKeepsSound(net, w, evs[0]);
      RunKeepsSound(net, After(net, w, evs[0]), evs[1..], w');
    }
  }

  lemma {:induction false} WitnessIsOffered(net: Net, v: nat, k: Prefix, oif: nat, metric: nat)
    requires WellFormed(net) && Witnessed(net, v, k, oif, metric)
    ensures Offers(net, v, k, metric)
  {
    LinkOffers(net, net.peer[Endpoint(v, oif)], k, metric - 1);
  }

  lemma {:induction false} TablesAreOffered(net: Net, v: nat, t: Tables, k: Prefix)
    requires WellFormed(net) && TablesOk(net, v, t)
    ensures k in t.rip && !t.rip[k].expired ==> Offers(net, v, k, t.rip[k].metric)
    ensures HasRip(t.fib, k) ==> Offers(net, v, k, Get(t.fib, k.net, k.mask, SOURCE_RIP).value.metric)
  {
    if k in t.rip && !t.rip[k].expired {
      WitnessIsOffered(net, v, k, t.rip[k].oif, t.rip[k].metric);
    }
    if HasRip(t.fib, k) {
      assert RipWitnessed(net, v, t.fib, k);
      var r := Get(t.fib, k.net, k.mask, SOURCE_RIP).value;
      WitnessIsOffered(net, v, k, r.oif, r.metric);
    }
  }

  // ----- Main results -----

  /** In every run, however packets, timers, stops and restarts interleave, on every router: routes of other sources are as
      configured; each unexpired learned metric, and the metric of each RIP route in the forwarding table, is exactly the
      cost of a path from a router that originates the prefix. */
  lemma {:induction false} EveryMetricIsAPathCost(net: Net, evs: seq<Event>, w: World, v: nat, k: Prefix)
    requires WellFormed(net) && Runs(net, Start(net), evs, w) && v < |net.base|
    ensures |w.routers| == |net.base| && SameOthers(net.base[v], w.routers[v].tables.fib)
    ensures var t := w.routers[v].tables;
            && (k in t.rip && !t.rip[k].expired ==> Offers(net, v, k, t.rip[k].metric))
            && (HasRip(t.fib, k) ==> Offers(net, v, k, Get(t.fib, k.net, k.mask, SOURCE_RIP).value.metric))
  {
    StartIsSound(net);
    RunKeepsSound(net, Start(net), evs, w);
    assert TablesOk(net, v, w.routers[v].tables);
    TablesAreOffered(net, v, w.routers[v].tables, k);
  }

  /** On every router whose stops did not flush while a packet past the check could do harm, the two stores agree, except
      between flush and clear, where the forwarding table holds learned routes only. */
  lemma {:induction false} StoresAgree(net: Net, evs: seq<Event>, w: World, v: nat)
    requires WellFormed(net) && Runs(net, Start(net), evs, w) && v < |net.base|
    ensures |w.routers| == |net.base|
    ensures var steps := StepsOf(net, Start(net), evs, w, v);
            IsRun(Start(net).routers[v], steps, w.routers[v])
            && (HarmlessStops(Start(net).routers[v], steps, w.routers[v]) ==> Orderly(w.routers[v]))
  {
    StartIsSound(net);
    EachRouterRuns(net, Start(net), evs, w, v);
    var steps := StepsOf(net, Start(net), evs, w, v);
    if HarmlessStops(Start(net).routers[v], steps, w.routers[v]) {
      EveryRunAgrees(Start(net).routers[v], steps, w.routers[v]);
    }
  }

  /** No metric is below the true distance: if every path to v costs at least d, so does every unexpired metric. */
  lemma {:induction false} NoMetricBelowDistance(net: Net, evs: seq<Event>, w: World, v: nat, k: Prefix, d: nat)
    requires WellFormed(net) && Runs(net, Start(net), evs, w) && v < |net.base|
    requires forall cost: nat, path :: IsPath(net, path, k, cost) && path[|path| - 1] == v ==> d <= cost
    ensures |w.routers| == |net.base|
    ensures var t := w.routers[v].tables;
            && (k in t.rip && !t.rip[k].expired ==> d <= t.rip[k].metric)
            && (HasRip(t.fib, k) ==> d <= Get(t.fib, k.net, k.mask, SOURCE_RIP).value.metric)
  {
    EveryMetricIsAPathCost(net, evs, w, v, k);
    var t := w.routers[v].tables;
    if k in t.rip && !t.rip[k].expired {
      var path :| IsPath(net, path, k, t.rip[k].metric) && path[|path| - 1] == v;
    }
    if HasRip(t.fib, k) {
      var path :| IsPath(net, path, k, Get(t.fib, k.net, k.mask, SOURCE_RIP).value.metric) && path[|path| - 1] == v;
    }
  }
}
