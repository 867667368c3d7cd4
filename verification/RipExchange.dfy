/** One RIP update over a link, from the sender's tables to the receiver's: what is advertised is learned. */
module RipExchange {
  import opened Bytes
  import opened Wrappers
  import opened RoutingTables
  import opened Rip
  import opened RipDaemon
  import opened RipNetwork

  // ----- The entries of a response, one by one -----

  lemma {:induction false} EntriesJoin(t: Tables, a: seq<RipEntry>, b: seq<RipEntry>, src: uint32, oif: nat, now: int)
    ensures ProcessEntries(t, a + b, src, oif, now) == ProcessEntries(ProcessEntries(t, a, src, oif, now), b, src, oif, now)
  {
    if b == [] {
      assert a + b == a;
    } else {
      EntriesJoin(t, a, b[..|b| - 1], src, oif, now);
      assert (a + b)[..|a + b| - 1] == a + b[..|b| - 1];
    }
  }

  lemma OneEntry(t: Tables, e: RipEntry, src: uint32, oif: nat, now: int)
    ensures ProcessEntries(t, [e], src, oif, now) == ProcessEntry(t, e, src, oif, now)
  {
    assert [e][..0] == [];
  }

  /** The router's stores are the same where this prefix is concerned. */
  predicate SameFor(t: Tables, u: Tables, k: Prefix) {
    && (k in t.rip <==> k in u.rip) && (k in t.rip ==> u.rip[k] == t.rip[k])
    && Get(u.fib, k.net, k.mask, SOURCE_RIP) == Get(t.fib, k.net, k.mask, SOURCE_RIP)
  }

  lemma {:induction false} OthersLeave(t: Tables, es: seq<RipEntry>, src: uint32, oif: nat, now: int, k: Prefix)
    requires Agree(t) && forall i :: 0 <= i < |es| ==> !IsFor(es[i], k)
    ensures Agree(ProcessEntries(t, es, src, oif, now)) && SameFor(t, ProcessEntries(t, es, src, oif, now), k)
  {
    if es != [] {
      var front, last := es[..|es| - 1], es[|es| - 1];
      OthersLeave(t, front, src, oif, now, k);
      EntryAt(ProcessEntries(t, front, src, oif, now), last, src, oif, now, k);
      EntryKeepsAgree(ProcessEntries(t, front, src, oif, now), last, src, oif, now);
    }
  }

  lemma ThreeParts(t: Tables, a: seq<RipEntry>, e: RipEntry, b: seq<RipEntry>, src: uint32, oif: nat, now: int)
    ensures ProcessEntries(t, a + [e] + b, src, oif, now)
         == ProcessEntries(ProcessEntry(ProcessEntries(t, a, src, oif, now), e, src, oif, now), b, src, oif, now)
  {
    EntriesJoin(t, a + [e], b, src, oif, now);
    EntriesJoin(t, a, [e], src, oif, now);
    OneEntry(ProcessEntries(t, a, src, oif, now), e, src, oif, now);
  }

  lemma MiddleIsLearned(t: Tables, a: seq<RipEntry>, e: RipEntry, b: seq<RipEntry>, src: uint32, oif: nat, now: int, k: Prefix)
    requires Agree(t) && IsFor(e, k)
    requires (forall i :: 0 <= i < |a| ==> !IsFor(a[i], k)) && (forall i :: 0 <= i < |b| ==> !IsFor(b[i], k))
    requires e.metric < 15 && (k in t.rip ==> t.rip[k].nextHop == src || e.metric as int + 1 < t.rip[k].metric)
    ensures Get(ProcessEntries(t, a + [e] + b, src, oif, now).fib, k.net, k.mask, 120)
         == Some(Route(k.net, k.mask, Some(src), oif, 120, e.metric + 1, 120))
  {
    var t1 := ProcessEntries(t, a, src, oif, now);
    OthersLeave(t, a, src, oif, now, k);
    EntryOutcome(t1, e, src, oif, now);
    EntryKeepsAgree(t1, e, src, oif, now);
    OthersLeave(ProcessEntry(t1, e, src, oif, now), b, src, oif, now, k);
    ThreeParts(t, a, e, b, src, oif, now);
  }

  /** A response that says one thing of a prefix, and better than what is known or from the router in use, is believed. */
  lemma OneSayIsLearned(t: Tables, es: seq<RipEntry>, j: nat, src: uint32, oif: nat, now: int, k: Prefix)
    requires Agree(t) && j < |es| && IsFor(es[j], k) && forall i :: 0 <= i < |es| && i != j ==> !IsFor(es[i], k)
    requires es[j].metric < 15 && (k in t.rip ==> t.rip[k].nextHop == src || es[j].metric as int + 1 < t.rip[k].metric)
    ensures Get(ProcessEntries(t, es, src, oif, now).fib, k.net, k.mask, 120)
         == Some(Route(k.net, k.mask, Some(src), oif, 120, es[j].metric + 1, 120))
  {
    assert es == es[..j] + [es[j]] + es[j + 1..];
    MiddleIsLearned(t, es[..j], es[j], es[j + 1..], src, oif, now, k);
  }

  // ----- As steps of the router, then of the network -----

  /** The steps of a thread that applies a packet from the lock on, with nothing between. */
  lemma {:induction false} PacketApplied(r: Router, t: nat, now: int) returns (acts: seq<Action>, r': Router)
    requires r.holder == Some(t) && t in r.packets
    ensures IsRun(r, acts, r') && forall i :: 0 <= i < |acts| ==> !acts[i].Check?
    ensures var p := r.packets[t];
            r' == Router(ProcessEntries(r.tables, p.entries, p.src, p.oif, now), r.phase, r.packets - {t}, None)
    decreases |r.packets[t].entries|
  {
    var p := r.packets[t];
    if p.entries == [] {
      acts, r' := [Finish], Next(r, Finish);
      assert acts[1..] == [];
    } else {
      var m := Next(r, Entry(now));
      var rest;
      rest, r' := PacketApplied(m, t, now);
      acts := [Entry(now)] + rest;
      assert acts[1..] == rest;
      OneEntry(r.tables, p.entries[0], p.src, p.oif, now);
      EntriesJoin(r.tables, [p.entries[0]], p.entries[1..], p.src, p.oif, now);
      assert [p.entries[0]] + p.entries[1..] == p.entries;
      assert m.packets - {t} == r.packets - {t};
    }
  }

  function Acts(v: nat, acts: seq<Action>): seq<Event> {
    if acts == [] then [] else [Act(v, acts[0])] + Acts(v, acts[1..])
  }

  lemma {:induction false} ActsRun(net: Net, w: World, v: nat, acts: seq<Action>, r': Router)
    requires v < |w.routers| && IsRun(w.routers[v], acts, r') && forall i :: 0 <= i < |acts| ==> !acts[i].Check?
    ensures Runs(net, w, Acts(v, acts), w.(routers := w.routers[v := r']))
    decreases |acts|
  {
    if acts == [] {
      assert w.routers[v := r'] == w.routers;
    } else {
      var m := After(net, w, Act(v, acts[0]));
      assert forall i :: 0 <= i < |acts[1..]| ==> acts[1..][i] == acts[i + 1];
      ActsRun(net, m, v, acts[1..], r');
      assert m.routers[v := r'] == w.routers[v := r'];
      assert Acts(v, acts)[1..] == Acts(v, acts[1..]);
    }
  }

  lemma SendIs(net: Net, w: World, from: Endpoint, src: uint32, earlier: map<Prefix, RipRoute>, advertised: seq<Route>)
    requires Possible(net, w, Send(from, src, earlier, advertised))
    ensures After(net, w, Send(from, src, earlier, advertised))
         == World(w.routers, w.flight + [Message(net.peer[from], src, Entries(advertised, from.port))])
  {
  }

  lemma LastArrives(net: Net, w: World, m: Message, thread: nat)
    requires m.to.node < |w.routers| && w.routers[m.to.node].phase == Running && w.routers[m.to.node].holder == None
    requires thread !in w.routers[m.to.node].packets
    ensures var w1, r := World(w.routers, w.flight + [m]), w.routers[m.to.node];
            && Possible(net, w1, Arrive(|w.flight|, thread))
            && After(net, w1, Arrive(|w.flight|, thread))
               == World(w.routers[m.to.node := r.(packets := r.packets[thread := PacketOf(m)])], w.flight)
  {
    var flight := w.flight + [m];
    assert flight[|w.flight|] == m && flight[..|w.flight|] + flight[|w.flight| + 1..] == w.flight;
  }

  /** What is sent over a link comes in at its other end as it was made, entry for entry, and waits there for the lock. */
  lemma SentIsReceived(net: Net, w: World, from: Endpoint, src: uint32, earlier: map<Prefix, RipRoute>, advertised: seq<Route>, thread: nat)
    requires Possible(net, w, Send(from, src, earlier, advertised)) && net.peer[from].node < |w.routers|
    requires var r := w.routers[net.peer[from].node]; r.phase == Running && r.holder == None && thread !in r.packets
    ensures var v := net.peer[from].node;
            var p := Packet(Entries(advertised, from.port), src, net.peer[from].port);
            Runs(net, w, [Send(from, src, earlier, advertised), Arrive(|w.flight|, thread)],
                 World(w.routers[v := w.routers[v].(packets := w.routers[v].packets[thread := p])], w.flight))
  {
    var evs := [Send(from, src, earlier, advertised), Arrive(|w.flight|, thread)];
    SendIs(net, w, from, src, earlier, advertised);
    LastArrives(net, w, Message(net.peer[from], src, Entries(advertised, from.port)), thread);
    assert evs[1..] == [evs[1]] && [evs[1]][1..] == [];
  }

  lemma {:induction false} EventsJoin(net: Net, a: World, first: seq<Event>, b: World, rest: seq<Event>, c: World)
    requires Runs(net, a, first, b) && Runs(net, b, rest, c)
    ensures Runs(net, a, first + rest, c)
    decreases |first|
  {
    if first == [] {
      assert first + rest == rest;
    } else {
      EventsJoin(net, After(net, a, first[0]), first[1..], b, rest, c);
      assert (first + rest)[1..] == first[1..] + rest && (first + rest)[0] == first[0];
    }
  }

  /** A thread applies the packet it has brought past the check, with nothing between, and is gone. */
  lemma PacketTaken(r: Router, thread: nat, p: Packet, now: int) returns (acts: seq<Action>)
    requires r.phase == Running && r.holder == None && thread !in r.packets
    ensures IsRun(r.(packets := r.packets[thread := p]), acts, r.(tables := ProcessEntries(r.tables, p.entries, p.src, p.oif, now)))
    ensures forall i :: 0 <= i < |acts| ==> !acts[i].Check?
  {
    var r1 := r.(packets := r.packets[thread := p]);
    var r2 := Next(r1, Begin(thread));
    var rest, r3 := PacketApplied(r2, thread, now);
    acts := [Begin(thread)] + rest;
    assert acts[1..] == rest;
    assert r1.packets - {thread} == r.packets;
  }

  /** A whole update: the receiver ends up with what its entries make of its stores, and nothing else has changed. */
  lemma UpdateIsApplied(net: Net, w: World, from: Endpoint, src: uint32, earlier: map<Prefix, RipRoute>, advertised: seq<Route>,
                        thread: nat, now: int) returns (evs: seq<Event>)
    requires Possible(net, w, Send(from, src, earlier, advertised)) && net.peer[from].node < |w.routers|
    requires var r := w.routers[net.peer[from].node]; r.phase == Running && r.holder == None && thread !in r.packets
    ensures var e := net.peer[from];
            var r := w.routers[e.node];
            Runs(net, w, evs, w.(routers := w.routers[e.node := r.(tables := ProcessEntries(r.tables, Entries(advertised, from.port), src, e.port, now))]))
  {
    var e := net.peer[from];
    var r, p := w.routers[e.node], Packet(Entries(advertised, from.port), src, e.port);
    SentIsReceived(net, w, from, src, earlier, advertised, thread);
    var w2 := World(w.routers[e.node := r.(packets := r.packets[thread := p])], w.flight);
    var acts := PacketTaken(r, thread, p, now);
    var after := r.(tables := ProcessEntries(r.tables, p.entries, src, e.port, now));
    ActsRun(net, w2, e.node, acts, after);
    assert w2.routers[e.node := after] == w.routers[e.node := after];
    var sent := [Send(from, src, earlier, advertised), Arrive(|w.flight|, thread)];
    EventsJoin(net, w, sent, w2, Acts(e.node, acts), w2.(routers := w2.routers[e.node := after]));
    evs := sent + Acts(e.node, acts);
  }

  /** A running router that gets an update applies it to the end, and uses a route for a prefix that the update names once, by
      the sender's cost and one hop more, if it knows none as good; through the sender, out of the port the update came in on. */
  lemma NeighbourLearns(net: Net, w: World, from: Endpoint, src: uint32, earlier: map<Prefix, RipRoute>, advertised: seq<Route>,
                        thread: nat, now: int, j: nat, metric: nat) returns (evs: seq<Event>, w': World)
    requires Possible(net, w, Send(from, src, earlier, advertised)) && net.peer[from].node < |w.routers| && j < |advertised|
    requires var r := w.routers[net.peer[from].node]; r.phase == Running && r.holder == None && thread !in r.packets && Agree(r.tables)
    requires var r := advertised[j];
             && r.mask <= 32 && Network(r.dest, r.mask) == r.dest && !(r.source == 120 && r.oif == from.port)
             && metric == (if r.metric == 0 && r.source != 0 then 1 else r.metric) + 1 && metric < 16
             && (forall i :: 0 <= i < |advertised| && i != j ==> PrefixOf(EntryFor(advertised[i], from.port)) != Prefix(r.dest, r.mask))
    requires var k, rip := Prefix(advertised[j].dest, advertised[j].mask), w.routers[net.peer[from].node].tables.rip;
             k in rip ==> rip[k].nextHop == src || metric < rip[k].metric as int
    ensures Runs(net, w, evs, w') && |w'.routers| == |w.routers|
    ensures var r, e := advertised[j], net.peer[from];
            Get(w'.routers[e.node].tables.fib, r.dest, r.mask, 120) == Some(Route(r.dest, r.mask, Some(src), e.port, 120, metric, 120))
  {
    var e, r := net.peer[from], advertised[j];
    var t, es := w.routers[e.node].tables, Entries(advertised, from.port);
    evs := UpdateIsApplied(net, w, from, src, earlier, advertised, thread, now);
    w' := w.(routers := w.routers[e.node := w.routers[e.node].(tables := ProcessEntries(t, es, src, e.port, now))]);
    EntrySays(r, from.port);
    PrefixSurvivesTheWire(r, from.port);
    OneSayIsLearned(t, es, j, src, e.port, now, Prefix(r.dest, r.mask));
  }
}
