/** RIP version 2 on one router: learning, refreshing, poisoning, timing out and advertising routes. */
module Rip {
  import opened Bytes
  import opened Wrappers
  import opened RoutingTables
  import opened SubnetMasks

  const MAX_METRIC: uint32 := 16
  const AF_IP: uint16 := 2
  const RESPONSE: byte := 2

  // Times are in seconds.
  const TIMEOUT: int := 180
  const GARBAGE_COLLECT: int := 120

  datatype RipEntry = RipEntry(family: uint16, tag: uint16, address: uint32, subnet: uint32, nextHop: uint32, metric: uint32)

  datatype Prefix = Prefix(net: uint32, mask: byte)

  datatype RipRoute = RipRoute(nextHop: uint32, oif: nat, metric: uint32, lastUpdate: int, expired: bool, expiredAt: Option<int>)

  /** The learned routes and the forwarding table, which have to agree. */
  datatype Tables = Tables(rip: map<Prefix, RipRoute>, fib: seq<Route>)

  function MaskBits(subnet: uint32): (r: byte)
    ensures r <= 32
  {
    MaskBitsBound(subnet);
    OneBits(subnet)
  }

  function PrefixOf(e: RipEntry): Prefix {
    Prefix(Network(e.address, MaskBits(e.subnet)), MaskBits(e.subnet))
  }

  /** One more hop, in 32-bit arithmetic, capped at infinity. */
  function LearnedMetric(metric: uint32): (r: uint32)
    ensures r <= MAX_METRIC
    ensures metric < MAX_METRIC ==> r == metric + 1
    ensures MAX_METRIC <= metric < 0xFFFF_FFFF ==> r == MAX_METRIC
  {
    var m := Add32(metric, 1);
    if m > MAX_METRIC then MAX_METRIC else m
  }

  /** The learned metric is one more, capped, for every metric but the largest, which wraps around to a metric of zero. */
  lemma {:induction false} MetricWrapsOnlyAtTheTop(metric: uint32)
    ensures LearnedMetric(metric) as int == (if metric + 1 < MAX_METRIC then metric + 1 else MAX_METRIC) <==> metric != 0xFFFF_FFFF
    ensures LearnedMetric(0xFFFF_FFFF) == 0
  {
    assert Add32(0xFFFF_FFFF, 1) == 0;
  }

  function FibRoute(k: Prefix, r: RipRoute): Route {
    Route(k.net, k.mask, Some(r.nextHop), r.oif, SOURCE_RIP, r.metric, SOURCE_RIP)
  }

  function Refreshed(r: RipRoute, metric: uint32, oif: nat, now: int): RipRoute {
    var expired := metric >= MAX_METRIC;
    RipRoute(r.nextHop, oif, metric, now, expired,
             if !expired then None else if r.expired then r.expiredAt else Some(now))
  }

  predicate Better(t: Tables, k: Prefix, metric: uint32) {
    metric < MAX_METRIC && (k !in t.rip || metric < t.rip[k].metric)
  }

  function ProcessEntry(t: Tables, e: RipEntry, src: uint32, oif: nat, now: int): Tables {
    var k, metric := PrefixOf(e), LearnedMetric(e.metric);
    if e.family != AF_IP then t
    else if Better(t, k, metric) then
      var r := RipRoute(src, oif, metric, now, false, None);
      Tables(t.rip[k := r], Added(t.fib, FibRoute(k, r)))
    else if k in t.rip && t.rip[k].nextHop == src then
      var r := Refreshed(t.rip[k], metric, oif, now);
      Tables(t.rip[k := r], if r.expired then Removed(t.fib, k.net, k.mask, SOURCE_RIP) else Added(t.fib, FibRoute(k, r)))
    else t
  }

  function ProcessEntries(t: Tables, es: seq<RipEntry>, src: uint32, oif: nat, now: int): Tables {
    if es == [] then t
    else ProcessEntry(ProcessEntries(t, es[..|es| - 1], src, oif, now), es[|es| - 1], src, oif, now)
  }

  predicate TimesOut(r: RipRoute, now: int) {
    now - r.lastUpdate > TIMEOUT && !r.expired
  }

  function Aged(r: RipRoute, now: int): RipRoute {
    if TimesOut(r, now) then r.(expired := true, metric := MAX_METRIC, expiredAt := Some(now)) else r
  }

  predicate Collected(r: RipRoute, now: int) {
    r.expired && r.expiredAt.Some? && now - r.expiredAt.value > GARBAGE_COLLECT
  }

  function Checked(rip: map<Prefix, RipRoute>, now: int): map<Prefix, RipRoute> {
    map k | k in rip && !Collected(Aged(rip[k], now), now) :: Aged(rip[k], now)
  }

  /** What the forwarding table is after the prefixes in gone have lost their RIP routes, whatever the order of removal. */
  ghost predicate RipRoutesRemoved(fib: seq<Route>, fib': seq<Route>, gone: set<Prefix>) {
    && Valid(fib')
    && forall d: uint32, m: byte, s: byte ::
         Get(fib', d, m, s) == if s == SOURCE_RIP && Prefix(d, m) in gone then None else Get(fib, d, m, s)
  }

  function TimingOut(rip: map<Prefix, RipRoute>, now: int): set<Prefix> {
    set k | k in rip && TimesOut(rip[k], now)
  }

  // ----- Advertising -----

  function Poison(k: Prefix, r: RipRoute): Route {
    FibRoute(k, r).(metric := MAX_METRIC)
  }

  predicate Covered(fib: seq<Route>, k: Prefix) {
    exists i :: 0 <= i < |fib| && fib[i].dest == k.net && fib[i].mask == k.mask
  }

  /** The forwarding table followed by one poison for each expired prefix that it does not hold, in some order. */
  ghost predicate IsAdvertisement(t: Tables, routes: seq<Route>) {
    && |t.fib| <= |routes| && routes[..|t.fib|] == t.fib
    && (forall i :: |t.fib| <= i < |routes| ==>
          var k := Prefix(routes[i].dest, routes[i].mask);
          k in t.rip && t.rip[k].expired && !Covered(t.fib, k) && routes[i] == Poison(k, t.rip[k]))
    && (forall k :: k in t.rip && t.rip[k].expired && !Covered(t.fib, k) ==>
          exists i :: |t.fib| <= i < |routes| && routes[i] == Poison(k, t.rip[k]))
    && (forall i, j :: |t.fib| <= i < j < |routes| ==> Prefix(routes[i].dest, routes[i].mask) != Prefix(routes[j].dest, routes[j].mask))
  }

  /** The cost a route is advertised at, before split horizon. */
  function Cost(r: Route): (c: uint32)
    ensures c <= MAX_METRIC
  {
    var m := if r.source != SOURCE_CONNECTED && r.metric == 0 then 1 else r.metric;
    if m > MAX_METRIC then MAX_METRIC else m
  }

  function EntryFor(r: Route, outgoing: nat): RipEntry {
    RipEntry(AF_IP, 0, r.dest, if r.mask <= 32 then SubnetMask(r.mask) else 0, 0,
             if r.source == SOURCE_RIP && r.oif == outgoing then MAX_METRIC else Cost(r))
  }

  /** The poisons for the expired prefixes among the learned routes, in some order. */
  ghost predicate ArePoisons(rip: map<Prefix, RipRoute>, ps: seq<Route>) {
    && (forall i :: 0 <= i < |ps| ==>
          var k := Prefix(ps[i].dest, ps[i].mask); k in rip && rip[k].expired && ps[i] == Poison(k, rip[k]))
    && (forall k :: k in rip && rip[k].expired ==> exists i :: 0 <= i < |ps| && ps[i] == Poison(k, rip[k]))
    && (forall i, j :: 0 <= i < j < |ps| ==> Prefix(ps[i].dest, ps[i].mask) != Prefix(ps[j].dest, ps[j].mask))
  }

  // ----- The two stores agree -----

  ghost predicate RipRouteOk(k: Prefix, r: RipRoute) {
    && k.mask <= 32 && Network(k.net, k.mask) == k.net
    && r.metric <= MAX_METRIC && (r.expired <==> r.metric == MAX_METRIC) && (r.expired ==> r.expiredAt.Some?)
  }

  /** The RIP routes of the forwarding table are exactly the learned routes that have not expired. */
  ghost predicate Agree(t: Tables) {
    && Valid(t.fib)
    && (forall k :: k in t.rip ==> RipRouteOk(k, t.rip[k]))
    && forall k: Prefix :: Get(t.fib, k.net, k.mask, SOURCE_RIP) ==
                           if k in t.rip && !t.rip[k].expired then Some(FibRoute(k, t.rip[k])) else None
  }

  lemma {:induction false} EntryPrefixIsMasked(e: RipEntry)
    ensures var k := PrefixOf(e); k.mask <= 32 && Network(k.net, k.mask) == k.net
  {
    NetworkIsMasked(e.address, MaskBits(e.subnet));
  }

  lemma {:induction false} InstallKeepsAgree(t: Tables, p: Prefix, r: RipRoute)
    requires Agree(t) && RipRouteOk(p, r) && !r.expired
    ensures Agree(Tables(t.rip[p := r], Added(t.fib, FibRoute(p, r))))
  {
    AddedIsValid(t.fib, FibRoute(p, r));
    forall k: Prefix {
      AddedGet(t.fib, FibRoute(p, r), k.net, k.mask, SOURCE_RIP);
    }
  }

  lemma {:induction false} PoisonKeepsAgree(t: Tables, p: Prefix, r: RipRoute)
    requires Agree(t) && RipRouteOk(p, r) && r.expired
    ensures Agree(Tables(t.rip[p := r], Removed(t.fib, p.net, p.mask, SOURCE_RIP)))
  {
    RemovedIsValid(t.fib, p.net, p.mask, SOURCE_RIP);
    forall k: Prefix {
      RemovedGet(t.fib, p.net, p.mask, SOURCE_RIP, k.net, k.mask, SOURCE_RIP);
    }
  }

  lemma {:induction false} EntryKeepsAgree(t: Tables, e: RipEntry, src: uint32, oif: nat, now: int)
    requires Agree(t)
    ensures Agree(ProcessEntry(t, e, src, oif, now))
  {
    var t', p := ProcessEntry(t, e, src, oif, now), PrefixOf(e);
    EntryPrefixIsMasked(e);
    if t' != t {
      var r := t'.rip[p];
      if r.expired {
        PoisonKeepsAgree(t, p, r);
      } else {
        InstallKeepsAgree(t, p, r);
      }
    }
  }

  /** What an entry does to the learned routes. */
  lemma {:induction false} EntryRecord(t: Tables, e: RipEntry, src: uint32, oif: nat, now: int)
    requires e.family == AF_IP
    ensures var k, m, t' := PrefixOf(e), LearnedMetric(e.metric), ProcessEntry(t, e, src, oif, now);
            if Better(t, k, m) || (k in t.rip && t.rip[k].nextHop == src) then
              k in t'.rip && t'.rip[k].nextHop == src && t'.rip[k].oif == oif && t'.rip[k].metric == m
              && (t'.rip[k].expired <==> m >= MAX_METRIC)
            else t' == t
  {
  }

  /** What agreement says of the entry's own prefix, before and after. */
  lemma {:induction false} EntryAgreesAt(t: Tables, e: RipEntry, src: uint32, oif: nat, now: int)
    requires Agree(t)
    ensures var k, t' := PrefixOf(e), ProcessEntry(t, e, src, oif, now);
            && (k in t.rip ==> RipRouteOk(k, t.rip[k])) && (k in t'.rip ==> RipRouteOk(k, t'.rip[k]))
            && Get(t'.fib, k.net, k.mask, SOURCE_RIP)
               == if k in t'.rip && !t'.rip[k].expired then Some(FibRoute(k, t'.rip[k])) else None
  {
    EntryKeepsAgree(t, e, src, oif, now);
  }

  /** What an entry does to forwarding: a better one is used, at one hop more, through the router it came from; bad news
      from the router in use takes the route away; news that is no better from any other router changes nothing. */
  lemma {:induction false} EntryOutcome(t: Tables, e: RipEntry, src: uint32, oif: nat, now: int)
    requires Agree(t) && e.family == AF_IP && e.metric <= MAX_METRIC
    ensures var k, t' := PrefixOf(e), ProcessEntry(t, e, src, oif, now);
            && (e.metric + 1 < MAX_METRIC && (k !in t.rip || t.rip[k].nextHop == src || e.metric + 1 < t.rip[k].metric) ==>
                  Get(t'.fib, k.net, k.mask, SOURCE_RIP)
                  == Some(Route(k.net, k.mask, Some(src), oif, SOURCE_RIP, e.metric + 1, SOURCE_RIP)))
            && (e.metric + 1 >= MAX_METRIC && k in t.rip && t.rip[k].nextHop == src ==>
                  Get(t'.fib, k.net, k.mask, SOURCE_RIP) == None && k in t'.rip && t'.rip[k].expired)
            && (e.metric + 1 >= MAX_METRIC && k !in t.rip ==> t' == t)
            && (k in t.rip && e.metric + 1 >= t.rip[k].metric as int && t.rip[k].nextHop != src ==> t' == t)
  {
    EntryAgreesAt(t, e, src, oif, now);
    EntryRecord(t, e, src, oif, now);
  }

  /** An entry with the largest metric leaves its prefix in use at a metric of zero. */
  lemma {:induction false} WrappedMetricIsInstalled(t: Tables, e: RipEntry, src: uint32, oif: nat, now: int)
    requires Agree(t) && e.family == AF_IP && e.metric == 0xFFFF_FFFF
    ensures var k, t' := PrefixOf(e), ProcessEntry(t, e, src, oif, now);
            && k in t'.rip && !t'.rip[k].expired && t'.rip[k].metric == 0
            && Get(t'.fib, k.net, k.mask, SOURCE_RIP) == Some(FibRoute(k, t'.rip[k]))
  {
    MetricWrapsOnlyAtTheTop(e.metric);
    EntryAgreesAt(t, e, src, oif, now);
    EntryRecord(t, e, src, oif, now);
  }

  /** No entry touches a route of another source. */
  lemma {:induction false} EntryKeepsOthers(t: Tables, e: RipEntry, src: uint32, oif: nat, now: int, d: uint32, m: byte, s: byte)
    requires Valid(t.fib) && s != SOURCE_RIP
    ensures Get(ProcessEntry(t, e, src, oif, now).fib, d, m, s) == Get(t.fib, d, m, s)
  {
    var t', p := ProcessEntry(t, e, src, oif, now), PrefixOf(e);
    EntryPrefixIsMasked(e);
    if t' != t {
      var r := t'.rip[p];
      RemovedGet(t.fib, p.net, p.mask, SOURCE_RIP, d, m, s);
      AddedGet(t.fib, FibRoute(p, r), d, m, s);
    }
  }

  lemma {:induction false} ResponseKeepsAgree(t: Tables, es: seq<RipEntry>, src: uint32, oif: nat, now: int)
    requires Agree(t)
    ensures var t' := ProcessEntries(t, es, src, oif, now);
            && Agree(t')
            && forall d: uint32, m: byte, s: byte :: s != SOURCE_RIP ==> Get(t'.fib, d, m, s) == Get(t.fib, d, m, s)
  {
    if es != [] {
      var front, last := es[..|es| - 1], es[|es| - 1];
      ResponseKeepsAgree(t, front, src, oif, now);
      var u := ProcessEntries(t, front, src, oif, now);
      EntryKeepsAgree(u, last, src, oif, now);
      forall d: uint32, m: byte, s: byte | s != SOURCE_RIP {
        EntryKeepsOthers(u, last, src, oif, now, d, m, s);
      }
    }
  }

  /** Timing out and collecting keep the agreement, in whatever order the routes are visited. */
  lemma {:induction false} CheckKeepsAgree(t: Tables, fib': seq<Route>, now: int)
    requires Agree(t) && RipRoutesRemoved(t.fib, fib', TimingOut(t.rip, now))
    ensures Agree(Tables(Checked(t.rip, now), fib'))
  {
    var rip' := Checked(t.rip, now);
    forall k: Prefix
      ensures Get(fib', k.net, k.mask, SOURCE_RIP) == if k in rip' && !rip'[k].expired then Some(FibRoute(k, rip'[k])) else None
    {
      assert Prefix(k.net, k.mask) == k;
      assert Get(t.fib, k.net, k.mask, SOURCE_RIP) == if k in t.rip && !t.rip[k].expired then Some(FibRoute(k, t.rip[k])) else None;
    }
  }

  lemma {:induction false} StopKeepsAgree(t: Tables)
    requires Agree(t)
    ensures Agree(Tables(map[], WithoutSource(t.fib, SOURCE_RIP)))
  {
    WithoutSourceIs(t.fib, SOURCE_RIP);
    forall k: Prefix {
      WithoutSourceGet(t.fib, SOURCE_RIP, k.net, k.mask, SOURCE_RIP);
    }
  }

  // ----- What advertisements say -----

  /** The learned routes are read first and the forwarding table later: a prefix that has expired when the second reading is
      made is missing from the advertisement exactly if no route for it is left by then and it had not expired at the first. */
  lemma {:induction false} MissedExactly(rip: map<Prefix, RipRoute>, t: Tables, routes: seq<Route>, k: Prefix)
    requires Agree(t) && IsAdvertisement(Tables(rip, t.fib), routes) && k in t.rip && t.rip[k].expired
    ensures (forall i :: 0 <= i < |routes| ==> Prefix(routes[i].dest, routes[i].mask) != k)
       <==> !Covered(t.fib, k) && !(k in rip && rip[k].expired)
  {
    if Covered(t.fib, k) {
      var i :| 0 <= i < |t.fib| && t.fib[i].dest == k.net && t.fib[i].mask == k.mask;
      assert routes[..|t.fib|][i] == routes[i];
      assert Prefix(routes[i].dest, routes[i].mask) == k;
    } else if k in rip && rip[k].expired {
      var i :| |t.fib| <= i < |routes| && routes[i] == Poison(k, rip[k]);
      assert Prefix(routes[i].dest, routes[i].mask) == k;
    } else {
      forall i | 0 <= i < |routes| ensures Prefix(routes[i].dest, routes[i].mask) != k {
        if i < |t.fib| {
          assert routes[..|t.fib|][i] == t.fib[i];
        }
      }
    }
  }

  /** Every expired prefix is advertised as unreachable, unless another source still has a route for it: when nothing happens
      between the two readings. */
  lemma {:induction false} ExpiredIsPoisoned(t: Tables, routes: seq<Route>, k: Prefix, outgoing: nat)
    requires Agree(t) && IsAdvertisement(t, routes) && k in t.rip && t.rip[k].expired
    ensures exists i :: 0 <= i < |routes| && routes[i].dest == k.net && routes[i].mask == k.mask
                        && (EntryFor(routes[i], outgoing).metric == MAX_METRIC || routes[i].source != SOURCE_RIP)
  {
    if Covered(t.fib, k) {
      var i :| 0 <= i < |t.fib| && t.fib[i].dest == k.net && t.fib[i].mask == k.mask;
      GetIs(t.fib, i);
      assert Get(t.fib, k.net, k.mask, SOURCE_RIP) == None;
      assert routes[..|t.fib|][i] == routes[i];
    } else {
      var i :| |t.fib| <= i < |routes| && routes[i] == Poison(k, t.rip[k]);
    }
  }

  /** The receiver computes the prefix that the sender advertised. */
  lemma {:induction false} PrefixSurvivesTheWire(r: Route, outgoing: nat)
    requires r.mask <= 32 && Network(r.dest, r.mask) == r.dest
    ensures PrefixOf(EntryFor(r, outgoing)) == Prefix(r.dest, r.mask)
  {
    MaskRoundTrip(r.mask);
  }

  /** What is sent for a route: its prefix and mask, and 16 over the interface it was learned on; over any other one its metric,
      at most 16, with a zero counted as one unless the network is connected. */
  lemma EntrySays(r: Route, outgoing: nat)
    requires r.mask <= 32
    ensures var e := EntryFor(r, outgoing);
            && e.family == 2 && e.tag == 0 && e.address == r.dest && e.nextHop == 0
            && e.subnet == 0x1_0000_0000 - Power(32 - r.mask)
            && e.metric == if r.source == 120 && r.oif == outgoing then 16
                           else if r.metric > 16 then 16
                           else if r.metric == 0 && r.source != 0 then 1
                           else r.metric
  {
    MaskIs(r.mask);
  }

  /** So a route sent over another interface reaches a router that knew none for its prefix as one hop more, if that is in
      reach, and is used there. */
  lemma AdvertisedIsLearned(r: Route, outgoing: nat, t: Tables, src: uint32, oif: nat, now: int, metric: nat)
    requires r.mask <= 32 && Network(r.dest, r.mask) == r.dest && !(r.source == 120 && r.oif == outgoing)
    requires Agree(t) && Prefix(r.dest, r.mask) !in t.rip
    requires metric == (if r.metric == 0 && r.source != 0 then 1 else r.metric) + 1 && metric < 16
    ensures Get(ProcessEntry(t, EntryFor(r, outgoing), src, oif, now).fib, r.dest, r.mask, 120)
         == Some(Route(r.dest, r.mask, Some(src), oif, 120, metric, 120))
  {
    EntrySays(r, outgoing);
    PrefixSurvivesTheWire(r, outgoing);
    EntryOutcome(t, EntryFor(r, outgoing), src, oif, now);
  }

  /** Split horizon: what is sent back over the interface it was learned on is never installed from that entry; at
      most it expires the receiver's own route. */
  lemma {:induction false} SplitHorizonInstallsNothing(t: Tables, r: Route, outgoing: nat, src: uint32, oif: nat, now: int)
    requires r.source == SOURCE_RIP && r.oif == outgoing
    ensures var t' := ProcessEntry(t, EntryFor(r, outgoing), src, oif, now);
            && t'.rip.Keys == t.rip.Keys
            && forall k :: k in t.rip ==> t'.rip[k] == t.rip[k] || (t'.rip[k].expired && t'.rip[k].metric == MAX_METRIC)
  {
  }

  // ----- The daemon -----

  class RipState {
    var enabled: bool
    var routes: map<Prefix, RipRoute>
    const fib: RoutingTable

    constructor (fib: RoutingTable)
      ensures !enabled && routes == map[] && this.fib == fib
    {
      enabled, routes, this.fib := false, map[], fib;
    }

    function Now(): Tables
      reads this, fib
    {
      Tables(routes, fib.routes)
    }

    /** A packet that nothing comes between: the enabled flag is read in one locked section, a response applied in the next. */
    method ProcessRIPPacket(command: byte, entries: seq<RipEntry>, src: uint32, recv: nat, now: int)
      requires Agree(Now())
      modifies this, fib
      ensures Now() == if enabled && command == RESPONSE then ProcessEntries(old(Now()), entries, src, recv, now) else old(Now())
      ensures enabled == old(enabled) && Agree(Now())
    {
      if !enabled {
        return;
      }
      if command == RESPONSE {
        ResponseKeepsAgree(Now(), entries, src, recv, now);
        ApplyResponse(entries, src, recv, now);
      }
    }

    /** The locked loop over the entries, whatever the two stores hold by then. */
    method ApplyResponse(entries: seq<RipEntry>, src: uint32, recv: nat, now: int)
      modifies this, fib
      ensures Now() == ProcessEntries(old(Now()), entries, src, recv, now) && enabled == old(enabled)
    {
      var i := 0;
      while i < |entries|
        invariant 0 <= i <= |entries| && enabled == old(enabled)
        invariant Now() == ProcessEntries(old(Now()), entries[..i], src, recv, now)
      {
        assert entries[..i + 1][..i] == entries[..i];
        ApplyEntry(entries[i], src, recv, now);
        i := i + 1;
      }
      assert entries[..i] == entries;
    }

    /** One iteration of the loop over the entries. */
    method ApplyEntry(e: RipEntry, src: uint32, recv: nat, now: int)
      modifies this, fib
      ensures Now() == ProcessEntry(old(Now()), e, src, recv, now) && enabled == old(enabled)
    {
      if e.family != AF_IP {
        return;
      }
      var bits := SubnetMaskToMaskBits(e.subnet);
      var key := Prefix(Network(e.address, bits), bits);
      var metric := Add32(e.metric, 1);
      if metric > MAX_METRIC {
        metric := MAX_METRIC;
      }
      assert key == PrefixOf(e) && metric == LearnedMetric(e.metric);
      if metric < MAX_METRIC && (key !in routes || metric < routes[key].metric) {
        routes := routes[key := RipRoute(src, recv, metric, now, false, None)];
        var _ := fib.AddRouteWithParams(key.net, bits, Some(src), recv, SOURCE_RIP, SOURCE_RIP, metric);
      } else if key in routes && src == routes[key].nextHop {
        var r := routes[key];
        var wasExpired := r.expired;
        r := r.(metric := metric, lastUpdate := now, expired := metric >= MAX_METRIC, oif := recv);
        if r.expired && !wasExpired {
          r := r.(expiredAt := Some(now));
        } else if !r.expired {
          r := r.(expiredAt := None);
        }
        routes := routes[key := r];
        if r.expired {
          var _ := fib.DeleteRouteFromSource(key.net, bits, SOURCE_RIP);
        } else {
          var _ := fib.AddRouteWithParams(key.net, bits, Some(src), recv, SOURCE_RIP, SOURCE_RIP, metric);
        }
      }
    }

    /** Expires routes not updated for three minutes and forgets those expired for two; the visiting order is arbitrary. */
    method CheckExpiredRoutes(now: int)
      requires Agree(Now())
      modifies this, fib
      ensures routes == Checked(old(routes), now)
      ensures RipRoutesRemoved(old(fib.routes), fib.routes, TimingOut(old(routes), now))
      ensures enabled == old(enabled) && Agree(Now())
    {
      var collect := ExpireOverdue(now);
      CheckKeepsAgree(old(Now()), fib.routes, now);
      CheckedIs(old(routes), routes, collect, now);
      Forget(collect);
    }

    /** The second pass. */
    method Forget(keys: set<Prefix>)
      modifies this`routes
      ensures routes == old(routes) - keys
    {
      var todo := keys;
      while todo != {}
        invariant todo <= keys && routes == old(routes) - (keys - todo)
        decreases |todo|
      {
        var k :| k in todo;
        todo := todo - {k};
        routes := routes - {k};
      }
    }

    /** The first pass: ages every route and picks those to forget. */
    method ExpireOverdue(now: int) returns (collect: set<Prefix>)
      requires Valid(fib.routes) && forall k :: k in routes ==> RipRouteOk(k, routes[k])
      modifies this, fib
      ensures routes.Keys == old(routes).Keys && forall k :: k in routes ==> routes[k] == Aged(old(routes)[k], now)
      ensures forall k :: k in collect <==> k in routes && Collected(routes[k], now)
      ensures RipRoutesRemoved(old(fib.routes), fib.routes, TimingOut(old(routes), now))
      ensures enabled == old(enabled)
    {
      var todo := routes.Keys;
      collect := {};
      ghost var was, gone := routes, {};
      while todo != {}
        invariant Halfway(was, routes, todo, collect, gone, now) && enabled == old(enabled)
        invariant RipRoutesRemoved(old(fib.routes), fib.routes, gone)
        decreases |todo|
      {
        var k :| k in todo;
        HalfwayStep(was, routes, todo, collect, gone, now, k);
        RemoveOneMore(old(fib.routes), fib.routes, gone, k);
        var forget := AgeRoute(k, now);
        todo := todo - {k};
        if forget {
          collect := collect + {k};
        }
        if TimesOut(was[k], now) {
          gone := gone + {k};
        }
      }
      assert gone == TimingOut(was, now);
    }

    /** One iteration of the first pass. */
    method AgeRoute(k: Prefix, now: int) returns (forget: bool)
      requires k in routes
      modifies this, fib
      ensures routes == old(routes)[k := Aged(old(routes)[k], now)] && enabled == old(enabled)
      ensures fib.routes == if TimesOut(old(routes)[k], now) then Removed(old(fib.routes), k.net, k.mask, SOURCE_RIP) else old(fib.routes)
      ensures forget == Collected(routes[k], now)
    {
      var r := routes[k];
      if now - r.lastUpdate > TIMEOUT && !r.expired {
        r := r.(expired := true, metric := MAX_METRIC, expiredAt := Some(now));
        routes := routes[k := r];
        var _ := fib.DeleteRouteFromSource(k.net, k.mask, SOURCE_RIP);
      }
      assert routes == old(routes)[k := r];
      forget := r.expired && r.expiredAt.Some? && now - r.expiredAt.value > GARBAGE_COLLECT;
    }

    /** A stop that nothing comes between. */
    method StopRIP()
      requires Agree(Now())
      modifies this, fib
      ensures old(enabled) ==> !enabled && routes == map[] && fib.routes == WithoutSource(old(fib.routes), SOURCE_RIP)
      ensures old(enabled) ==> forall r :: r in fib.routes <==> r in old(fib.routes) && r.source != SOURCE_RIP
      ensures !old(enabled) ==> !enabled && Now() == old(Now())
      ensures Agree(Now())
    {
      var stops := BeginStop();
      if !stops {
        return;
      }
      StopKeepsAgree(Now());
      WithoutSourceIs(fib.routes, SOURCE_RIP);
      FlushRoutes();
      ForgetRoutes();
    }

    /** The first locked section of a stop. */
    method BeginStop() returns (stops: bool)
      modifies this`enabled
      ensures stops == old(enabled) && !enabled
    {
      stops := enabled;
      enabled := false;
    }

    /** The second, once the daemon has ended: it takes the forwarding table's lock, not that of the learned routes. */
    method FlushRoutes()
      modifies fib
      ensures Now() == Tables(old(routes), WithoutSource(old(fib.routes), SOURCE_RIP))
    {
      var _ := fib.DeleteRouteBySource(SOURCE_RIP);
    }

    /** The third. */
    method ForgetRoutes()
      modifies this`routes
      ensures Now() == Tables(map[], old(fib.routes))
    {
      routes := map[];
    }

    /** An advertisement for which nothing comes between the two readings. */
    method RoutesForAdvertisement() returns (advertised: seq<Route>)
      ensures IsAdvertisement(Now(), advertised)
    {
      var poisoned := ReadPoisons();
      advertised := Advertise(poisoned, routes);
    }

    /** The first reading: the learned routes, under their lock. */
    method ReadPoisons() returns (poisoned: seq<Route>)
      ensures ArePoisons(routes, poisoned)
    {
      poisoned := [];
      var todo := routes.Keys;
      while todo != {}
        invariant todo <= routes.Keys && ArePoisons(routes - todo, poisoned)
        decreases |todo|
      {
        var k :| k in todo;
        PoisonOneMore(routes, todo, k, poisoned);
        if routes[k].expired {
          poisoned := poisoned + [Poison(k, routes[k])];
        }
        todo := todo - {k};
      }
      assert routes - todo == routes;
    }

    /** The second reading: the forwarding table, and after it the poisons that it does not cover. */
    method Advertise(poisoned: seq<Route>, ghost rip: map<Prefix, RipRoute>) returns (advertised: seq<Route>)
      requires ArePoisons(rip, poisoned)
      ensures IsAdvertisement(Tables(rip, fib.routes), advertised)
    {
      advertised := fib.routes;
      var covered := {};
      var i := 0;
      while i < |fib.routes|
        invariant 0 <= i <= |fib.routes|
        invariant forall k: Prefix :: k in covered <==> Covered(fib.routes[..i], k)
      {
        CoveredOneMore(fib.routes, i);
        covered := covered + {Prefix(fib.routes[i].dest, fib.routes[i].mask)};
        i := i + 1;
      }
      assert fib.routes[..i] == fib.routes;
      i := 0;
      while i < |poisoned|
        invariant 0 <= i <= |poisoned| && advertised == fib.routes + Uncovered(fib.routes, poisoned[..i])
      {
        assert poisoned[..i + 1][..i] == poisoned[..i];
        if Prefix(poisoned[i].dest, poisoned[i].mask) !in covered {
          advertised := advertised + [poisoned[i]];
        }
        i := i + 1;
      }
      assert poisoned[..i] == poisoned;
      UncoveredAdvertises(rip, fib.routes, poisoned);
    }

    static method BuildRIPResponse(advertised: seq<Route>, outgoing: nat) returns (entries: seq<RipEntry>)
      ensures |entries| == |advertised| && forall i :: 0 <= i < |entries| ==> entries[i] == EntryFor(advertised[i], outgoing)
    {
      entries := [];
      var i := 0;
      while i < |advertised|
        invariant 0 <= i <= |advertised| && |entries| == i
        invariant forall j :: 0 <= j < i ==> entries[j] == EntryFor(advertised[j], outgoing)
      {
        var r := advertised[i];
        var subnet: uint32 := if 0 < r.mask <= 32 then SubnetMask(r.mask) else 0;
        if r.mask == 0 {
          MaskRoundTrip(0);
        }
        var metric := r.metric;
        if r.source != SOURCE_CONNECTED && metric == 0 {
          metric := 1;
        }
        if r.source == SOURCE_RIP && r.oif == outgoing {
          metric := MAX_METRIC;
        }
        if metric > MAX_METRIC {
          metric := MAX_METRIC;
        }
        entries := entries + [RipEntry(AF_IP, 0, r.dest, subnet, 0, metric)];
        i := i + 1;
      }
    }
  }

  lemma {:induction false} CheckedIs(was: map<Prefix, RipRoute>, aged: map<Prefix, RipRoute>, gone: set<Prefix>, now: int)
    requires aged.Keys == was.Keys && forall k :: k in aged ==> aged[k] == Aged(was[k], now)
    requires forall k :: k in gone <==> k in aged && Collected(aged[k], now)
    ensures aged - gone == Checked(was, now)
  {
    assert (aged - gone).Keys == Checked(was, now).Keys;
  }

  /** The first pass when todo is still to be visited. */
  ghost predicate Halfway(was: map<Prefix, RipRoute>, rip: map<Prefix, RipRoute>, todo: set<Prefix>, collect: set<Prefix>,
                          gone: set<Prefix>, now: int)
  {
    && todo <= was.Keys && rip.Keys == was.Keys
    && (forall k :: k in was ==> RipRouteOk(k, was[k]))
    && (forall k :: k in was ==> rip[k] == if k in todo then was[k] else Aged(was[k], now))
    && (forall k :: k in collect <==> k in was && k !in todo && Collected(rip[k], now))
    && (forall k :: k in gone <==> k in was && k !in todo && TimesOut(was[k], now))
  }

  lemma {:induction false} HalfwayStep(was: map<Prefix, RipRoute>, rip: map<Prefix, RipRoute>, todo: set<Prefix>, collect: set<Prefix>,
                                       gone: set<Prefix>, now: int, k: Prefix)
    requires Halfway(was, rip, todo, collect, gone, now) && k in todo
    ensures k in rip && rip[k] == was[k] && RipRouteOk(k, rip[k])
    ensures var rip' := rip[k := Aged(rip[k], now)];
            Halfway(was, rip', todo - {k}, if Collected(rip'[k], now) then collect + {k} else collect,
                    if TimesOut(was[k], now) then gone + {k} else gone, now)
  {
  }

  lemma {:induction false} RemoveOneMore(fib: seq<Route>, now: seq<Route>, gone: set<Prefix>, k: Prefix)
    requires RipRoutesRemoved(fib, now, gone) && k.mask <= 32 && Network(k.net, k.mask) == k.net
    ensures RipRoutesRemoved(fib, Removed(now, k.net, k.mask, SOURCE_RIP), gone + {k})
  {
    RemovedIsValid(now, k.net, k.mask, SOURCE_RIP);
    forall d: uint32, m: byte, s: byte {
      RemovedGet(now, k.net, k.mask, SOURCE_RIP, d, m, s);
    }
  }

  lemma {:induction false} CoveredOneMore(fib: seq<Route>, i: nat)
    requires i < |fib|
    ensures forall k: Prefix :: Covered(fib[..i + 1], k) <==> Covered(fib[..i], k) || k == Prefix(fib[i].dest, fib[i].mask)
  {
    forall k: Prefix
      ensures Covered(fib[..i + 1], k) <==> Covered(fib[..i], k) || k == Prefix(fib[i].dest, fib[i].mask)
    {
      assert fib[..i + 1] == fib[..i] + [fib[i]];
      if Covered(fib[..i], k) {
        var j :| 0 <= j < i && fib[..i][j].dest == k.net && fib[..i][j].mask == k.mask;
        assert fib[..i + 1][j] == fib[j];
      }
      if k == Prefix(fib[i].dest, fib[i].mask) {
        assert fib[..i + 1][i].dest == k.net;
      }
    }
  }

  lemma {:induction false} PoisonOneMore(rip: map<Prefix, RipRoute>, todo: set<Prefix>, k: Prefix, ps: seq<Route>)
    requires k in todo && todo <= rip.Keys && ArePoisons(rip - todo, ps)
    ensures ArePoisons(rip - (todo - {k}), if rip[k].expired then ps + [Poison(k, rip[k])] else ps)
  {
    var was, now := rip - todo, rip - (todo - {k});
    assert forall x :: x in now <==> x == k || x in was;
    assert forall x :: x in was ==> was[x] == now[x];
    if !rip[k].expired {
      forall x | x in now && now[x].expired ensures exists i :: 0 <= i < |ps| && ps[i] == Poison(x, now[x]) {
        assert x in was && was[x] == now[x];
      }
    } else {
      var all := ps + [Poison(k, rip[k])];
      forall i | 0 <= i < |all|
        ensures var x := Prefix(all[i].dest, all[i].mask); x in now && now[x].expired && all[i] == Poison(x, now[x])
      {
        assert i < |ps| ==> all[i] == ps[i];
      }
      forall x | x in now && now[x].expired ensures exists i :: 0 <= i < |all| && all[i] == Poison(x, now[x]) {
        if x == k {
          assert all[|ps|] == Poison(x, now[x]);
        } else {
          var i :| 0 <= i < |ps| && ps[i] == Poison(x, was[x]);
          assert all[i] == ps[i];
        }
      }
    }
  }

  function Uncovered(fib: seq<Route>, ps: seq<Route>): seq<Route> {
    if ps == [] then []
    else
      var p := ps[|ps| - 1];
      if Covered(fib, Prefix(p.dest, p.mask)) then Uncovered(fib, ps[..|ps| - 1]) else Uncovered(fib, ps[..|ps| - 1]) + [p]
  }

  lemma {:induction false} UncoveredIs(fib: seq<Route>, ps: seq<Route>)
    requires forall i, j :: 0 <= i < j < |ps| ==> Prefix(ps[i].dest, ps[i].mask) != Prefix(ps[j].dest, ps[j].mask)
    ensures var us := Uncovered(fib, ps);
            && (forall p :: p in us <==> p in ps && !Covered(fib, Prefix(p.dest, p.mask)))
            && (forall i, j :: 0 <= i < j < |us| ==> Prefix(us[i].dest, us[i].mask) != Prefix(us[j].dest, us[j].mask))
  {
    if ps != [] {
      var front, last := ps[..|ps| - 1], ps[|ps| - 1];
      assert ps == front + [last];
      UncoveredIs(fib, front);
      var us := Uncovered(fib, front);
      forall i | 0 <= i < |us| ensures Prefix(us[i].dest, us[i].mask) != Prefix(last.dest, last.mask) {
        assert us[i] in front;
      }
    }
  }

  lemma {:induction false} UncoveredAdvertises(rip: map<Prefix, RipRoute>, fib: seq<Route>, ps: seq<Route>)
    requires ArePoisons(rip, ps)
    ensures IsAdvertisement(Tables(rip, fib), fib + Uncovered(fib, ps))
  {
    var us := Uncovered(fib, ps);
    var all := fib + us;
    UncoveredIs(fib, ps);
    assert all[..|fib|] == fib;
    forall i | |fib| <= i < |all|
      ensures var k := Prefix(all[i].dest, all[i].mask);
              k in rip && rip[k].expired && !Covered(fib, k) && all[i] == Poison(k, rip[k])
    {
      assert all[i] == us[i - |fib|] && us[i - |fib|] in us;
    }
    forall k | k in rip && rip[k].expired && !Covered(fib, k) ensures exists i :: |fib| <= i < |all| && all[i] == Poison(k, rip[k]) {
      var i :| 0 <= i < |ps| && ps[i] == Poison(k, rip[k]);
      assert ps[i] in us;
      var j :| 0 <= j < |us| && us[j] == ps[i];
      assert all[|fib| + j] == us[j];
    }
  }
}
