/** The IPv4 routing table: adding, swap-deleting and looking up the longest matching prefix. */
module RoutingTables {
  import opened Bytes
  import opened Wrappers

  const SOURCE_CONNECTED: byte := 0
  const SOURCE_RIP: byte := 120

  /** A route is direct when it has no gateway. Interfaces are numbered; addresses are 32-bit numbers. */
  datatype Route = Route(
    dest: uint32, mask: byte, gateway: Option<uint32>, oif: nat, adminDistance: byte, metric: uint32, source: byte)

  /** The number with its n low bits cleared. */
  function ClearLow(x: nat, n: nat): (r: nat)
    ensures r <= x
  {
    if n == 0 then x else 2 * ClearLow(x / 2, n - 1)
  }

  /** The address with everything after the first mask bits cleared. */
  function Network(ip: uint32, mask: byte): uint32
    requires mask <= 32
  {
    ClearLow(ip, 32 - mask)
  }

  lemma {:induction false} ClearingTwice(x: nat, n: nat)
    ensures ClearLow(ClearLow(x, n), n) == ClearLow(x, n)
  {
    if n > 0 {
      ClearingTwice(x / 2, n - 1);
    }
  }

  lemma {:induction false} NetworkIsMasked(ip: uint32, mask: byte)
    requires mask <= 32
    ensures Network(Network(ip, mask), mask) == Network(ip, mask)
  {
    ClearingTwice(ip, 32 - mask);
  }

  lemma DoublingBoth(y: nat, p: nat, q: nat, r: nat)
    requires y == q * p + r
    ensures 2 * y == q * (2 * p) + 2 * r && 2 * (q * p) == q * (2 * p)
  {
  }

  lemma HalvedQuotient(x: nat, p: nat)
    requires p > 0
    ensures x / (2 * p) == x / 2 / p
  {
    var y := x / 2;
    DoublingBoth(y, p, y / p, y % p);
    QuotientIs(x, 2 * p, y / p, 2 * (y % p) + x % 2);
  }

  function Floor(x: nat, p: nat): nat
    requires p > 0
  {
    x / p * p
  }

  lemma FloorDoubles(x: nat, p: nat)
    requires p > 0
    ensures Floor(x, 2 * p) == 2 * Floor(x / 2, p)
  {
    HalvedQuotient(x, p);
    DoublingBoth(x / 2, p, x / 2 / p, x / 2 % p);
  }

  lemma {:induction false} ClearLowIs(x: nat, n: nat)
    ensures ClearLow(x, n) == Floor(x, Power(n))
  {
    if n > 0 {
      ClearLowIs(x / 2, n - 1);
      FloorDoubles(x, Power(n - 1));
    }
  }

  /** Masking takes the address down to a multiple of the size of its prefix. */
  lemma NetworkIsFloor(ip: uint32, mask: byte)
    requires mask <= 32
    ensures Network(ip, mask) == ip / Power(32 - mask) * Power(32 - mask)
    ensures Network(ip, mask) <= ip < Network(ip, mask) + Power(32 - mask)
  {
    ClearLowIs(ip, 32 - mask);
  }

  /** So two addresses are in the same network exactly if their first mask bits agree. */
  lemma SameNetwork(a: uint32, b: uint32, mask: byte)
    requires mask <= 32
    ensures Network(a, mask) == Network(b, mask) <==> a / Power(32 - mask) == b / Power(32 - mask)
  {
    var p: nat := Power(32 - mask);
    NetworkIsFloor(a, mask);
    NetworkIsFloor(b, mask);
    QuotientIs(a / p * p, p, a / p, 0);
    QuotientIs(b / p * p, p, b / p, 0);
  }

  predicate Same(r: Route, dest: uint32, mask: byte, source: byte) {
    r.dest == dest && r.mask == mask && r.source == source
  }

  /** One route per network, mask and source; destinations are stored masked. */
  predicate Valid(rs: seq<Route>) {
    && (forall i :: 0 <= i < |rs| ==> rs[i].mask <= 32 && Network(rs[i].dest, rs[i].mask) == rs[i].dest)
    && (forall i, j :: 0 <= i < j < |rs| ==> !Same(rs[i], rs[j].dest, rs[j].mask, rs[j].source))
  }

  function IndexOf(rs: seq<Route>, dest: uint32, mask: byte, source: byte): (r: Option<nat>)
    ensures r == None ==> forall i :: 0 <= i < |rs| ==> !Same(rs[i], dest, mask, source)
    ensures r.Some? ==> r.value < |rs| && Same(rs[r.value], dest, mask, source)
                        && forall i :: 0 <= i < r.value ==> !Same(rs[i], dest, mask, source)
  {
    if rs == [] then None
    else if Same(rs[0], dest, mask, source) then Some(0)
    else
      var r := IndexOf(rs[1..], dest, mask, source);
      if r == None then None
      else
        assert rs[1..][r.value] == rs[r.value + 1];
        Some(r.value + 1)
  }

  function Get(rs: seq<Route>, dest: uint32, mask: byte, source: byte): Option<Route> {
    match IndexOf(rs, dest, mask, source) case None => None case Some(i) => Some(rs[i])
  }

  function Added(rs: seq<Route>, r: Route): seq<Route> {
    if r.mask > 32 then rs
    else
      var masked := r.(dest := Network(r.dest, r.mask));
      match IndexOf(rs, masked.dest, masked.mask, masked.source)
      case None => rs + [masked]
      case Some(i) => rs[i := masked]
  }

  function Removed(rs: seq<Route>, dest: uint32, mask: byte, source: byte): seq<Route> {
    if mask > 32 then rs
    else
      match IndexOf(rs, Network(dest, mask), mask, source)
      case None => rs
      case Some(i) => rs[i := rs[|rs| - 1]][..|rs| - 1]
  }

  function WithoutSource(rs: seq<Route>, source: byte): seq<Route> {
    if rs == [] then []
    else if rs[|rs| - 1].source == source then WithoutSource(rs[..|rs| - 1], source)
    else WithoutSource(rs[..|rs| - 1], source) + [rs[|rs| - 1]]
  }

  // ----- The table as a map from network, mask and source to route -----

  lemma {:induction false} GetIs(rs: seq<Route>, i: nat)
    requires Valid(rs) && i < |rs|
    ensures Get(rs, rs[i].dest, rs[i].mask, rs[i].source) == Some(rs[i])
  {
    var found := IndexOf(rs, rs[i].dest, rs[i].mask, rs[i].source);
    assert found.Some?;
  }

  lemma {:induction false} AddedIsValid(rs: seq<Route>, r: Route)
    requires Valid(rs)
    ensures Valid(Added(rs, r))
  {
    if r.mask <= 32 {
      NetworkIsMasked(r.dest, r.mask);
    }
  }

  /** Adding writes one key, the masked one, and no other. */
  lemma {:induction false} AddedGet(rs: seq<Route>, r: Route, dest: uint32, mask: byte, source: byte)
    requires Valid(rs) && r.mask <= 32
    ensures Get(Added(rs, r), dest, mask, source) ==
            if Same(r.(dest := Network(r.dest, r.mask)), dest, mask, source) then Some(r.(dest := Network(r.dest, r.mask)))
            else Get(rs, dest, mask, source)
  {
    var masked := r.(dest := Network(r.dest, r.mask));
    var rs' := Added(rs, r);
    AddedIsValid(rs, r);
    if Same(masked, dest, mask, source) {
      var found := IndexOf(rs, masked.dest, mask, source);
      GetIs(rs', if found == None then |rs| else found.value);
    } else {
      match IndexOf(rs, dest, mask, source)
      case Some(i) => assert rs'[i] == rs[i]; GetIs(rs', i);
      case None =>
        forall i | 0 <= i < |rs'| ensures !Same(rs'[i], dest, mask, source) {
        }
    }
  }

  lemma {:induction false} RemovedIsValid(rs: seq<Route>, dest: uint32, mask: byte, source: byte)
    requires Valid(rs)
    ensures Valid(Removed(rs, dest, mask, source))
  {
  }

  /** Swap-deletion takes out one key, the masked one, and no other, although it moves the last route. */
  lemma {:induction false} RemovedGet(rs: seq<Route>, dest: uint32, mask: byte, source: byte, d: uint32, m: byte, s: byte)
    requires Valid(rs) && mask <= 32
    ensures Get(Removed(rs, dest, mask, source), d, m, s) ==
            if d == Network(dest, mask) && m == mask && s == source then None else Get(rs, d, m, s)
  {
    var rs' := Removed(rs, dest, mask, source);
    RemovedIsValid(rs, dest, mask, source);
    var hit := IndexOf(rs, Network(dest, mask), mask, source);
    if hit.Some? {
      var n := |rs| - 1;
      assert forall i :: 0 <= i < n ==> rs'[i] == if i == hit.value then rs[n] else rs[i];
      if d == Network(dest, mask) && m == mask && s == source {
        forall i | 0 <= i < |rs'| ensures !Same(rs'[i], d, m, s) {
          var j := if i == hit.value then n else i;
          assert rs'[i] == rs[j] && j != hit.value;
        }
      } else {
        match IndexOf(rs, d, m, s)
        case Some(i) =>
          GetIs(rs, i);
          GetIs(rs', if i == n then hit.value else i);
        case None =>
          forall i | 0 <= i < |rs'| ensures !Same(rs'[i], d, m, s) {
            assert rs'[i] == rs[if i == hit.value then n else i];
          }
      }
    }
  }

  lemma {:induction false} WithoutSourceIs(rs: seq<Route>, source: byte)
    requires Valid(rs)
    ensures Valid(WithoutSource(rs, source))
    ensures forall r :: r in WithoutSource(rs, source) <==> r in rs && r.source != source
  {
    if rs != [] {
      var front, last := rs[..|rs| - 1], rs[|rs| - 1];
      assert rs == front + [last];
      assert forall i :: 0 <= i < |front| ==> front[i] == rs[i];
      WithoutSourceIs(front, source);
      var ws := WithoutSource(front, source);
      if last.source != source {
        forall i | 0 <= i < |ws| ensures !Same(ws[i], last.dest, last.mask, last.source) {
          assert ws[i] in front;
        }
      }
    }
  }

  lemma {:induction false} WithoutSourceGet(rs: seq<Route>, source: byte, d: uint32, m: byte, s: byte)
    requires Valid(rs)
    ensures Get(WithoutSource(rs, source), d, m, s) == if s == source then None else Get(rs, d, m, s)
  {
    WithoutSourceIs(rs, source);
    var ws := WithoutSource(rs, source);
    if s != source {
      match IndexOf(rs, d, m, s)
      case Some(i) =>
        assert rs[i] in ws;
        var j :| 0 <= j < |ws| && ws[j] == rs[i];
        GetIs(ws, j);
      case None =>
        forall j | 0 <= j < |ws| ensures !Same(ws[j], d, m, s) {
          assert ws[j] in rs;
        }
    } else {
      forall j | 0 <= j < |ws| ensures !Same(ws[j], d, m, s) {
        assert ws[j] in ws;
      }
    }
  }

  // ----- Lookup -----

  predicate Matches(r: Route, ip: uint32) {
    r.mask <= 32 && Network(ip, r.mask) == r.dest
  }

  /** The addresses of the route's prefix, by number. */
  predicate Spans(r: Route, ip: uint32) {
    r.mask <= 32 && r.dest <= ip < r.dest + Power(32 - r.mask)
  }

  /** A stored route matches exactly the addresses from its destination on, as many as its prefix has. */
  lemma StoredMatchesSpan(r: Route, ip: uint32)
    requires r.mask <= 32 && Network(r.dest, r.mask) == r.dest
    ensures Matches(r, ip) <==> Spans(r, ip)
  {
    var p: nat := Power(32 - r.mask);
    NetworkIsFloor(ip, r.mask);
    NetworkIsFloor(r.dest, r.mask);
    if Spans(r, ip) {
      QuotientIs(ip, p, r.dest / p, ip - r.dest);
    }
  }

  lemma StoredMatchSpans(rs: seq<Route>, ip: uint32)
    requires Valid(rs)
    ensures forall i :: 0 <= i < |rs| ==> (Matches(rs[i], ip) <==> Spans(rs[i], ip))
  {
    forall i | 0 <= i < |rs| ensures Matches(rs[i], ip) <==> Spans(rs[i], ip) {
      StoredMatchesSpan(rs[i], ip);
    }
  }

  /** The order of preference: longer mask, then lower distance, then lower metric. */
  predicate Beats(a: Route, b: Route) {
    || a.mask > b.mask
    || (a.mask == b.mask && a.adminDistance < b.adminDistance)
    || (a.mask == b.mask && a.adminDistance == b.adminDistance && a.metric < b.metric)
  }

  /** The route at i is the choice: none beats it, and among equals it comes first. */
  ghost predicate IsChoice(rs: seq<Route>, ip: uint32, i: nat) {
    && i < |rs| && Matches(rs[i], ip)
    && (forall j :: 0 <= j < |rs| && Matches(rs[j], ip) ==> !Beats(rs[j], rs[i]))
    && (forall j :: 0 <= j < i && Matches(rs[j], ip) ==> Beats(rs[i], rs[j]))
  }

  lemma {:induction false} ChoiceIsUnique(rs: seq<Route>, ip: uint32, i: nat, j: nat)
    requires IsChoice(rs, ip, i) && IsChoice(rs, ip, j)
    ensures i == j
  {
    var a, b := rs[i], rs[j];
    assert !Beats(a, b) && !Beats(b, a);
  }

  /** The choice has the longest mask of all routes whose prefix has the address; among those the lowest distance, then the
      lowest metric, and then the first place in the table. */
  lemma ChoiceIsBest(rs: seq<Route>, ip: uint32, i: nat, j: nat)
    requires Valid(rs) && IsChoice(rs, ip, i) && j < |rs| && Spans(rs[j], ip)
    ensures Spans(rs[i], ip) && rs[j].mask <= rs[i].mask
    ensures rs[j].mask == rs[i].mask ==> rs[i].adminDistance <= rs[j].adminDistance
    ensures rs[j].mask == rs[i].mask && rs[j].adminDistance == rs[i].adminDistance ==> rs[i].metric <= rs[j].metric
    ensures rs[j].mask == rs[i].mask && rs[j].adminDistance == rs[i].adminDistance && rs[j].metric == rs[i].metric ==> i <= j
  {
    StoredMatchSpans(rs, ip);
  }

  class RoutingTable {
    var routes: seq<Route>

    constructor ()
      ensures routes == []
    {
      routes := [];
    }

    /** Masks the destination and updates the route with its key, or appends it. Fails only on a mask over 32. */
    method AddRouteWithParams(dest: uint32, mask: byte, gateway: Option<uint32>, oif: nat, source: byte, adminDistance: byte, metric: uint32)
      returns (ok: bool)
      modifies this
      ensures ok <==> mask <= 32
      ensures routes == Added(old(routes), Route(dest, mask, gateway, oif, adminDistance, metric, source))
    {
      if mask > 32 {
        return false;
      }
      var network := Network(dest, mask);
      var i := 0;
      while i < |routes|
        invariant 0 <= i <= |routes| && routes == old(routes)
        invariant forall j :: 0 <= j < i ==> !Same(routes[j], network, mask, source)
      {
        if routes[i].dest == network && routes[i].mask == mask && routes[i].source == source {
          assert IndexOf(routes, network, mask, source) == Some(i);
          routes := routes[i := routes[i].(gateway := gateway, oif := oif, adminDistance := adminDistance, metric := metric)];
          return true;
        }
        i := i + 1;
      }
      routes := routes + [Route(network, mask, gateway, oif, adminDistance, metric, source)];
      return true;
    }

    /** Overwrites the matching route with the last one and shortens the table. */
    method DeleteRouteFromSource(dest: uint32, mask: byte, source: byte) returns (ok: bool)
      modifies this
      ensures routes == Removed(old(routes), dest, mask, source)
      ensures ok <==> mask <= 32 && IndexOf(old(routes), Network(dest, mask), mask, source).Some?
    {
      if mask > 32 {
        return false;
      }
      var network := Network(dest, mask);
      var i := 0;
      while i < |routes|
        invariant 0 <= i <= |routes| && routes == old(routes)
        invariant forall j :: 0 <= j < i ==> !Same(routes[j], network, mask, source)
      {
        if routes[i].dest == network && routes[i].mask == mask && routes[i].source == source {
          assert IndexOf(routes, network, mask, source) == Some(i);
          routes := routes[i := routes[|routes| - 1]];
          routes := routes[..|routes| - 1];
          return true;
        }
        i := i + 1;
      }
      return false;
    }

    method DeleteRouteBySource(source: byte) returns (deleted: nat)
      modifies this
      ensures routes == WithoutSource(old(routes), source) && deleted == |old(routes)| - |routes|
    {
      deleted := 0;
      var i, kept := 0, [];
      while i < |routes|
        invariant 0 <= i <= |routes| && routes == old(routes)
        invariant kept == WithoutSource(routes[..i], source) && deleted == i - |kept|
      {
        assert routes[..i + 1][..i] == routes[..i];
        if routes[i].source == source {
          deleted := deleted + 1;
        } else {
          kept := kept + [routes[i]];
        }
        i := i + 1;
      }
      assert routes[..i] == routes;
      routes := kept;
    }

    /** The best matching route, or none exactly when the address lies in no stored prefix. */
    method LookupLPM(ip: uint32) returns (best: Option<Route>)
      ensures best == None <==> forall i :: 0 <= i < |routes| ==> !Matches(routes[i], ip)
      ensures Valid(routes) ==> (best == None <==> forall i :: 0 <= i < |routes| ==> !Spans(routes[i], ip))
      ensures best.Some? ==> exists i: nat :: IsChoice(routes, ip, i) && routes[i] == best.value
    {
      var bestIndex := -1;
      var longest: byte := 0;
      var i := 0;
      while i < |routes|
        invariant 0 <= i <= |routes| && -1 <= bestIndex < i
        invariant bestIndex == -1 ==> forall j :: 0 <= j < i ==> !Matches(routes[j], ip)
        invariant bestIndex >= 0 ==> IsChoice(routes[..i], ip, bestIndex) && longest == routes[bestIndex].mask
      {
        var route := routes[i];
        ghost var before := routes[..i];
        assert routes[..i + 1] == before + [route];
        if route.mask <= 32 && Network(ip, route.mask) == route.dest {
          if bestIndex == -1 || route.mask > longest {
            longest := route.mask;
            bestIndex := i;
          } else if route.mask == longest {
            if route.adminDistance < routes[bestIndex].adminDistance {
              bestIndex := i;
            } else if route.adminDistance == routes[bestIndex].adminDistance {
              if route.metric < routes[bestIndex].metric {
                bestIndex := i;
              }
            }
          }
        }
        i := i + 1;
      }
      assert routes[..i] == routes;
      if Valid(routes) {
        StoredMatchSpans(routes, ip);
      }
      if bestIndex == -1 {
        return None;
      }
      return Some(routes[bestIndex]);
    }
  }
}
