/** Bridges joined by point-to-point links, with BPDUs in flight: the steps of a run. */
module StpNetwork {
  import opened Bytes
  import opened StpBridge

  /** A port of a bridge, by index. */
  datatype Endpoint = Endpoint(bridge: nat, port: nat)

  /** The bridges, the links between their ports, and a bound on the cost of a port.
      A port without a peer faces hosts. */
  datatype Net = Net(bridges: seq<Config>, peer: map<Endpoint, Endpoint>, maxCost: nat)

  predicate IsEndpoint(net: Net, e: Endpoint) {
    e.bridge < |net.bridges| && e.port < |net.bridges[e.bridge].ports|
  }

  /** The product, by repeated addition. */
  function Times(n: nat, c: nat): nat {
    if n == 0 then 0 else c + Times(n - 1, c)
  }

  lemma {:induction false} TimesIsProduct(n: nat, c: nat)
    ensures Times(n, c) == n * c
  {
    if n > 0 {
      TimesIsProduct(n - 1, c);
    }
  }

  lemma {:induction false} TimesGrows(m: nat, n: nat, c: nat)
    requires m <= n
    ensures Times(m, c) <= Times(n, c)
  {
    if m < n {
      TimesGrows(m, n - 1, c);
    }
  }

  /** Links join two different bridges, identifiers are distinct, and path costs are
      positive and too small for a path to overflow 32 bits. */
  ghost predicate WellFormed(net: Net) {
    && (forall e :: e in net.peer ==>
          && IsEndpoint(net, e)
          && net.peer[e] in net.peer
          && net.peer[net.peer[e]] == e
          && net.peer[e].bridge != e.bridge)
    && (forall i, j :: 0 <= i < j < |net.bridges| ==> net.bridges[i].id != net.bridges[j].id)
    && (forall b, p :: 0 <= b < |net.bridges| && 0 <= p < |net.bridges[b].ports| ==>
          0 < net.bridges[b].ports[p].pathCost <= net.maxCost)
    && Times(|net.bridges|, net.maxCost) < TWO_32
  }

  function PathCost(net: Net, e: Endpoint): nat
    requires IsEndpoint(net, e)
  {
    net.bridges[e.bridge].ports[e.port].pathCost
  }

  datatype Frame = Frame(to: Endpoint, message: Message)

  datatype Fabric = Fabric(bridges: seq<Bridge>, frames: seq<Frame>)

  predicate Matches(net: Net, s: Fabric) {
    |s.bridges| == |net.bridges| && forall b :: 0 <= b < |s.bridges| ==> Fits(net.bridges[b], s.bridges[b])
  }

  /** Every bridge has just been started and nothing is in flight. */
  function Start(net: Net): (s: Fabric)
    ensures Matches(net, s)
  {
    Fabric(seq(|net.bridges|, b requires 0 <= b < |net.bridges| => Fresh(net.bridges[b])), [])
  }

  datatype Action =
    | Hello(bridge: nat)
    | Converge(bridge: nat)
    | Deliver(index: nat)
    | Lose(index: nat)
    | Promote(bridge: nat)
    | Advance(bridge: nat, port: nat)

  /** The frames that a bridge's BPDUs become: nothing is sent where no link is attached. */
  function Emit(net: Net, b: nat, out: seq<Outgoing>): (frames: seq<Frame>)
    ensures forall f :: f in frames ==>
              exists o :: o in out && Endpoint(b, o.port) in net.peer && f == Frame(net.peer[Endpoint(b, o.port)], o.message)
    ensures forall o :: o in out && Endpoint(b, o.port) in net.peer ==>
              Frame(net.peer[Endpoint(b, o.port)], o.message) in frames
  {
    if out == [] then []
    else
      var rest := Emit(net, b, out[1..]);
      if Endpoint(b, out[0].port) in net.peer
      then [Frame(net.peer[Endpoint(b, out[0].port)], out[0].message)] + rest
      else rest
  }

  function Without<T>(s: seq<T>, k: nat): seq<T>
    requires k < |s|
  {
    s[..k] + s[k + 1..]
  }

  /** promoteForwardingPorts on one port. */
  function PromotePort(p: Port): Port {
    if p.role == RoleRoot || p.role == RoleDesignated then p.(state := StateForwarding) else p
  }

  /** The forward delay of one listening or learning port runs out. */
  function AdvancePort(p: Port): Port {
    if p.state == StateListening then p.(state := StateLearning)
    else if p.state == StateLearning then p.(state := StateForwarding)
    else p
  }

  function PromoteAll(b: Bridge): Bridge {
    b.(ports := seq(|b.ports|, i requires 0 <= i < |b.ports| => PromotePort(b.ports[i])))
  }

  function AdvanceOne(b: Bridge, p: nat): Bridge
    requires p < |b.ports|
  {
    b.(ports := b.ports[p := AdvancePort(b.ports[p])])
  }

  /** Bridge b becomes r and sends out. */
  function Act(net: Net, s: Fabric, b: nat, r: Bridge, out: seq<Outgoing>): Fabric
    requires b < |s.bridges|
  {
    Fabric(s.bridges[b := r], s.frames + Emit(net, b, out))
  }

  /** One step of a run. An action that names nothing leaves the state as it is. */
  function Step(net: Net, s: Fabric, a: Action): (t: Fabric)
    requires Matches(net, s)
    ensures Matches(net, t)
  {
    match a
    case Hello(b) =>
      if b < |s.bridges|
      then Act(net, s, b, s.bridges[b], Collect(net.bridges[b], s.bridges[b], |s.bridges[b].ports|))
      else s
    case Converge(b) =>
      if b < |s.bridges| then
        var r := Recompute(net.bridges[b], s.bridges[b]);
        Act(net, s, b, r, Collect(net.bridges[b], r, |r.ports|))
      else s
    case Deliver(k) =>
      if k < |s.frames| && IsEndpoint(net, s.frames[k].to) then
        var f := s.frames[k];
        var b := f.to.bridge;
        Act(net, s.(frames := Without(s.frames, k)), b,
            Receive(net.bridges[b], s.bridges[b], f.to.port, f.message),
            Responses(net.bridges[b], s.bridges[b], f.to.port, f.message))
      else s
    case Lose(k) =>
      if k < |s.frames| then s.(frames := Without(s.frames, k)) else s
    case Promote(b) =>
      if b < |s.bridges| then s.(bridges := s.bridges[b := PromoteAll(s.bridges[b])]) else s
    case Advance(b, p) =>
      if b < |s.bridges| && p < |s.bridges[b].ports|
      then s.(bridges := s.bridges[b := AdvanceOne(s.bridges[b], p)])
      else s
  }

  /** The state after a sequence of actions. */
  function Exec(net: Net, s: Fabric, acts: seq<Action>): (t: Fabric)
    requires Matches(net, s)
    ensures Matches(net, t)
    decreases |acts|
  {
    if acts == [] then s else Exec(net, Step(net, s, acts[0]), acts[1..])
  }

  /** A loss takes the one frame out and changes nothing else; a frame that reaches its port is taken out as well. */
  lemma FramesAreTakenOut(net: Net, s: Fabric, k: nat)
    requires Matches(net, s) && k < |s.frames|
    ensures Step(net, s, Lose(k)) == Fabric(s.bridges, s.frames[..k] + s.frames[k + 1..])
    ensures IsEndpoint(net, s.frames[k].to) ==> s.frames[..k] + s.frames[k + 1..] <= Step(net, s, Deliver(k)).frames
  {
  }

  // ----- Walks -----

  /** A walk away from a bridge: each hop names the port at which the next bridge receives. */
  datatype Walk = Origin(start: nat) | Hop(prior: Walk, via: Endpoint)

  function First(w: Walk): nat {
    match w case Origin(b) => b case Hop(p, _) => First(p)
  }

  function Last(w: Walk): nat {
    match w case Origin(b) => b case Hop(_, e) => e.bridge
  }

  function Links(w: Walk): nat {
    match w case Origin(_) => 0 case Hop(p, _) => Links(p) + 1
  }

  function Visits(w: Walk): set<nat> {
    match w case Origin(b) => {b} case Hop(p, e) => Visits(p) + {e.bridge}
  }

  predicate IsWalk(net: Net, w: Walk): (ok: bool)
    ensures ok ==> First(w) < |net.bridges| && Last(w) < |net.bridges|
  {
    match w
    case Origin(b) => b < |net.bridges|
    case Hop(p, e) => IsWalk(net, p) && IsEndpoint(net, e) && e in net.peer && net.peer[e].bridge == Last(p)
  }

  function Cost(net: Net, w: Walk): nat
    requires IsWalk(net, w)
  {
    match w case Origin(_) => 0 case Hop(p, e) => Cost(net, p) + PathCost(net, e)
  }

  predicate Simple(w: Walk) {
    match w case Origin(_) => true case Hop(p, e) => Simple(p) && e.bridge !in Visits(p)
  }

  lemma {:induction false} SimpleVisits(net: Net, w: Walk)
    requires IsWalk(net, w) && Simple(w)
    ensures |Visits(w)| == Links(w) + 1
    ensures forall b :: b in Visits(w) ==> b < |net.bridges|
  {
    if w.Hop? {
      SimpleVisits(net, w.prior);
    }
  }

  lemma {:induction false} BoundedSet(s: set<nat>, n: nat)
    requires forall b :: b in s ==> b < n
    ensures |s| <= n
    ensures |s| == n ==> forall b: nat :: b < n ==> b in s
  {
    if n == 0 {
      assert s == {};
    } else {
      BoundedSet(s - {n - 1}, n - 1);
      if n - 1 in s {
        assert |s| == |s - {n - 1}| + 1;
      } else {
        assert s - {n - 1} == s;
      }
    }
  }

  /** A walk that repeats no bridge has fewer links than there are bridges. */
  lemma SimpleIsShort(net: Net, w: Walk)
    requires IsWalk(net, w) && Simple(w)
    ensures Links(w) < |net.bridges|
    ensures Links(w) + 1 == |net.bridges| ==> forall b: nat :: b < |net.bridges| ==> b in Visits(w)
  {
    SimpleVisits(net, w);
    BoundedSet(Visits(w), |net.bridges|);
  }

  /** No walk without repeats has more than d links. */
  ghost predicate Shallow(net: Net, d: nat) {
    forall w :: IsWalk(net, w) && Simple(w) ==> Links(w) <= d
  }

  /** n bridges make a network of depth n - 1 at most; many bridges may make a much shallower one. */
  lemma FewIsShallow(net: Net)
    requires |net.bridges| > 0
    ensures Shallow(net, |net.bridges| - 1)
  {
    forall w | IsWalk(net, w) && Simple(w) ensures Links(w) <= |net.bridges| - 1 {
      SimpleIsShort(net, w);
    }
  }

  lemma {:induction false} CostByLinks(net: Net, w: Walk)
    requires WellFormed(net) && IsWalk(net, w)
    ensures Cost(net, w) <= Times(Links(w), net.maxCost)
  {
    if w.Hop? {
      CostByLinks(net, w.prior);
    }
  }

  /** The cost of a walk without repeats, extended by one link, fits in 32 bits. */
  lemma SimpleCostFits(net: Net, w: Walk)
    requires WellFormed(net) && IsWalk(net, w) && Simple(w)
    ensures Cost(net, w) + net.maxCost < TWO_32
  {
    CostByLinks(net, w);
    SimpleIsShort(net, w);
    TimesGrows(Links(w) + 1, |net.bridges|, net.maxCost);
  }
}
