/** A ready network stays as it is, whatever is said, delivered late, or lost. */
module StpStable {
  import opened Wrappers
  import opened StpVector
  import opened StpBridge
  import opened StpNetwork
  import opened StpSafety
  import opened StpConvergence
  import opened StpTree
  import opened StpPaths
  import opened StpSettling
  import opened StpMonotone
  import opened StpRelay
  import opened ForwardingTree

  /** The ports of a bridge have different identifiers, as they are numbered one by one. */
  ghost predicate PortsNumbered(net: Net) {
    forall b, i, j :: 0 <= b < |net.bridges| && 0 <= i < j < |net.bridges[b].ports| ==>
      net.bridges[b].ports[i].portID != net.bridges[b].ports[j].portID
  }

  /** Root, cost, root port, and the role and state of every port are the same. */
  predicate SameTree(b: Bridge, r: Bridge) {
    && r.rootID == b.rootID && r.rootPathCost == b.rootPathCost && r.rootPort == b.rootPort && |r.ports| == |b.ports|
    && forall i :: 0 <= i < |b.ports| ==> r.ports[i].role == b.ports[i].role && r.ports[i].state == b.ports[i].state
  }

  // ----- One bridge -----

  /** No two ports that lead to the root offer the same. */
  ghost predicate OffersDiffer(c: Config, b: Bridge)
    requires Fits(c, b)
  {
    forall i, j | 0 <= i < |b.ports| && 0 <= j < |b.ports| && Leads(b.ports, b.rootID, i) && Leads(b.ports, b.rootID, j) && i != j ::
      Candidate(c, b.ports, i) != Candidate(c, b.ports, j)
  }

  /** The records are the same, but for a port that was and will be designated. */
  ghost predicate RecordsKept(c: Config, b: Bridge, r: Bridge)
    requires Fits(c, b) && Fits(c, r)
  {
    forall i :: 0 <= i < |b.ports| && r.ports[i].received != b.ports[i].received ==>
      && b.ports[i].role == RoleDesignated && r.rootPort != Some(i) && b.rootPort != Some(i)
      && r.ports[i].received.Some? && Own(c, r, i).Superior(r.ports[i].received.value.vector)
  }

  lemma RootPortStays(c: Config, b: Bridge, r: Bridge)
    requires Elected(c, b) && Elected(c, r) && OffersDiffer(c, b) && RecordsKept(c, b, r)
    requires r.rootID == b.rootID
    ensures r.rootPort == b.rootPort
  {
    if r.rootPort.Some? && b.rootPort.Some? {
      var i, j := b.rootPort.value, r.rootPort.value;
      assert r.ports[i].received == b.ports[i].received && r.ports[j].received == b.ports[j].received;
      assert Leads(b.ports, b.rootID, i) && Leads(b.ports, b.rootID, j);
      assert Candidate(c, r.ports, i) == Candidate(c, b.ports, i) && Candidate(c, r.ports, j) == Candidate(c, b.ports, j);
      CompareIsStrictTotalOrder(Candidate(c, b.ports, i), Candidate(c, b.ports, j), Candidate(c, b.ports, i));
    }
  }

  lemma RolesStay(c: Config, b: Bridge, r: Bridge)
    requires Coherent(c, b) && Coherent(c, r) && RecordsKept(c, b, r)
    requires r.rootID == b.rootID && r.rootPathCost == b.rootPathCost && r.rootPort == b.rootPort
    ensures forall i :: 0 <= i < |b.ports| ==> r.ports[i].role == b.ports[i].role
  {
    forall i | 0 <= i < |b.ports| ensures r.ports[i].role == b.ports[i].role {
      assert b.ports[i].role == RoleFor(c, b, i) && r.ports[i].role == RoleFor(c, r, i);
    }
  }

  /** The ports of the bridge with a forwarding role forward. */
  predicate AllForward(b: Bridge) {
    forall i :: 0 <= i < |b.ports| && (b.ports[i].role == RoleRoot || b.ports[i].role == RoleDesignated) ==>
      b.ports[i].state == StateForwarding
  }

  lemma RecomputeStays(c: Config, b: Bridge, was: Bridge, r: Bridge)
    requires Coherent(c, b) && AllForward(b) && OffersDiffer(c, b) && Fits(c, was) && r == Recompute(c, was)
    requires Coherent(c, r) && RecordsKept(c, b, r) && r.rootID == b.rootID && r.rootPathCost == b.rootPathCost
    requires forall i :: 0 <= i < |b.ports| ==> was.ports[i].role == b.ports[i].role && was.ports[i].state == b.ports[i].state
    ensures SameTree(b, r)
  {
    RootPortStays(c, b, r);
    RolesStay(c, b, r);
    forall i | 0 <= i < |b.ports| ensures r.ports[i].state == b.ports[i].state {
      StatesFollowRoles(c, was, r, i);
    }
  }

  // ----- The network -----

  lemma OffersOfPeersDiffer(net: Net, s: Fabric, b: nat)
    requires WellFormed(net) && PortsNumbered(net) && Sound(net, s) && b < |s.bridges|
    ensures OffersDiffer(net.bridges[b], s.bridges[b])
  {
    var c, x := net.bridges[b], s.bridges[b];
    assert BridgeSound(net, s, b);
    forall i, j | 0 <= i < |x.ports| && 0 <= j < |x.ports| && i != j && Leads(x.ports, x.rootID, i) && Leads(x.ports, x.rootID, j)
      ensures Candidate(c, x.ports, i) != Candidate(c, x.ports, j)
    {
      SendersDiffer(net, s, Endpoint(b, i), x.ports[i].received.value, Endpoint(b, j), x.ports[j].received.value);
    }
  }

  lemma SendersDiffer(net: Net, s: Fabric, e: Endpoint, m: Message, f: Endpoint, n: Message)
    requires WellFormed(net) && PortsNumbered(net) && Matches(net, s) && SentToward(net, s, e, m) && SentToward(net, s, f, n) && e != f
    ensures m.vector.bridgeID != n.vector.bridgeID || m.vector.portID != n.vector.portID
  {
    var p, q := net.peer[e], net.peer[f];
    assert net.peer[p] == e && net.peer[q] == f;
    if p.bridge != q.bridge {
      DifferentBridges(net, p.bridge, q.bridge);
    } else {
      assert p.port < q.port || q.port < p.port;
    }
  }

  /** What comes in on a port was sent by its peer at a time when it knew no better than now. */
  lemma SentIsOld(net: Net, s: Fabric, e: Endpoint, m: Message)
    requires Matches(net, s) && SentToward(net, s, e, m)
    ensures NotWorse(OwnAt(net, s, net.peer[e]), m.vector)
  {
  }

  /** On a settled network a designated port's own vector beats everything that comes in. */
  lemma OwnBeatsArrival(net: Net, s: Fabric, e: Endpoint, m: Message)
    requires WellFormed(net) && Sound(net, s) && Settled(net, s) && SentToward(net, s, e, m) && PortAt(s, e).role == RoleDesignated
    ensures OwnAt(net, s, e).Superior(m.vector)
  {
    var p := net.peer[e];
    SentIsOld(net, s, e, m);
    OneDesignatedEnd(net, s, e);
    UndesignatedIsBeaten(net, s, p);
    SuperiorIsTransitive(OwnAt(net, s, e), OwnAt(net, s, p), m.vector);
  }

  /** On any other port nothing superior comes in. */
  lemma ArrivalIsNotSuperior(net: Net, s: Fabric, e: Endpoint, m: Message)
    requires WellFormed(net) && Sound(net, s) && Settled(net, s) && SentToward(net, s, e, m) && PortAt(s, e).role != RoleDesignated
    ensures !IsSuperior(s.bridges[e.bridge], e.port, m)
  {
    SentIsOld(net, s, e, m);
    OneDesignatedEnd(net, s, e);
    CompareIsStrictTotalOrder(OwnAt(net, s, net.peer[e]), m.vector, m.vector);
  }

  lemma SettledIsExact(net: Net, s: Fabric, b: nat)
    requires WellFormed(net) && Sound(net, s) && Settled(net, s) && b < |net.bridges|
    ensures Exact(net, s, b)
  {
    forall w | BestWalk(net, w) && Last(w) == b
      ensures s.bridges[b].rootID == net.bridges[First(w)].id && s.bridges[b].rootPathCost == Cost(net, w)
    {
      SettledFindsShortestPaths(net, s, First(w), b);
    }
  }

  /** So no bridge's root or cost changes any more. */
  lemma ViewsStay(net: Net, s: Fabric, t: Fabric, b: nat)
    requires WellFormed(net) && Sound(net, s) && Settled(net, s) && Sound(net, t) && Progress(net, s, t) && b < |net.bridges|
    ensures t.bridges[b].rootID == s.bridges[b].rootID && t.bridges[b].rootPathCost == s.bridges[b].rootPathCost
  {
    SettledIsExact(net, s, b);
    ExactStays(net, s, t, b);
    var w := BestWalkExists(net, b);
  }

  lemma ArrivalIsNotRootPort(net: Net, s: Fabric, e: Endpoint, m: Message, r: Bridge)
    requires WellFormed(net) && Sound(net, s) && SentToward(net, s, e, m) && OwnAt(net, s, e).Superior(m.vector)
    requires Elected(net.bridges[e.bridge], r) && e.port < |r.ports| && r.ports[e.port].received == Some(m)
    requires r.rootPathCost == s.bridges[e.bridge].rootPathCost && r.rootID == s.bridges[e.bridge].rootID
    ensures r.rootPort != Some(e.port)
  {
    if r.rootPort == Some(e.port) {
      RecordCostExact(net, s, e.bridge, r, e.port);
    }
  }

  lemma LateRecordIsKept(c: Config, b: Bridge, i: nat, m: Message, r: Bridge)
    requires Fits(c, b) && i < |b.ports| && r == Recompute(c, Record(b, i, m)) && r.rootID == b.rootID && r.rootPathCost == b.rootPathCost
    requires b.ports[i].role == RoleDesignated && b.rootPort != Some(i) && r.rootPort != Some(i) && Own(c, b, i).Superior(m.vector)
    ensures RecordsKept(c, b, r)
  {
    assert forall j :: 0 <= j < |b.ports| ==> r.ports[j].received == Record(b, i, m).ports[j].received;
  }

  lemma LateRecordStays(c: Config, b: Bridge, i: nat, m: Message, r: Bridge)
    requires Coherent(c, b) && AllForward(b) && OffersDiffer(c, b) && i < |b.ports| && r == Recompute(c, Record(b, i, m))
    requires Coherent(c, r) && r.rootID == b.rootID && r.rootPathCost == b.rootPathCost
    requires b.ports[i].role == RoleDesignated && b.rootPort != Some(i) && r.rootPort != Some(i) && Own(c, b, i).Superior(m.vector)
    ensures SameTree(b, r)
  {
    LateRecordIsKept(c, b, i, m, r);
    RecomputeStays(c, b, Record(b, i, m), r);
  }

  /** A late BPDU that a designated port has no better record than changes nothing but that record. */
  lemma LateArrivalStays(net: Net, s: Fabric, e: Endpoint, m: Message, u: Fabric, r: Bridge)
    requires Ready(net, s) && PortsNumbered(net) && Sound(net, u) && Progress(net, s, u)
    requires SentToward(net, s, e, m) && PortAt(s, e).role == RoleDesignated
    requires r == Recompute(net.bridges[e.bridge], Record(s.bridges[e.bridge], e.port, m)) && u.bridges[e.bridge] == r
    ensures SameTree(s.bridges[e.bridge], r)
  {
    var b := e.bridge;
    assert BridgeSound(net, s, b) && BridgeSound(net, u, b);
    ViewsStay(net, s, u, b);
    OwnBeatsArrival(net, s, e, m);
    ArrivalIsNotRootPort(net, s, e, m, r);
    RoleIsRoot(net, s, e);
    OffersOfPeersDiffer(net, s, b);
    LateRecordStays(net.bridges[b], s.bridges[b], e.port, m, r);
  }

  lemma ConvergeStays(net: Net, s: Fabric, b: nat, u: Fabric)
    requires Ready(net, s) && PortsNumbered(net) && Sound(net, u) && Progress(net, s, u) && b < |s.bridges|
    requires u.bridges[b] == Recompute(net.bridges[b], s.bridges[b])
    ensures SameTree(s.bridges[b], u.bridges[b])
  {
    assert BridgeSound(net, s, b) && BridgeSound(net, u, b);
    ViewsStay(net, s, u, b);
    OffersOfPeersDiffer(net, s, b);
    RecomputeStays(net.bridges[b], s.bridges[b], s.bridges[b], u.bridges[b]);
  }

  lemma OldArrivalStays(c: Config, b: Bridge, i: nat, m: Message)
    requires Fits(c, b) && i < |b.ports| && (Ignored(c, m) || !IsSuperior(b, i, m))
    ensures SameTree(b, Receive(c, b, i, m))
  {
  }

  lemma ArrivalStays(net: Net, s: Fabric, e: Endpoint, m: Message, u: Fabric)
    requires Ready(net, s) && PortsNumbered(net) && Sound(net, u) && Progress(net, s, u) && SentToward(net, s, e, m)
    requires u.bridges[e.bridge] == Receive(net.bridges[e.bridge], s.bridges[e.bridge], e.port, m)
    ensures SameTree(s.bridges[e.bridge], u.bridges[e.bridge])
  {
    var c, b := net.bridges[e.bridge], s.bridges[e.bridge];
    if Ignored(c, m) || !IsSuperior(b, e.port, m) {
      OldArrivalStays(c, b, e.port, m);
    } else {
      if PortAt(s, e).role != RoleDesignated {
        ArrivalIsNotSuperior(net, s, e, m);
      }
      LateArrivalStays(net, s, e, m, u, u.bridges[e.bridge]);
    }
  }

  lemma PromoteStays(s: Fabric, b: nat)
    requires Promoted(s) && b < |s.bridges|
    ensures SameTree(s.bridges[b], PromoteAll(s.bridges[b]))
  {
  }

  lemma AdvanceStays(net: Net, s: Fabric, b: nat, p: nat)
    requires Ready(net, s) && b < |s.bridges| && p < |s.bridges[b].ports|
    ensures SameTree(s.bridges[b], AdvanceOne(s.bridges[b], p))
  {
    assert BridgeSound(net, s, b);
    assert s.bridges[b].ports[p].role == RoleFor(net.bridges[b], s.bridges[b], p);
  }

  ghost predicate SameTrees(s: Fabric, t: Fabric) {
    |s.bridges| == |t.bridges| && forall b :: 0 <= b < |s.bridges| ==> SameTree(s.bridges[b], t.bridges[b])
  }

  lemma OneTreeStays(s: Fabric, b: nat, u: Fabric)
    requires b < |s.bridges| == |u.bridges| && u.bridges == s.bridges[b := u.bridges[b]] && SameTree(s.bridges[b], u.bridges[b])
    ensures SameTrees(s, u)
  {
  }

  lemma DeliverIsReceive(net: Net, s: Fabric, k: nat, u: Fabric)
    requires Sound(net, s) && k < |s.frames| && u == Step(net, s, Deliver(k))
    ensures var e, m := s.frames[k].to, s.frames[k].message;
            && IsEndpoint(net, e) && SentToward(net, s, e, m)
            && u.bridges == s.bridges[e.bridge := Receive(net.bridges[e.bridge], s.bridges[e.bridge], e.port, m)]
  {
    assert s.frames[k] in s.frames;
  }

  lemma DeliverKeepsTrees(net: Net, s: Fabric, k: nat, u: Fabric)
    requires Ready(net, s) && PortsNumbered(net) && Sound(net, u) && Progress(net, s, u)
    requires k < |s.frames| && u == Step(net, s, Deliver(k))
    ensures SameTrees(s, u)
  {
    DeliverIsReceive(net, s, k, u);
    ArrivalStays(net, s, s.frames[k].to, s.frames[k].message, u);
    OneTreeStays(s, s.frames[k].to.bridge, u);
  }

  lemma ConvergeKeepsTrees(net: Net, s: Fabric, b: nat, u: Fabric)
    requires Ready(net, s) && PortsNumbered(net) && Sound(net, u) && Progress(net, s, u)
    requires b < |s.bridges| && u == Step(net, s, Converge(b))
    ensures SameTrees(s, u)
  {
    ConvergeStays(net, s, b, u);
    OneTreeStays(s, b, u);
  }

  lemma AdvanceKeepsTrees(net: Net, s: Fabric, b: nat, p: nat, u: Fabric)
    requires Ready(net, s) && b < |s.bridges| && p < |s.bridges[b].ports| && u == Step(net, s, Advance(b, p))
    ensures SameTrees(s, u)
  {
    AdvanceStays(net, s, b, p);
    OneTreeStays(s, b, u);
  }

  lemma PromoteKeepsTrees(net: Net, s: Fabric, b: nat, u: Fabric)
    requires Matches(net, s) && Promoted(s) && b < |s.bridges| && u == Step(net, s, Promote(b))
    ensures SameTrees(s, u)
  {
    PromoteStays(s, b);
    OneTreeStays(s, b, u);
  }

  lemma SameTreesReflexive(s: Fabric, u: Fabric)
    requires u.bridges == s.bridges
    ensures SameTrees(s, u)
  {
  }

  lemma StepKeepsTrees(net: Net, s: Fabric, a: Action, u: Fabric)
    requires Ready(net, s) && PortsNumbered(net) && Sound(net, u) && Progress(net, s, u) && u == Step(net, s, a)
    ensures SameTrees(s, u)
  {
    if a.Converge? && a.bridge < |s.bridges| {
      ConvergeKeepsTrees(net, s, a.bridge, u);
    } else if a.Deliver? && a.index < |s.frames| {
      DeliverKeepsTrees(net, s, a.index, u);
    } else if a.Promote? && a.bridge < |s.bridges| {
      PromoteKeepsTrees(net, s, a.bridge, u);
    } else if a.Advance? && a.bridge < |s.bridges| && a.port < |s.bridges[a.bridge].ports| {
      AdvanceKeepsTrees(net, s, a.bridge, a.port, u);
    } else {
      SameTreesReflexive(s, u);
    }
  }

  /** A record is what it was, or newer, or a designated port's. */
  predicate RecordsStay(s: Fabric, u: Fabric) {
    |s.bridges| == |u.bridges| && forall b :: 0 <= b < |s.bridges| ==> BridgeRecordsStay(s.bridges[b], u.bridges[b])
  }

  predicate BridgeRecordsStay(b: Bridge, r: Bridge) {
    && |b.ports| == |r.ports|
    && forall i :: 0 <= i < |b.ports| ==>
         || r.ports[i].received == b.ports[i].received
         || b.ports[i].role == RoleDesignated
         || (b.ports[i].received.Some? && r.ports[i].received.Some? && b.ports[i].received.value.vector == r.ports[i].received.value.vector)
  }

  lemma ArrivalRecordsStay(c: Config, b: Bridge, i: nat, m: Message)
    requires Fits(c, b) && i < |b.ports| && (b.ports[i].role == RoleDesignated || !IsSuperior(b, i, m))
    ensures BridgeRecordsStay(b, Receive(c, b, i, m))
  {
    ReceiveRecords(c, b, i, m);
  }

  lemma OneBridgeRecordsStay(s: Fabric, b: nat, u: Fabric)
    requires b < |s.bridges| == |u.bridges| && u.bridges == s.bridges[b := u.bridges[b]] && BridgeRecordsStay(s.bridges[b], u.bridges[b])
    ensures RecordsStay(s, u)
  {
  }

  lemma DeliverKeepsRecords(net: Net, s: Fabric, k: nat, u: Fabric)
    requires Ready(net, s) && k < |s.frames| && u == Step(net, s, Deliver(k))
    ensures RecordsStay(s, u)
  {
    var e, m := s.frames[k].to, s.frames[k].message;
    DeliverIsReceive(net, s, k, u);
    if PortAt(s, e).role != RoleDesignated {
      ArrivalIsNotSuperior(net, s, e, m);
    }
    ArrivalRecordsStay(net.bridges[e.bridge], s.bridges[e.bridge], e.port, m);
    OneBridgeRecordsStay(s, e.bridge, u);
  }

  lemma StepKeepsRecords(net: Net, s: Fabric, a: Action, u: Fabric)
    requires Ready(net, s) && u == Step(net, s, a)
    ensures RecordsStay(s, u)
  {
    match a
    case Converge(b) =>
      if b < |s.bridges| {
        OneBridgeRecordsStay(s, b, u);
      }
    case Deliver(k) =>
      if k < |s.frames| {
        DeliverKeepsRecords(net, s, k, u);
      }
    case Promote(b) =>
      if b < |s.bridges| {
        OneBridgeRecordsStay(s, b, u);
      }
    case Advance(b, p) =>
      if b < |s.bridges| && p < |s.bridges[b].ports| {
        OneBridgeRecordsStay(s, b, u);
      }
    case _ =>
  }

  /** Roles, views and the records of ports that are not designated are all that settling looks at. */
  lemma StaysSettled(net: Net, s: Fabric, u: Fabric)
    requires WellFormed(net) && Sound(net, s) && Settled(net, s) && Matches(net, u) && SameTrees(s, u) && RecordsStay(s, u)
    ensures Settled(net, u)
  {
    forall f | f in net.peer && PortAt(u, f).role == RoleDesignated ensures Taught(net, u, f) {
      var e := net.peer[f];
      assert SameTree(s.bridges[f.bridge], u.bridges[f.bridge]) && BridgeRecordsStay(s.bridges[e.bridge], u.bridges[e.bridge]);
      OneDesignatedEnd(net, s, f);
    }
  }

  lemma StaysPromoted(s: Fabric, u: Fabric)
    requires Promoted(s) && SameTrees(s, u)
    ensures Promoted(u)
  {
    forall b, i | 0 <= b < |u.bridges| && 0 <= i < |u.bridges[b].ports|
      ensures u.bridges[b].ports[i].role == RoleRoot || u.bridges[b].ports[i].role == RoleDesignated ==>
                u.bridges[b].ports[i].state == StateForwarding
    {
      assert SameTree(s.bridges[b], u.bridges[b]);
    }
  }

  lemma StepStays(net: Net, s: Fabric, a: Action)
    requires Ready(net, s) && PortsNumbered(net)
    ensures Ready(net, Step(net, s, a)) && SameTrees(s, Step(net, s, a))
  {
    var u := Step(net, s, a);
    StepKeepsSound(net, s, a);
    StepKeepsTrees(net, s, a, u);
    StepKeepsRecords(net, s, a, u);
    StaysSettled(net, s, u);
    StaysPromoted(s, u);
  }

  lemma SameTreesTransitive(s: Fabric, t: Fabric, u: Fabric)
    requires SameTrees(s, t) && SameTrees(t, u)
    ensures SameTrees(s, u)
  {
    forall b | 0 <= b < |s.bridges| ensures SameTree(s.bridges[b], u.bridges[b]) {
      assert SameTree(s.bridges[b], t.bridges[b]) && SameTree(t.bridges[b], u.bridges[b]);
    }
  }

  /** A ready network stays ready, and every bridge keeps its root, cost and root port and every port its role and state,
      whatever happens from then on: hellos, recomputations, late BPDUs, losses and timers, in any order. */
  lemma {:induction false} ReadyStays(net: Net, s: Fabric, acts: seq<Action>)
    requires Ready(net, s) && PortsNumbered(net)
    ensures Ready(net, Exec(net, s, acts)) && SameTrees(s, Exec(net, s, acts))
    decreases |acts|
  {
    if acts != [] {
      StepStays(net, s, acts[0]);
      ReadyStays(net, Step(net, s, acts[0]), acts[1..]);
      SameTreesTransitive(s, Step(net, s, acts[0]), Exec(net, s, acts));
    }
  }

  // ----- By forward delays -----

  /** How often a port's forward delay runs out. */
  function Delays(acts: seq<Action>, e: Endpoint): nat {
    if acts == [] then 0 else (if acts[0] == Advance(e.bridge, e.port) then 1 else 0) + Delays(acts[1..], e)
  }

  /** Only the states of ports may differ. */
  predicate SameButStates(s: Fabric, t: Fabric) {
    |s.bridges| == |t.bridges| && forall b :: 0 <= b < |s.bridges| ==> SameButPortStates(s.bridges[b], t.bridges[b])
  }

  predicate SameButPortStates(b: Bridge, r: Bridge) {
    && r.rootID == b.rootID && r.rootPathCost == b.rootPathCost && r.rootPort == b.rootPort && |r.ports| == |b.ports|
    && forall i :: 0 <= i < |b.ports| ==> r.ports[i].role == b.ports[i].role && r.ports[i].received == b.ports[i].received
  }

  lemma AdvanceIs(net: Net, s: Fabric, a: Action, u: Fabric, e: Endpoint)
    requires Matches(net, s) && IsEndpoint(net, e) && a.Advance? && u == Step(net, s, a)
    ensures SameButStates(s, u)
    ensures PortAt(u, e).state ==
            if a != Advance(e.bridge, e.port) then PortAt(s, e).state
            else match PortAt(s, e).state
                 case StateListening => StateLearning
                 case StateLearning => StateForwarding
                 case other => other
  {
  }

  lemma AdvanceMovesStates(net: Net, s: Fabric, a: Action, u: Fabric)
    requires Matches(net, s) && a.Advance? && u == Step(net, s, a)
    ensures SameButStates(s, u)
  {
  }

  lemma ButStatesTransitive(s: Fabric, t: Fabric, u: Fabric)
    requires SameButStates(s, t) && SameButStates(t, u)
    ensures SameButStates(s, u)
  {
    forall b | 0 <= b < |s.bridges| ensures SameButPortStates(s.bridges[b], u.bridges[b]) {
      assert SameButPortStates(s.bridges[b], t.bridges[b]) && SameButPortStates(t.bridges[b], u.bridges[b]);
    }
  }

  lemma {:induction false} DelaysMoveStates(net: Net, s: Fabric, acts: seq<Action>)
    requires Matches(net, s) && forall a :: a in acts ==> a.Advance?
    ensures SameButStates(s, Exec(net, s, acts))
    decreases |acts|
  {
    if acts != [] {
      var u := Step(net, s, acts[0]);
      AdvanceMovesStates(net, s, acts[0], u);
      DelaysMoveStates(net, u, acts[1..]);
      ButStatesTransitive(s, u, Exec(net, u, acts[1..]));
    }
  }

  /** A listening port learns after one delay and forwards after two, a learning port forwards after one; delays do nothing else. */
  lemma {:induction false} DelaysForward(net: Net, s: Fabric, acts: seq<Action>, e: Endpoint)
    requires Matches(net, s) && IsEndpoint(net, e) && forall a :: a in acts ==> a.Advance?
    ensures var t, n := Exec(net, s, acts), Delays(acts, e);
            && SameButStates(s, t)
            && PortAt(t, e).state == match PortAt(s, e).state
                                     case StateListening =>
                                       if n == 0 then StateListening else if n == 1 then StateLearning else StateForwarding
                                     case StateLearning => if n == 0 then StateLearning else StateForwarding
                                     case other => other
    decreases |acts|
  {
    if acts != [] {
      AdvanceIs(net, s, acts[0], Step(net, s, acts[0]), e);
      DelaysForward(net, Step(net, s, acts[0]), acts[1..], e);
    }
  }

  lemma StatesDoNotSettle(net: Net, s: Fabric, t: Fabric)
    requires Matches(net, s) && Matches(net, t) && Settled(net, s) && SameButStates(s, t)
    ensures Settled(net, t)
  {
    forall f | f in net.peer && IsEndpoint(net, f) && IsEndpoint(net, net.peer[f]) && PortAt(t, f).role == RoleDesignated
      ensures PortAt(t, net.peer[f]).received.Some? && PortAt(t, net.peer[f]).received.value.vector == OwnAt(net, t, f)
    {
      assert SameButPortStates(s.bridges[f.bridge], t.bridges[f.bridge]);
      assert SameButPortStates(s.bridges[net.peer[f].bridge], t.bridges[net.peer[f].bridge]);
    }
  }

  lemma DelayedForwards(net: Net, s: Fabric, acts: seq<Action>, b: nat, i: nat)
    requires Sound(net, s) && b < |s.bridges| && i < |s.bridges[b].ports| && forall a :: a in acts ==> a.Advance?
    requires s.bridges[b].ports[i].role == RoleAlternate || s.bridges[b].ports[i].state != StateBlocking
    requires Delays(acts, Endpoint(b, i)) >= 2
    ensures var t := Exec(net, s, acts);
            && |t.bridges[b].ports| == |s.bridges[b].ports|
            && (t.bridges[b].ports[i].role == RoleRoot || t.bridges[b].ports[i].role == RoleDesignated ==>
                  t.bridges[b].ports[i].state == StateForwarding)
  {
    DelaysForward(net, s, acts, Endpoint(b, i));
    assert BridgeSound(net, s, b);
    assert s.bridges[b].ports[i].role == RoleFor(net.bridges[b], s.bridges[b], i);
    assert SameButPortStates(s.bridges[b], Exec(net, s, acts).bridges[b]);
  }

  /** So a settled network becomes ready by itself: when the forward delay of every port has run out twice, if none that is root
      or designated was still blocking. */
  lemma DelaysMakeReady(net: Net, s: Fabric, acts: seq<Action>, t: Fabric)
    requires WellFormed(net) && Sound(net, s) && Settled(net, s) && t == Exec(net, s, acts)
    requires forall e :: IsEndpoint(net, e) ==> PortAt(s, e).role == RoleAlternate || PortAt(s, e).state != StateBlocking
    requires forall a :: a in acts ==> a.Advance?
    requires forall e :: IsEndpoint(net, e) ==> Delays(acts, e) >= 2
    ensures Ready(net, t)
  {
    ExecKeepsSound(net, s, acts);
    DelaysMoveStates(net, s, acts);
    StatesDoNotSettle(net, s, t);
    forall b, i | 0 <= b < |t.bridges| && 0 <= i < |t.bridges[b].ports|
      ensures t.bridges[b].ports[i].role == RoleRoot || t.bridges[b].ports[i].role == RoleDesignated ==>
                t.bridges[b].ports[i].state == StateForwarding
    {
      assert IsEndpoint(net, Endpoint(b, i)) && PortAt(s, Endpoint(b, i)) == s.bridges[b].ports[i];
      DelayedForwards(net, s, acts, b, i);
    }
  }
}
