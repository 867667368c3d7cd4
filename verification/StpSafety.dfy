/** What every run keeps: views only improve, and everything recorded or in flight comes from a real walk. */
module StpSafety {
  import opened Wrappers
  import opened Bytes
  import opened StpVector
  import opened StpBridge
  import opened StpNetwork

  /** Every bridge's root and cost are at least as good in t as in s. */
  ghost predicate Progress(net: Net, s: Fabric, t: Fabric)
    requires Matches(net, s) && Matches(net, t)
  {
    forall b :: 0 <= b < |s.bridges| ==> t.bridges[b].AtLeast(s.bridges[b].rootID, s.bridges[b].rootPathCost)
  }

  /** Every bridge along the walk knows its start at no more than the cost so far. */
  ghost predicate Supported(net: Net, s: Fabric, w: Walk)
    requires Matches(net, s) && IsWalk(net, w)
  {
    && s.bridges[Last(w)].AtLeast(net.bridges[First(w)].id, Cost(net, w))
    && (w.Hop? ==> Supported(net, s, w.prior))
  }

  /** The walk w ends at bridge b and accounts for its root, its cost and the age of its information. */
  ghost predicate Witness(net: Net, s: Fabric, w: Walk, b: nat, root: BridgeID, cost: nat, age: nat)
    requires Matches(net, s)
  {
    && IsWalk(net, w) && Simple(w) && Supported(net, s, w)
    && Last(w) == b
    && net.bridges[First(w)].id == root
    && Cost(net, w) == cost
    && age == Links(w) * HELLO_TIME
  }

  ghost predicate Traced(net: Net, s: Fabric, b: nat, root: BridgeID, cost: nat, age: nat)
    requires Matches(net, s)
  {
    exists w :: Witness(net, s, w, b, root, cost, age)
  }

  /** The message at endpoint e was sent by its peer, which still knows a root and cost at least as good. */
  ghost predicate SentToward(net: Net, s: Fabric, e: Endpoint, m: Message)
    requires Matches(net, s)
  {
    && e in net.peer && IsEndpoint(net, e) && IsEndpoint(net, net.peer[e])
    && m.vector.bridgeID == net.bridges[net.peer[e].bridge].id
    && m.vector.portID == net.bridges[net.peer[e].bridge].ports[net.peer[e].port].portID
    && s.bridges[net.peer[e].bridge].AtLeast(m.vector.rootID, m.vector.rootPathCost)
    && Traced(net, s, net.peer[e].bridge, m.vector.rootID, m.vector.rootPathCost, m.age)
  }

  ghost predicate RecordsSound(net: Net, s: Fabric, b: nat, r: Bridge)
    requires Matches(net, s)
  {
    forall i :: 0 <= i < |r.ports| && r.ports[i].received.Some? ==>
      SentToward(net, s, Endpoint(b, i), r.ports[i].received.value) && r.ports[i].received.value.age < MAX_AGE
  }

  ghost predicate BridgeSound(net: Net, s: Fabric, b: nat)
    requires Matches(net, s) && b < |s.bridges|
  {
    && Coherent(net.bridges[b], s.bridges[b])
    && Traced(net, s, b, s.bridges[b].rootID, s.bridges[b].rootPathCost, MessageAge(s.bridges[b]))
    && RecordsSound(net, s, b, s.bridges[b])
  }

  /** The invariant of every run. */
  ghost predicate Sound(net: Net, s: Fabric) {
    && Matches(net, s)
    && (forall b :: 0 <= b < |s.bridges| ==> BridgeSound(net, s, b))
    && (forall f :: f in s.frames ==> SentToward(net, s, f.to, f.message))
  }

  // ----- Progress carries witnesses forward -----

  lemma {:induction false} SupportedCarries(net: Net, s: Fabric, t: Fabric, w: Walk)
    requires Matches(net, s) && Matches(net, t) && Progress(net, s, t)
    requires IsWalk(net, w) && Supported(net, s, w)
    ensures Supported(net, t, w)
  {
    if w.Hop? {
      SupportedCarries(net, s, t, w.prior);
    }
  }

  lemma TracedCarries(net: Net, s: Fabric, t: Fabric, b: nat, root: BridgeID, cost: nat, age: nat)
    requires Matches(net, s) && Matches(net, t) && Progress(net, s, t)
    requires Traced(net, s, b, root, cost, age)
    ensures Traced(net, t, b, root, cost, age)
  {
    var w :| Witness(net, s, w, b, root, cost, age);
    SupportedCarries(net, s, t, w);
    assert Witness(net, t, w, b, root, cost, age);
  }

  lemma SentTowardCarries(net: Net, s: Fabric, t: Fabric, e: Endpoint, m: Message)
    requires Matches(net, s) && Matches(net, t) && Progress(net, s, t)
    requires SentToward(net, s, e, m)
    ensures SentToward(net, t, e, m)
  {
    TracedCarries(net, s, t, net.peer[e].bridge, m.vector.rootID, m.vector.rootPathCost, m.age);
  }

  lemma {:induction false} SupportedAlong(net: Net, s: Fabric, w: Walk, b: nat)
    requires Matches(net, s) && IsWalk(net, w) && Supported(net, s, w)
    requires b in Visits(w)
    ensures b < |s.bridges| && s.bridges[b].AtLeast(net.bridges[First(w)].id, Cost(net, w))
  {
    if w.Hop? && b != Last(w) {
      SupportedAlong(net, s, w.prior, b);
    }
  }

  // ----- A bridge that changes keeps the invariant -----

  lemma TracedCostFits(net: Net, s: Fabric, b: nat, root: BridgeID, cost: nat, age: nat)
    requires WellFormed(net) && Matches(net, s) && Traced(net, s, b, root, cost, age)
    ensures cost + net.maxCost < TWO_32
  {
    var w :| Witness(net, s, w, b, root, cost, age);
    SimpleCostFits(net, w);
  }

  /** A witnessed record never wraps when the receiving port's cost is added. */
  lemma RecordCostExact(net: Net, s: Fabric, b: nat, r: Bridge, i: nat)
    requires WellFormed(net) && Matches(net, s) && b < |s.bridges| && Fits(net.bridges[b], r)
    requires i < |r.ports| && r.ports[i].received.Some?
    requires SentToward(net, s, Endpoint(b, i), r.ports[i].received.value)
    ensures Candidate(net.bridges[b], r.ports, i).rootPathCost
         == r.ports[i].received.value.vector.rootPathCost + net.bridges[b].ports[i].pathCost
  {
    var m := r.ports[i].received.value;
    TracedCostFits(net, s, net.peer[Endpoint(b, i)].bridge, m.vector.rootID, m.vector.rootPathCost, m.age);
    SmallModulo(m.vector.rootPathCost + net.bridges[b].ports[i].pathCost, TWO_32);
  }

  /** A bridge is not on the walk behind the record its root port relies on. */
  lemma RootWalkAvoidsBridge(net: Net, s: Fabric, b: nat, r: Bridge, w: Walk)
    requires Matches(net, s) && b < |s.bridges|
    requires IsWalk(net, w) && Supported(net, s, w)
    requires r.AtLeast(s.bridges[b].rootID, s.bridges[b].rootPathCost)
    requires r.rootID == net.bridges[First(w)].id && r.rootPathCost > Cost(net, w)
    ensures b !in Visits(w)
  {
    if b in Visits(w) {
      SupportedAlong(net, s, w, b);
      RankInjective(s.bridges[b].rootID, r.rootID);
      assert false;
    }
  }

  /** The root port's witness, extended by the root port's link, witnesses the bridge itself. */
  lemma ExtendWitness(net: Net, s: Fabric, b: nat, r: Bridge, t: Fabric, e: Endpoint, w: Walk, age: nat)
    requires Matches(net, s) && Matches(net, t) && Progress(net, s, t)
    requires b < |s.bridges| && t.bridges[b] == r
    requires r.AtLeast(s.bridges[b].rootID, s.bridges[b].rootPathCost)
    requires e.bridge == b && e in net.peer && IsEndpoint(net, e)
    requires r.rootPathCost >= PathCost(net, e) > 0
    requires Witness(net, s, w, net.peer[e].bridge, r.rootID, r.rootPathCost - PathCost(net, e), age)
    ensures Witness(net, t, Hop(w, e), b, r.rootID, r.rootPathCost, age + HELLO_TIME)
  {
    RootWalkAvoidsBridge(net, s, b, r, w);
    SupportedCarries(net, s, t, w);
  }

  /** What the record on the root port says about the bridge. */
  lemma RootRecord(net: Net, s: Fabric, b: nat, r: Bridge) returns (e: Endpoint, m: Message)
    requires WellFormed(net) && Matches(net, s) && b < |s.bridges|
    requires Elected(net.bridges[b], r) && RecordsSound(net, s, b, r) && r.rootPort.Some?
    ensures e == Endpoint(b, r.rootPort.value) && r.rootPort.value < |r.ports|
    ensures SentToward(net, s, e, m) && r.ports[r.rootPort.value].received == Some(m)
    ensures r.rootID == m.vector.rootID && r.rootPathCost == m.vector.rootPathCost + PathCost(net, e)
    ensures MessageAge(r) == m.age + HELLO_TIME
  {
    var i := r.rootPort.value;
    assert Leads(r.ports, r.rootID, i);
    e, m := Endpoint(b, i), r.ports[i].received.value;
    RecordCostExact(net, s, b, r, i);
  }

  lemma OneBridgeProgress(net: Net, s: Fabric, b: nat, r: Bridge, t: Fabric)
    requires Matches(net, s) && b < |s.bridges| && Fits(net.bridges[b], r)
    requires r.AtLeast(s.bridges[b].rootID, s.bridges[b].rootPathCost)
    requires t.bridges == s.bridges[b := r]
    ensures Matches(net, t) && Progress(net, s, t)
  {
  }

  lemma OriginTrace(net: Net, t: Fabric, b: nat)
    requires Matches(net, t) && b < |t.bridges| && t.bridges[b].AtLeast(net.bridges[b].id, 0)
    ensures Traced(net, t, b, net.bridges[b].id, 0, 0)
  {
    assert Witness(net, t, Origin(b), b, net.bridges[b].id, 0, 0);
  }

  lemma RecordTrace(net: Net, s: Fabric, b: nat, r: Bridge, t: Fabric, e: Endpoint, m: Message)
    requires Matches(net, s) && Matches(net, t) && Progress(net, s, t)
    requires b < |s.bridges| && t.bridges[b] == r && e.bridge == b
    requires r.AtLeast(s.bridges[b].rootID, s.bridges[b].rootPathCost)
    requires SentToward(net, s, e, m) && PathCost(net, e) > 0
    requires r.rootID == m.vector.rootID && r.rootPathCost == m.vector.rootPathCost + PathCost(net, e)
    ensures Traced(net, t, b, r.rootID, r.rootPathCost, m.age + HELLO_TIME)
  {
    var w :| Witness(net, s, w, net.peer[e].bridge, m.vector.rootID, m.vector.rootPathCost, m.age);
    ExtendWitness(net, s, b, r, t, e, w, m.age);
  }

  lemma ExtendTrace(net: Net, s: Fabric, b: nat, r: Bridge, t: Fabric)
    requires WellFormed(net) && Matches(net, s) && b < |s.bridges|
    requires Elected(net.bridges[b], r) && RecordsSound(net, s, b, r)
    requires r.AtLeast(s.bridges[b].rootID, s.bridges[b].rootPathCost)
    requires t.bridges == s.bridges[b := r]
    ensures Matches(net, t) && Progress(net, s, t)
    ensures Traced(net, t, b, r.rootID, r.rootPathCost, MessageAge(r))
  {
    OneBridgeProgress(net, s, b, r, t);
    if r.rootPort == None {
      OriginTrace(net, t, b);
    } else {
      var e, m := RootRecord(net, s, b, r);
      RecordTrace(net, s, b, r, t, e, m);
    }
  }

  predicate OwnMessages(c: Config, r: Bridge, out: seq<Outgoing>)
    requires Fits(c, r)
  {
    forall o :: o in out ==> o.port < |r.ports| && o.message == Message(Own(c, r, o.port), MessageAge(r))
  }

  lemma EmitSound(net: Net, t: Fabric, b: nat, out: seq<Outgoing>)
    requires WellFormed(net) && Matches(net, t) && b < |t.bridges|
    requires Traced(net, t, b, t.bridges[b].rootID, t.bridges[b].rootPathCost, MessageAge(t.bridges[b]))
    requires OwnMessages(net.bridges[b], t.bridges[b], out)
    ensures forall f :: f in Emit(net, b, out) ==> SentToward(net, t, f.to, f.message)
  {
    forall f | f in Emit(net, b, out) ensures SentToward(net, t, f.to, f.message) {
      var o :| o in out && Endpoint(b, o.port) in net.peer && f == Frame(net.peer[Endpoint(b, o.port)], o.message);
    }
  }

  /** When bridge b improves to r, holds sound records and sends what it now knows, the invariant is kept. */
  lemma ActKeepsSound(net: Net, s: Fabric, b: nat, r: Bridge, out: seq<Outgoing>)
    requires WellFormed(net) && Sound(net, s) && b < |s.bridges|
    requires Coherent(net.bridges[b], r) && RecordsSound(net, s, b, r)
    requires r.AtLeast(s.bridges[b].rootID, s.bridges[b].rootPathCost)
    requires OwnMessages(net.bridges[b], r, out)
    ensures Matches(net, Act(net, s, b, r, out))
    ensures Sound(net, Act(net, s, b, r, out)) && Progress(net, s, Act(net, s, b, r, out))
  {
    var t := Act(net, s, b, r, out);
    ExtendTrace(net, s, b, r, t);
    forall x | 0 <= x < |t.bridges| ensures BridgeSound(net, t, x) {
      assert BridgeSound(net, s, x);
      if x != b {
        TracedCarries(net, s, t, x, t.bridges[x].rootID, t.bridges[x].rootPathCost, MessageAge(t.bridges[x]));
      }
      forall i | 0 <= i < |t.bridges[x].ports| && t.bridges[x].ports[i].received.Some?
        ensures SentToward(net, t, Endpoint(x, i), t.bridges[x].ports[i].received.value)
        ensures t.bridges[x].ports[i].received.value.age < MAX_AGE
      {
        SentTowardCarries(net, s, t, Endpoint(x, i), t.bridges[x].ports[i].received.value);
      }
    }
    EmitSound(net, t, b, out);
    forall f | f in t.frames ensures SentToward(net, t, f.to, f.message) {
      if f in s.frames {
        SentTowardCarries(net, s, t, f.to, f.message);
      }
    }
  }

  // ----- Every step keeps the invariant -----

  /** Recorded vectors are kept or replaced by superior ones. */
  predicate RecordsImprove(b: Bridge, r: Bridge) {
    && |r.ports| == |b.ports|
    && forall i :: 0 <= i < |b.ports| && b.ports[i].received.Some? ==>
         && r.ports[i].received.Some?
         && (r.ports[i].received.value.vector == b.ports[i].received.value.vector
             || r.ports[i].received.value.vector.Superior(b.ports[i].received.value.vector))
  }

  lemma ImprovedRecordsImproveView(net: Net, s: Fabric, b: nat, r: Bridge)
    requires WellFormed(net) && Matches(net, s) && b < |s.bridges|
    requires Elected(net.bridges[b], s.bridges[b]) && RecordsSound(net, s, b, s.bridges[b])
    requires Elected(net.bridges[b], r) && RecordsImprove(s.bridges[b], r)
    ensures r.AtLeast(s.bridges[b].rootID, s.bridges[b].rootPathCost)
  {
    if s.bridges[b].rootPort.Some? {
      var e, m := RootRecord(net, s, b, s.bridges[b]);
    }
    BetterRecordsBetterRoot(net.bridges[b], s.bridges[b], r);
  }

  lemma ReceiveIsCoherent(c: Config, b: Bridge, i: nat, m: Message)
    requires Coherent(c, b) && i < |b.ports|
    ensures Coherent(c, Receive(c, b, i, m))
  {
    if !Ignored(c, m) {
      if IsSuperior(b, i, m) {
        RecomputeCoherent(c, Record(b, i, m));
      } else if m.vector == b.ports[i].received.value.vector {
        RefreshIsCoherent(c, b, i, m);
      }
    }
  }

  /** Reception touches no record but the receiving port's, which holds the message or what it held. */
  lemma ReceiveRecords(c: Config, b: Bridge, i: nat, m: Message)
    requires Fits(c, b) && i < |b.ports|
    ensures RecordsImprove(b, Receive(c, b, i, m))
    ensures forall j :: 0 <= j < |b.ports| ==>
              || Receive(c, b, i, m).ports[j].received == b.ports[j].received
              || (j == i && Receive(c, b, i, m).ports[j].received == Some(m) && m.age < MAX_AGE)
  {
  }

  lemma ResponsesAreOwn(c: Config, b: Bridge, i: nat, m: Message)
    requires Fits(c, b) && i < |b.ports|
    ensures OwnMessages(c, Receive(c, b, i, m), Responses(c, b, i, m))
  {
  }

  /** An identical refresh changes an age, nothing the election reads. */
  lemma RefreshIsCoherent(c: Config, b: Bridge, i: nat, m: Message)
    requires Coherent(c, b) && i < |b.ports|
    requires b.ports[i].received.Some? && m.vector == b.ports[i].received.value.vector
    ensures Coherent(c, Record(b, i, m))
  {
    var r := Record(b, i, m);
    forall j | 0 <= j < |b.ports| && b.ports[j].received.Some?
      ensures Candidate(c, b.ports, j) == Candidate(c, r.ports, j)
      ensures Leads(b.ports, b.rootID, j) == Leads(r.ports, b.rootID, j)
    {
    }
    assert Elected(c, r);
    forall j | 0 <= j < |b.ports| ensures RoleFor(c, r, j) == RoleFor(c, b, j) {
    }
  }

  lemma ReceivedRecordsSound(net: Net, s: Fabric, b: nat, i: nat, m: Message)
    requires Matches(net, s) && b < |s.bridges| && i < |s.bridges[b].ports|
    requires RecordsSound(net, s, b, s.bridges[b]) && SentToward(net, s, Endpoint(b, i), m)
    ensures RecordsSound(net, s, b, Receive(net.bridges[b], s.bridges[b], i, m))
  {
    ReceiveRecords(net.bridges[b], s.bridges[b], i, m);
  }

  lemma DeliverKeepsSound(net: Net, s: Fabric, b: nat, i: nat, m: Message)
    requires WellFormed(net) && Sound(net, s)
    requires b < |s.bridges| && i < |s.bridges[b].ports| && SentToward(net, s, Endpoint(b, i), m)
    ensures var t := Act(net, s, b, Receive(net.bridges[b], s.bridges[b], i, m), Responses(net.bridges[b], s.bridges[b], i, m));
            Matches(net, t) && Sound(net, t) && Progress(net, s, t)
  {
    assert BridgeSound(net, s, b);
    var r := Receive(net.bridges[b], s.bridges[b], i, m);
    ReceivedRecordsSound(net, s, b, i, m);
    ReceiveIsCoherent(net.bridges[b], s.bridges[b], i, m);
    ReceiveRecords(net.bridges[b], s.bridges[b], i, m);
    ImprovedRecordsImproveView(net, s, b, r);
    ResponsesAreOwn(net.bridges[b], s.bridges[b], i, m);
    ActKeepsSound(net, s, b, r, Responses(net.bridges[b], s.bridges[b], i, m));
  }

  predicate SameRecords(b: Bridge, r: Bridge) {
    |r.ports| == |b.ports| && forall i :: 0 <= i < |r.ports| ==> r.ports[i].received == b.ports[i].received
  }

  lemma QuietChangeKeepsSound(net: Net, s: Fabric, b: nat, r: Bridge, out: seq<Outgoing>)
    requires WellFormed(net) && Sound(net, s) && b < |s.bridges|
    requires Coherent(net.bridges[b], r) && SameRecords(s.bridges[b], r)
    requires OwnMessages(net.bridges[b], r, out)
    ensures Matches(net, Act(net, s, b, r, out))
    ensures Sound(net, Act(net, s, b, r, out)) && Progress(net, s, Act(net, s, b, r, out))
  {
    assert BridgeSound(net, s, b);
    ImprovedRecordsImproveView(net, s, b, r);
    ActKeepsSound(net, s, b, r, out);
  }

  lemma PromoteIsCoherent(c: Config, b: Bridge)
    requires Coherent(c, b)
    ensures Coherent(c, PromoteAll(b)) && SameRecords(b, PromoteAll(b))
  {
    var r := PromoteAll(b);
    ElectedReadsRecords(c, b, r);
    forall i | 0 <= i < |b.ports| ensures RoleFor(c, r, i) == RoleFor(c, b, i) {
    }
  }

  lemma AdvanceIsCoherent(c: Config, b: Bridge, p: nat)
    requires Coherent(c, b) && p < |b.ports|
    ensures Coherent(c, AdvanceOne(b, p)) && SameRecords(b, AdvanceOne(b, p))
  {
    var r := AdvanceOne(b, p);
    ElectedReadsRecords(c, b, r);
    forall i | 0 <= i < |b.ports| ensures RoleFor(c, r, i) == RoleFor(c, b, i) {
    }
  }

  lemma LossKeepsSound(net: Net, s: Fabric, k: nat)
    requires Sound(net, s) && k < |s.frames|
    ensures Sound(net, s.(frames := Without(s.frames, k)))
  {
    var t := s.(frames := Without(s.frames, k));
    forall b | 0 <= b < |t.bridges| ensures BridgeSound(net, t, b) {
      assert BridgeSound(net, s, b);
      SameBridgesCarry(net, s, t);
    }
    SameBridgesCarry(net, s, t);
  }

  lemma SameBridgesCarry(net: Net, s: Fabric, t: Fabric)
    requires Matches(net, s) && Matches(net, t) && s.bridges == t.bridges
    ensures forall b, root, cost, age :: Traced(net, s, b, root, cost, age) ==> Traced(net, t, b, root, cost, age)
    ensures forall e, m :: SentToward(net, s, e, m) ==> SentToward(net, t, e, m)
  {
    forall b, root, cost, age | Traced(net, s, b, root, cost, age) ensures Traced(net, t, b, root, cost, age) {
      TracedCarries(net, s, t, b, root, cost, age);
    }
  }

  lemma HelloKeepsSound(net: Net, s: Fabric, b: nat, t: Fabric)
    requires WellFormed(net) && Sound(net, s) && b < |s.bridges| && t == Step(net, s, Hello(b))
    ensures Sound(net, t) && Progress(net, s, t)
  {
    assert BridgeSound(net, s, b);
    QuietChangeKeepsSound(net, s, b, s.bridges[b], Collect(net.bridges[b], s.bridges[b], |s.bridges[b].ports|));
  }

  lemma ConvergeKeepsSound(net: Net, s: Fabric, b: nat, t: Fabric)
    requires WellFormed(net) && Sound(net, s) && b < |s.bridges| && t == Step(net, s, Converge(b))
    ensures Sound(net, t) && Progress(net, s, t)
  {
    assert BridgeSound(net, s, b);
    var r := Recompute(net.bridges[b], s.bridges[b]);
    RecomputeCoherent(net.bridges[b], s.bridges[b]);
    QuietChangeKeepsSound(net, s, b, r, Collect(net.bridges[b], r, |r.ports|));
  }

  lemma DeliverStepKeepsSound(net: Net, s: Fabric, k: nat)
    requires WellFormed(net) && Sound(net, s) && k < |s.frames|
    ensures Sound(net, Step(net, s, Deliver(k))) && Progress(net, s, Step(net, s, Deliver(k)))
  {
    var f := s.frames[k];
    assert f in s.frames;
    var t := s.(frames := Without(s.frames, k));
    LossKeepsSound(net, s, k);
    SameBridgesCarry(net, s, t);
    DeliverKeepsSound(net, t, f.to.bridge, f.to.port, f.message);
  }

  /** A step that moves roles or states of one bridge and sends nothing. */
  lemma SilentChangeKeepsSound(net: Net, s: Fabric, b: nat, r: Bridge, t: Fabric)
    requires WellFormed(net) && Sound(net, s) && b < |s.bridges|
    requires Coherent(net.bridges[b], r) && SameRecords(s.bridges[b], r)
    requires t == s.(bridges := s.bridges[b := r])
    ensures Matches(net, t) && Sound(net, t) && Progress(net, s, t)
  {
    assert Act(net, s, b, r, []) == t by {
      assert Emit(net, b, []) == [] && s.frames + [] == s.frames;
    }
    QuietChangeKeepsSound(net, s, b, r, []);
  }

  lemma PromoteKeepsSound(net: Net, s: Fabric, b: nat, t: Fabric)
    requires WellFormed(net) && Sound(net, s) && b < |s.bridges| && t == Step(net, s, Promote(b))
    ensures Sound(net, t) && Progress(net, s, t)
  {
    assert BridgeSound(net, s, b);
    PromoteIsCoherent(net.bridges[b], s.bridges[b]);
    SilentChangeKeepsSound(net, s, b, PromoteAll(s.bridges[b]), t);
  }

  lemma AdvanceKeepsSound(net: Net, s: Fabric, b: nat, p: nat, t: Fabric)
    requires WellFormed(net) && Sound(net, s) && b < |s.bridges| && p < |s.bridges[b].ports| && t == Step(net, s, Advance(b, p))
    ensures Sound(net, t) && Progress(net, s, t)
  {
    assert BridgeSound(net, s, b);
    AdvanceIsCoherent(net.bridges[b], s.bridges[b], p);
    SilentChangeKeepsSound(net, s, b, AdvanceOne(s.bridges[b], p), t);
  }

  lemma StepKeepsSound(net: Net, s: Fabric, a: Action)
    requires WellFormed(net) && Sound(net, s)
    ensures Sound(net, Step(net, s, a)) && Progress(net, s, Step(net, s, a))
  {
    match a
    case Hello(b) =>
      if b < |s.bridges| {
        HelloKeepsSound(net, s, b, Step(net, s, a));
      }
    case Converge(b) =>
      if b < |s.bridges| {
        ConvergeKeepsSound(net, s, b, Step(net, s, a));
      }
    case Deliver(k) =>
      if k < |s.frames| {
        DeliverStepKeepsSound(net, s, k);
      }
    case Lose(k) =>
      if k < |s.frames| {
        LossKeepsSound(net, s, k);
      }
    case Promote(b) =>
      if b < |s.bridges| {
        PromoteKeepsSound(net, s, b, Step(net, s, a));
      }
    case Advance(b, p) =>
      if b < |s.bridges| && p < |s.bridges[b].ports| {
        AdvanceKeepsSound(net, s, b, p, Step(net, s, a));
      }
  }

  lemma StartIsSound(net: Net)
    requires WellFormed(net)
    ensures Sound(net, Start(net))
  {
    var s := Start(net);
    forall b | 0 <= b < |s.bridges| ensures BridgeSound(net, s, b) {
      FreshCoherent(net.bridges[b]);
      OriginTrace(net, s, b);
    }
  }

  /** The invariant holds after every run, and every run only improves what bridges know. */
  lemma {:induction false} ExecKeepsSound(net: Net, s: Fabric, acts: seq<Action>)
    requires WellFormed(net) && Sound(net, s)
    ensures Sound(net, Exec(net, s, acts)) && Progress(net, s, Exec(net, s, acts))
    decreases |acts|
  {
    if acts != [] {
      StepKeepsSound(net, s, acts[0]);
      ExecKeepsSound(net, Step(net, s, acts[0]), acts[1..]);
      ProgressTransitive(net, s, Step(net, s, acts[0]), Exec(net, s, acts));
    }
  }

  lemma ProgressTransitive(net: Net, s: Fabric, t: Fabric, u: Fabric)
    requires Matches(net, s) && Matches(net, t) && Matches(net, u)
    requires Progress(net, s, t) && Progress(net, t, u)
    ensures Progress(net, s, u)
  {
    forall b | 0 <= b < |s.bridges| ensures u.bridges[b].AtLeast(s.bridges[b].rootID, s.bridges[b].rootPathCost) {
      assert t.bridges[b].AtLeast(s.bridges[b].rootID, s.bridges[b].rootPathCost);
    }
  }

  /** The age limit is a horizon: in every run, what a bridge believes about its root stands for
      a walk of exactly its cost with at most ten links. */
  lemma HorizonOfTenLinks(net: Net, acts: seq<Action>, b: nat)
    requires WellFormed(net) && b < |net.bridges|
    ensures var r := Exec(net, Start(net), acts).bridges[b];
            exists w :: IsWalk(net, w) && Last(w) == b && Links(w) <= 10
                     && net.bridges[First(w)].id == r.rootID && Cost(net, w) == r.rootPathCost
  {
    EveryRunIsTraced(net, acts);
    var s := Exec(net, Start(net), acts);
    assert BridgeSound(net, s, b);
    var r := s.bridges[b];
    var w :| Witness(net, s, w, b, r.rootID, r.rootPathCost, MessageAge(r));
    assert MessageAge(r) < MAX_AGE + HELLO_TIME;
  }

  /** A bridge whose every way to r has more than ten links never believes in r, in any run, so eleven bridges
      in a row is as long as a tree can grow. */
  lemma FarRootsAreNeverLearned(net: Net, acts: seq<Action>, r: nat, b: nat)
    requires WellFormed(net) && r < |net.bridges| && b < |net.bridges|
    requires forall w :: IsWalk(net, w) && First(w) == r && Last(w) == b ==> Links(w) > 10
    ensures Exec(net, Start(net), acts).bridges[b].rootID != net.bridges[r].id
  {
    HorizonOfTenLinks(net, acts, b);
  }

  /** In every run from a fresh start, whatever is recorded, believed or in flight stands for a real walk
      of exactly that cost and age from a real bridge. */
  lemma EveryRunIsTraced(net: Net, acts: seq<Action>)
    requires WellFormed(net)
    ensures Sound(net, Exec(net, Start(net), acts))
  {
    StartIsSound(net);
    ExecKeepsSound(net, Start(net), acts);
  }
}
