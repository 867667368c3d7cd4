/** A network in which two cheapest walks to one bridge lie on either side of the age limit: what becomes of it depends on the
    run. */
module StpTies {
  import opened Wrappers
  import opened StpVector
  import opened StpBridge
  import opened StpNetwork
  import opened StpPaths
  import opened StpSafety
  import opened StpConvergence
  import opened StpMonotone
  import opened StpTree
  import opened StpSettling
  import StpRing

  // ----- The network -----

  // A line of bridges 0 to 11, and bridge 12 as a shorter way between 0 and 10 of the same cost.

  const SIZE := 13
  const TIED: nat := 10
  const FAR: nat := 11
  const SHORT: nat := 12

  predicate HasLink(e: Endpoint) {
    e.bridge < SIZE && (e.port == 0 || (e.port == 1 && e.bridge != FAR) || (e.port == 2 && e.bridge == TIED))
  }

  /** Port 0 leads back along the line and port 1 forward; bridges 0 and 10 have a port to bridge 12 as well. */
  function Across(e: Endpoint): Endpoint
    requires HasLink(e)
  {
    if e.port == 0 then
      if e.bridge == 0 then Endpoint(SHORT, 0)
      else if e.bridge == SHORT then Endpoint(0, 0)
      else Endpoint(e.bridge - 1, 1)
    else if e.port == 1 then
      if e.bridge == SHORT then Endpoint(TIED, 2) else Endpoint(e.bridge + 1, 0)
    else Endpoint(SHORT, 1)
  }

  function CostOf(e: Endpoint): nat {
    if e.port == 0 then 1 else 9
  }

  predicate Wired(net: Net, e: Endpoint)
    requires HasLink(e)
  {
    && e in net.peer && IsEndpoint(net, e) && net.peer[e] == Across(e) && IsEndpoint(net, Across(e))
    && PathCost(net, e) == CostOf(e)
  }

  ghost predicate IsTie(net: Net) {
    && WellFormed(net) && |net.bridges| == SIZE
    && (forall e: Endpoint {:trigger Wired(net, e)} :: HasLink(e) ==> Wired(net, e))
    && (forall e: Endpoint :: e in net.peer ==> HasLink(e))
    && (forall b: nat :: b < SIZE ==> net.bridges[0].id.Rank() <= net.bridges[b].id.Rank())
    && net.bridges[9].id.Rank() < net.bridges[SHORT].id.Rank()
  }

  // ----- Distances -----

  function Distance(b: nat): nat {
    if b == SHORT then 1 else b
  }

  lemma HopDistance(e: Endpoint)
    requires HasLink(e)
    ensures HasLink(Across(e)) && Across(Across(e)) == e && Across(e).bridge != e.bridge
    ensures Distance(e.bridge) <= Distance(Across(e).bridge) + CostOf(e)
    ensures Distance(e.bridge) == Distance(Across(e).bridge) + CostOf(e) ==>
              (e.port == 0 && 0 < e.bridge) || e == Endpoint(TIED, 2)
  {
  }

  /** No walk is shorter, and to the bridges before the tie the cheapest walk has one length. */
  lemma {:induction false} WalkDistance(net: Net, w: Walk)
    requires IsTie(net) && IsWalk(net, w) && First(w) == 0
    ensures Distance(Last(w)) <= Cost(net, w)
    ensures Cost(net, w) == Distance(Last(w)) && Last(w) != TIED && Last(w) != FAR ==> Links(w) == Distance(Last(w))
  {
    if w.Hop? {
      WalkDistance(net, w.prior);
      assert Wired(net, w.via);
      HopDistance(w.via);
    }
  }

  function Line(b: nat): Walk {
    if b == 0 then Origin(0) else Hop(Line(b - 1), Endpoint(b, 0))
  }

  lemma {:induction false} LineIsWalk(net: Net, b: nat)
    requires IsTie(net) && b <= FAR
    ensures IsWalk(net, Line(b)) && First(Line(b)) == 0 && Last(Line(b)) == b && Cost(net, Line(b)) == b
  {
    if b > 0 {
      LineIsWalk(net, b - 1);
      assert Wired(net, Endpoint(b, 0));
    }
  }

  lemma SomeWalk(net: Net, b: nat) returns (w: Walk)
    requires IsTie(net) && b < SIZE
    ensures IsWalk(net, w) && First(w) == 0 && Last(w) == b && Cost(net, w) == Distance(b)
  {
    if b == SHORT {
      w := Hop(Origin(0), Endpoint(SHORT, 0));
      assert Wired(net, Endpoint(SHORT, 0));
    } else {
      LineIsWalk(net, b);
      w := Line(b);
    }
  }

  lemma RootIsBest(net: Net, b: nat)
    requires IsTie(net) && b < SIZE
    ensures BestFor(net, 0, b)
  {
    var w := SomeWalk(net, b);
  }

  lemma BestCost(net: Net, w: Walk)
    requires IsTie(net) && BestWalk(net, w)
    ensures First(w) == 0 && Cost(net, w) == Distance(Last(w))
  {
    RootIsBest(net, Last(w));
    BestIsUnique(net, First(w), 0, Last(w));
    var v := SomeWalk(net, Last(w));
    WalkDistance(net, w);
  }

  lemma CheapIsBest(net: Net, w: Walk)
    requires IsTie(net) && IsWalk(net, w) && First(w) == 0 && Cost(net, w) == Distance(Last(w))
    ensures BestWalk(net, w)
  {
    RootIsBest(net, Last(w));
    forall v | IsWalk(net, v) && First(v) == First(w) && Last(v) == Last(w) ensures Cost(net, w) <= Cost(net, v) {
      WalkDistance(net, v);
    }
  }

  lemma {:induction false} LineLinks(b: nat)
    ensures Links(Line(b)) == b && Last(Line(b)) == b
  {
    if b > 0 {
      LineLinks(b - 1);
    }
  }

  lemma LongWay(net: Net, b: nat)
    requires IsTie(net) && b <= FAR
    ensures BestWalk(net, Line(b)) && Last(Line(b)) == b && Links(Line(b)) == b
  {
    LineIsWalk(net, b);
    LineLinks(b);
    CheapIsBest(net, Line(b));
  }

  lemma ShortWay(net: Net) returns (w: Walk)
    requires IsTie(net)
    ensures BestWalk(net, w) && Last(w) == TIED && Links(w) == 2
  {
    var first := SomeWalk(net, SHORT);
    WalkDistance(net, first);
    w := Hop(first, Endpoint(TIED, 2));
    assert Wired(net, Endpoint(TIED, 2));
    CheapIsBest(net, w);
  }

  /** Bridge 10 is ten links out on one cheapest walk and two on another, and bridge 11 one link further on both. */
  lemma LimitIsStraddled(net: Net)
    requires IsTie(net)
    ensures !Within(net, TIED, 9) && !Beyond(net, TIED, 9) && !Within(net, FAR, 10) && !Beyond(net, FAR, 10)
  {
    var b := FAR;
    LongWay(net, b - 1);
    LongWay(net, b);
    var short := ShortWay(net);
    BestWalkExtends(net, Line(b));
    assert BestWalk(net, Hop(short, Line(b).via)) && Last(Hop(short, Line(b).via)) == FAR;
    assert Links(Hop(short, Line(b).via)) == 3;
  }

  // ----- What a sound state can say -----

  /** A bridge that says no more than the true distance knows exactly that, from a walk of one length before the tie. */
  lemma KnownExactly(net: Net, s: Fabric, b: nat)
    requires IsTie(net) && Sound(net, s) && b < SIZE && s.bridges[b].AtLeast(net.bridges[0].id, Distance(b))
    ensures Exact(net, s, b) && s.bridges[b].rootID == net.bridges[0].id && s.bridges[b].rootPathCost as int == Distance(b)
    ensures b != TIED && b != FAR ==> MessageAge(s.bridges[b]) == Distance(b) * HELLO_TIME
  {
    var w := SomeWalk(net, b);
    CheapIsBest(net, w);
    WalkIsExact(net, s, w);
    KnowingIsExact(net, s, w);
    RootIsBest(net, b);
    var v := ExactWitness(net, s, 0, b);
    BestCost(net, v);
    WalkDistance(net, v);
  }

  lemma NeverTooGood(net: Net, s: Fabric, b: nat, cost: nat)
    requires IsTie(net) && Sound(net, s) && b < SIZE && s.bridges[b].AtLeast(net.bridges[0].id, cost)
    ensures Distance(b) <= cost
  {
    var w := SomeWalk(net, b);
    CheapIsBest(net, w);
    SoundIsNoBetter(net, s, w);
    RankInjective(s.bridges[b].rootID, net.bridges[0].id);
  }

  /** A record of the root at the true distance of its sender, before the tie, is as old as the one walk is long. */
  lemma RecordAge(net: Net, s: Fabric, e: Endpoint)
    requires IsTie(net) && Sound(net, s) && HasLink(e) && Across(e).bridge != TIED && Across(e).bridge != FAR
    requires IsEndpoint(net, e) && PortAt(s, e).received.Some?
    requires var v := PortAt(s, e).received.value.vector;
             v.rootID == net.bridges[0].id && v.rootPathCost as int == Distance(Across(e).bridge)
    ensures PortAt(s, e).received.value.age == Distance(Across(e).bridge) * HELLO_TIME
  {
    assert Wired(net, e);
    assert BridgeSound(net, s, e.bridge);
    var m := PortAt(s, e).received.value;
    assert SentToward(net, s, e, m);
    var v :| Witness(net, s, v, Across(e).bridge, m.vector.rootID, m.vector.rootPathCost, m.age);
    SameBridge(net, First(v), 0);
    WalkDistance(net, v);
  }

  // ----- Teaching a peer: a hello and one delivery -----

  /** The only record that differs is the one at e, and the only bridge. */
  ghost predicate OnlyAt(net: Net, s: Fabric, t: Fabric, e: Endpoint)
    requires Matches(net, s) && Matches(net, t)
  {
    && (forall b :: 0 <= b < |s.bridges| && b != e.bridge ==> t.bridges[b] == s.bridges[b])
    && (forall x :: IsEndpoint(net, x) && x != e ==> PortAt(t, x).received == PortAt(s, x).received)
  }

  /** From s to t by way of m: f's bridge says hello and the frame for f's link is delivered. */
  ghost predicate Teaches(net: Net, s: Fabric, m: Fabric, t: Fabric, f: Endpoint, k: nat)
    requires Matches(net, s)
  {
    && f in net.peer && IsEndpoint(net, f) && IsEndpoint(net, net.peer[f])
    && m == Step(net, s, Hello(f.bridge)) && t == Step(net, m, Deliver(k))
    && k < |m.frames| && m.frames[k] == HelloFrame(net, s, f)
  }

  lemma Teach(net: Net, s: Fabric, f: Endpoint) returns (m: Fabric, t: Fabric, k: nat)
    requires WellFormed(net) && Sound(net, s) && f in net.peer && Advertises(s.bridges[f.bridge], f.port)
    ensures Teaches(net, s, m, t, f, k) && Sound(net, m) && Sound(net, t) && m.bridges == s.bridges
    ensures Holds(net, t, HelloFrame(net, s, f)) && OnlyAt(net, s, t, net.peer[f])
  {
    m, k := HelloGoesOut(net, s, f);
    t := Step(net, m, Deliver(k));
    StepKeepsSound(net, m, Deliver(k));
    DeliveryTeaches(net, m, t, HelloFrame(net, s, f), k);
    OnlyReadsBridges(net, s, m, t, net.peer[f]);
  }

  lemma HelloGoesOut(net: Net, s: Fabric, f: Endpoint) returns (m: Fabric, k: nat)
    requires WellFormed(net) && Sound(net, s) && f in net.peer && Advertises(s.bridges[f.bridge], f.port)
    ensures m == Step(net, s, Hello(f.bridge)) && m.bridges == s.bridges && Sound(net, m)
    ensures k < |m.frames| && m.frames[k] == HelloFrame(net, s, f)
    ensures IsEndpoint(net, f) && IsEndpoint(net, net.peer[f])
    ensures !Ignored(net.bridges[net.peer[f].bridge], HelloFrame(net, s, f).message)
  {
    m := Step(net, s, Hello(f.bridge));
    HelloSends(net, s, f);
    StepKeepsSound(net, s, Hello(f.bridge));
    k :| 0 <= k < |m.frames| && m.frames[k] == HelloFrame(net, s, f);
  }

  lemma OnlyReadsBridges(net: Net, s: Fabric, m: Fabric, t: Fabric, e: Endpoint)
    requires Matches(net, s) && Matches(net, m) && Matches(net, t) && m.bridges == s.bridges && OnlyAt(net, m, t, e)
    ensures OnlyAt(net, s, t, e)
  {
  }

  lemma DeliveryTeaches(net: Net, m: Fabric, t: Fabric, g: Frame, k: nat)
    requires Matches(net, m) && k < |m.frames| && m.frames[k] == g && IsEndpoint(net, g.to)
    requires !Ignored(net.bridges[g.to.bridge], g.message) && t == Step(net, m, Deliver(k))
    ensures Holds(net, t, g) && OnlyAt(net, m, t, g.to)
  {
    var b := g.to.bridge;
    DeliveredIsRecorded(net.bridges[b], m.bridges[b], g.to.port, g.message);
    ReceiveRecords(net.bridges[b], m.bridges[b], g.to.port, g.message);
  }

  /** What the peer then holds is the teacher's own vector. */
  lemma TaughtExactly(net: Net, s: Fabric, m: Fabric, t: Fabric, f: Endpoint, k: nat)
    requires WellFormed(net) && Sound(net, s) && Sound(net, t) && Teaches(net, s, m, t, f, k)
    requires Holds(net, t, HelloFrame(net, s, f)) && OnlyAt(net, s, t, net.peer[f])
    ensures Taught(net, t, f) && OwnAt(net, t, f) == OwnAt(net, s, f)
    ensures t.bridges[net.peer[f].bridge].AtLeast(s.bridges[f.bridge].rootID, s.bridges[f.bridge].rootPathCost + PathCost(net, net.peer[f]))
  {
    assert t.bridges[f.bridge] == s.bridges[f.bridge];
    RecordIsPeersAtBest(net, t, f);
    HeldBoundsBridge(net, t, net.peer[f], HelloFrame(net, s, f));
  }

  // ----- A port that never hears of the root -----

  /** The port e has no record of the root, none is on its way that is young enough to be recorded, and its peer's bridge
      does not know the root or knows it from too far away to say. */
  ghost predicate Deaf(net: Net, s: Fabric, e: Endpoint, root: BridgeID)
    requires Matches(net, s)
  {
    && e in net.peer && IsEndpoint(net, e) && IsEndpoint(net, net.peer[e])
    && (PortAt(s, e).received.Some? ==> PortAt(s, e).received.value.vector.rootID != root)
    && (forall g :: g in s.frames && g.to == e && g.message.vector.rootID == root ==> g.message.age >= MAX_AGE)
    && MuteAbout(s.bridges[net.peer[e].bridge], root)
  }

  predicate MuteAbout(b: Bridge, root: BridgeID) {
    b.rootID == root ==> MessageAge(b) >= MAX_AGE
  }

  /** The frame was sent by bridge b as it is now. */
  ghost predicate SentBy(net: Net, t: Fabric, g: Frame, b: nat)
    requires Matches(net, t)
  {
    && b < |net.bridges|
    && exists p: nat :: && p < |net.bridges[b].ports| && Endpoint(b, p) in net.peer && g.to == net.peer[Endpoint(b, p)]
                        && g.message == Message(Own(net.bridges[b], t.bridges[b], p), MessageAge(t.bridges[b]))
  }

  lemma EmittedIsSent(net: Net, t: Fabric, b: nat, out: seq<Outgoing>, g: Frame)
    requires Matches(net, t) && b < |net.bridges| && OwnMessages(net.bridges[b], t.bridges[b], out) && g in Emit(net, b, out)
    ensures SentBy(net, t, g, b)
  {
    var o :| o in out && Endpoint(b, o.port) in net.peer && g == Frame(net.peer[Endpoint(b, o.port)], o.message);
  }

  /** A new frame was sent by the bridge that the step is about, as it is after the step. */
  lemma StepEmits(net: Net, s: Fabric, a: Action, g: Frame) returns (b: nat)
    requires Matches(net, s) && g in Step(net, s, a).frames && g !in s.frames
    ensures SentBy(net, Step(net, s, a), g, b)
  {
    var t := Step(net, s, a);
    match a
    case Hello(x) =>
      b := x;
      EmittedIsSent(net, t, b, Collect(net.bridges[b], s.bridges[b], |s.bridges[b].ports|), g);
    case Converge(x) =>
      b := x;
      EmittedIsSent(net, t, b, Collect(net.bridges[b], t.bridges[b], |t.bridges[b].ports|), g);
    case Deliver(k) =>
      b := s.frames[k].to.bridge;
      var i, m := s.frames[k].to.port, s.frames[k].message;
      assert g !in Without(s.frames, k);
      ResponsesAreOwn(net.bridges[b], s.bridges[b], i, m);
      EmittedIsSent(net, t, b, Responses(net.bridges[b], s.bridges[b], i, m), g);
  }

  lemma StepKeepsDeaf(net: Net, s: Fabric, a: Action, e: Endpoint, root: BridgeID)
    requires WellFormed(net) && Matches(net, s) && Deaf(net, s, e, root)
    requires MuteAbout(Step(net, s, a).bridges[net.peer[e].bridge], root)
    ensures Deaf(net, Step(net, s, a), e, root)
  {
    var t := Step(net, s, a);
    forall g | g in t.frames && g.to == e && g.message.vector.rootID == root ensures g.message.age >= MAX_AGE {
      if g !in s.frames {
        var b := StepEmits(net, s, a, g);
        var p: nat :| p < |net.bridges[b].ports| && Endpoint(b, p) in net.peer && g.to == net.peer[Endpoint(b, p)]
          && g.message == Message(Own(net.bridges[b], t.bridges[b], p), MessageAge(t.bridges[b]));
        assert net.peer[net.peer[Endpoint(b, p)]] == Endpoint(b, p);
      }
    }
    StepRecordsFrame(net, s, a, e);
  }

  /** A record comes from a frame that was in flight, or was there. */
  lemma StepRecordsFrame(net: Net, s: Fabric, a: Action, e: Endpoint)
    requires Matches(net, s) && IsEndpoint(net, e)
    ensures var r := PortAt(Step(net, s, a), e).received;
            r == PortAt(s, e).received || exists g :: g in s.frames && g.to == e && r == Some(g.message) && g.message.age < MAX_AGE
  {
    if a.Deliver? && a.index < |s.frames| && IsEndpoint(net, s.frames[a.index].to) {
      var g := s.frames[a.index];
      ReceiveRecords(net.bridges[g.to.bridge], s.bridges[g.to.bridge], g.to.port, g.message);
      assert g in s.frames;
    }
  }

  // ----- A run that takes the long way first -----

  /** Bridge 10 has the root at its true distance from bridge 9, at the end of the line. */
  ghost predicate LineTaken(net: Net, s: Fabric)
    requires IsTie(net) && Matches(net, s)
  {
    var e := Endpoint(TIED, 0);
    && Wired(net, e) && PortAt(s, e).received.Some?
    && PortAt(s, e).received.value.vector.rootID == net.bridges[0].id && PortAt(s, e).received.value.vector.rootPathCost == 9
  }

  /** Then its other offer is no better, so it stays with the line, and is too far out to say what it knows. */
  lemma LineWins(net: Net, s: Fabric)
    requires IsTie(net) && Sound(net, s) && LineTaken(net, s)
    ensures s.bridges[TIED].rootPort == Some(0) && MessageAge(s.bridges[TIED]) == MAX_AGE
  {
    var c, b := net.bridges[TIED], s.bridges[TIED];
    assert BridgeSound(net, s, TIED);
    RecordBoundsBridge(c, b, 0, net.bridges[0].id, 9);
    KnownExactly(net, s, TIED);
    DifferentBridges(net, 0, TIED);
    var e, m := RootRecord(net, s, TIED, b);
    assert e.port == 0 by {
      RootPortIsZero(net, s, e, m);
    }
    RecordAge(net, s, e);
  }

  lemma RootPortIsZero(net: Net, s: Fabric, e: Endpoint, m: Message)
    requires IsTie(net) && Sound(net, s) && LineTaken(net, s)
    requires e.bridge == TIED && s.bridges[TIED].rootPort == Some(e.port) && e.port < |s.bridges[TIED].ports|
    requires SentToward(net, s, e, m) && PortAt(s, e).received == Some(m)
    requires m.vector.rootID == net.bridges[0].id && m.vector.rootPathCost + PathCost(net, e) == 10
    requires s.bridges[TIED].rootID == net.bridges[0].id
    ensures e.port == 0
  {
    assert HasLink(e) && Wired(net, e);
    if e.port == 1 {
      FarOffersNothing(net, s, m);
    } else if e.port == 2 {
      LineOfferIsBetter(net, s, m);
    }
  }

  lemma FarOffersNothing(net: Net, s: Fabric, m: Message)
    requires IsTie(net) && Sound(net, s) && SentToward(net, s, Endpoint(TIED, 1), m) && m.vector.rootID == net.bridges[0].id
    ensures m.vector.rootPathCost >= 11
  {
    assert Wired(net, Endpoint(TIED, 1));
    NeverTooGood(net, s, FAR, m.vector.rootPathCost);
  }

  lemma LineOfferIsBetter(net: Net, s: Fabric, m: Message)
    requires IsTie(net) && Sound(net, s) && LineTaken(net, s) && s.bridges[TIED].rootID == net.bridges[0].id
    requires IsEndpoint(net, Endpoint(TIED, 2)) && PortAt(s, Endpoint(TIED, 2)).received == Some(m) && SentToward(net, s, Endpoint(TIED, 2), m)
    requires m.vector.rootID == net.bridges[0].id && m.vector.rootPathCost == 1
    ensures s.bridges[TIED].rootPort != Some(2)
  {
    var c, b := net.bridges[TIED], s.bridges[TIED];
    assert BridgeSound(net, s, TIED);
    assert Wired(net, Endpoint(TIED, 0)) && Wired(net, Endpoint(TIED, 2));
    var line := b.ports[0].received.value;
    assert SentToward(net, s, Endpoint(TIED, 0), line);
    RecordCostExact(net, s, TIED, b, 0);
    RecordCostExact(net, s, TIED, b, 2);
    assert Candidate(c, b.ports, 0).Superior(Candidate(c, b.ports, 2));
    assert Leads(b.ports, b.rootID, 0);
  }

  lemma LineStaysTaken(net: Net, s: Fabric, t: Fabric)
    requires IsTie(net) && Matches(net, s) && Sound(net, t) && AllRecordsImprove(s, t) && LineTaken(net, s)
    ensures LineTaken(net, t)
  {
    var e := Endpoint(TIED, 0);
    assert RecordsImprove(s.bridges[TIED], t.bridges[TIED]);
    assert BridgeSound(net, t, TIED);
    var m := PortAt(t, e).received.value;
    assert SentToward(net, t, e, m);
    var v :| Witness(net, t, v, 9, m.vector.rootID, m.vector.rootPathCost, m.age);
    RankInjective(m.vector.rootID, net.bridges[0].id);
    if m.vector.rootID == net.bridges[0].id {
      NineLinksAtLeast(net, v);
    }
  }

  lemma NineLinksAtLeast(net: Net, v: Walk)
    requires IsTie(net) && IsWalk(net, v) && Last(v) == 9 && net.bridges[First(v)].id == net.bridges[0].id
    ensures Cost(net, v) >= 9
  {
    SameBridge(net, First(v), 0);
    WalkDistance(net, v);
  }

  /** Bridge 10 is on the line for good, and bridge 11 will never hear of the root. */
  ghost predicate Stuck(net: Net, s: Fabric)
    requires IsTie(net)
  {
    Sound(net, s) && LineTaken(net, s) && Deaf(net, s, Endpoint(FAR, 0), net.bridges[0].id)
  }

  lemma StepStaysStuck(net: Net, s: Fabric, a: Action)
    requires IsTie(net) && Stuck(net, s)
    ensures Stuck(net, Step(net, s, a))
  {
    StepKeepsSound(net, s, a);
    StepImprovesRecords(net, s, a);
    LineStaysTaken(net, s, Step(net, s, a));
    LineWins(net, Step(net, s, a));
    assert Wired(net, Endpoint(FAR, 0));
    StepKeepsDeaf(net, s, a, Endpoint(FAR, 0), net.bridges[0].id);
  }

  lemma {:induction false} RunStaysStuck(net: Net, s: Fabric, acts: seq<Action>)
    requires IsTie(net) && Stuck(net, s)
    ensures Stuck(net, Exec(net, s, acts))
    decreases |acts|
  {
    if acts != [] {
      StepStaysStuck(net, s, acts[0]);
      RunStaysStuck(net, Step(net, s, acts[0]), acts[1..]);
    }
  }

  lemma StuckIsLost(net: Net, s: Fabric)
    requires IsTie(net) && Stuck(net, s)
    ensures !KnowsBest(net, s, 0, FAR) && !Settled(net, s)
  {
    DeafDoesNotKnow(net, s);
    if Settled(net, s) {
      RootIsBest(net, FAR);
      SettledFindsShortestPaths(net, s, 0, FAR);
    }
  }

  lemma DeafDoesNotKnow(net: Net, s: Fabric)
    requires IsTie(net) && Sound(net, s) && Deaf(net, s, Endpoint(FAR, 0), net.bridges[0].id)
    ensures s.bridges[FAR].rootID != net.bridges[0].id
  {
    if s.bridges[FAR].rootID == net.bridges[0].id {
      RootComesByItsLink(net, s);
    }
  }

  lemma RootComesByItsLink(net: Net, s: Fabric)
    requires IsTie(net) && Sound(net, s) && s.bridges[FAR].rootID == net.bridges[0].id
    ensures var e := Endpoint(FAR, 0);
            IsEndpoint(net, e) && PortAt(s, e).received.Some? && PortAt(s, e).received.value.vector.rootID == net.bridges[0].id
  {
    assert BridgeSound(net, s, FAR);
    DifferentBridges(net, 0, FAR);
    var e, m := RootRecord(net, s, FAR, s.bridges[FAR]);
    assert HasLink(e);
  }

  /** A bridge of the line at its true distance says so to the next one. */
  lemma LineAdvertises(net: Net, s: Fabric, i: nat)
    requires IsTie(net) && Sound(net, s) && i <= 9 && s.bridges[i].AtLeast(net.bridges[0].id, i)
    ensures IsEndpoint(net, Endpoint(i, 1)) && Advertises(s.bridges[i], 1)
  {
    assert Wired(net, Endpoint(i, 1));
    KnownExactly(net, s, i);
    LineDesignates(net, s, i);
    RoleIsNotDisabled(net, s, Endpoint(i, 1));
  }

  lemma LineDesignates(net: Net, s: Fabric, i: nat)
    requires IsTie(net) && Sound(net, s) && i <= 9 && Wired(net, Endpoint(i, 1))
    requires s.bridges[i].rootID == net.bridges[0].id && s.bridges[i].rootPathCost as int == i
    ensures s.bridges[i].ports[1].role == RoleDesignated
  {
    if s.bridges[i].ports[1].role != RoleDesignated {
      UndesignatedPeerKnows(net, s, Endpoint(i, 1));
      NeverTooGood(net, s, i + 1, i);
    }
  }

  lemma RoleIsNotDisabled(net: Net, s: Fabric, e: Endpoint)
    requires Sound(net, s) && IsEndpoint(net, e)
    ensures PortAt(s, e).state != StateDisabled
  {
    assert BridgeSound(net, s, e.bridge);
  }

  lemma ExecTwoMore(net: Net, acts: seq<Action>, s: Fabric, a: Action, b: Action)
    requires Matches(net, s) && Exec(net, Start(net), acts) == s
    ensures Exec(net, Start(net), acts + [a, b]) == Step(net, Step(net, s, a), b)
  {
    var all := acts + [a, b];
    ExecSplits(net, Start(net), all, |acts|);
    assert all[..|acts|] == acts && all[|acts|..] == [a, b];
    ExecTwo(net, s, a, b);
  }

  lemma ExecTwo(net: Net, s: Fabric, a: Action, b: Action)
    requires Matches(net, s)
    ensures Exec(net, s, [a, b]) == Step(net, Step(net, s, a), b)
  {
    var m := Step(net, s, a);
    assert [a, b][1..] == [b] && [b][1..] == [];
    assert Exec(net, m, [b]) == Exec(net, Step(net, m, b), []);
  }

  lemma StartIsDeaf(net: Net)
    requires IsTie(net)
    ensures Sound(net, Start(net)) && Start(net).bridges[0].AtLeast(net.bridges[0].id, 0)
    ensures Deaf(net, Start(net), Endpoint(FAR, 0), net.bridges[0].id)
  {
    StartIsSound(net);
    assert Wired(net, Endpoint(FAR, 0));
    DifferentBridges(net, 0, TIED);
  }

  /** News of the root has come along the line to bridge i, and nothing has reached bridge 10. */
  ghost predicate OnLine(net: Net, s: Fabric, i: nat)
    requires IsTie(net) && i <= 9
  {
    && Sound(net, s) && s.bridges[i].AtLeast(net.bridges[0].id, i)
    && s.bridges[TIED] == Start(net).bridges[TIED] && Deaf(net, s, Endpoint(FAR, 0), net.bridges[0].id)
  }

  /** The run that brings the network there. */
  ghost predicate RunsTo(net: Net, acts: seq<Action>, s: Fabric, i: nat)
    requires IsTie(net) && i <= 9
  {
    forall t :: t == s ==> t == Exec(net, Start(net), acts) && OnLine(net, t, i)
  }

  lemma RunsToFirst(net: Net) returns (acts: seq<Action>, s: Fabric)
    requires IsTie(net)
    ensures RunsTo(net, acts, s, 0)
  {
    acts, s := [], Start(net);
    StartIsOnLine(net, s);
    RunsToIs(net, acts, s, 0);
  }

  lemma StartIsOnLine(net: Net, s: Fabric)
    requires IsTie(net) && s == Start(net)
    ensures s == Exec(net, Start(net), []) && OnLine(net, s, 0)
  {
    StartIsDeaf(net);
  }

  lemma RunsToIs(net: Net, acts: seq<Action>, s: Fabric, i: nat)
    requires IsTie(net) && i <= 9
    ensures RunsTo(net, acts, s, i) <==> s == Exec(net, Start(net), acts) && OnLine(net, s, i)
  {
    if RunsTo(net, acts, s, i) {
      assert OnLine(net, s, i);
    }
  }

  lemma RunsToNext(net: Net, before: seq<Action>, r: Fabric, i: nat) returns (acts: seq<Action>, s: Fabric)
    requires IsTie(net) && i <= 8 && RunsTo(net, before, r, i)
    ensures RunsTo(net, acts, s, i + 1)
  {
    RunsToIs(net, before, r, i);
    var k;
    s, k := NextOnLine(net, r, i);
    acts := before + [Hello(i), Deliver(k)];
    ExecTwoMore(net, before, r, Hello(i), Deliver(k));
    RunsToIs(net, acts, s, i + 1);
  }

  lemma {:induction false} AlongLine(net: Net, i: nat) returns (acts: seq<Action>, s: Fabric)
    requires IsTie(net) && i <= 9
    ensures RunsTo(net, acts, s, i)
  {
    if i == 0 {
      acts, s := RunsToFirst(net);
    } else {
      acts, s := AlongLine(net, i - 1);
      acts, s := RunsToNext(net, acts, s, i - 1);
    }
  }

  /** A bridge of the line teaches the next. */
  lemma TeachOnLine(net: Net, s: Fabric, i: nat) returns (m: Fabric, t: Fabric, k: nat)
    requires IsTie(net) && Sound(net, s) && i <= 9 && s.bridges[i].AtLeast(net.bridges[0].id, i)
    ensures m == Step(net, s, Hello(i)) && t == Step(net, m, Deliver(k)) && Sound(net, t)
    ensures m.bridges == s.bridges && OnlyAt(net, s, t, Endpoint(i + 1, 0))
    ensures t.bridges[i + 1].AtLeast(net.bridges[0].id, i + 1)
    ensures Wired(net, Endpoint(i, 1)) && Taught(net, t, Endpoint(i, 1))
  {
    var f := Endpoint(i, 1);
    assert Wired(net, f) && Wired(net, Endpoint(i + 1, 0));
    LineAdvertises(net, s, i);
    m, t, k := Teach(net, s, f);
    TaughtExactly(net, s, m, t, f, k);
  }

  lemma OwnOnLine(net: Net, s: Fabric, i: nat, t: Fabric)
    requires IsTie(net) && Sound(net, s) && i <= 9 && s.bridges[i].AtLeast(net.bridges[0].id, i)
    requires Matches(net, t) && Wired(net, Endpoint(i, 1)) && t.bridges[i] == s.bridges[i]
    ensures OwnAt(net, t, Endpoint(i, 1)).rootID == net.bridges[0].id && OwnAt(net, t, Endpoint(i, 1)).rootPathCost as int == i
  {
    KnownExactly(net, s, i);
  }

  lemma StaysDeaf(net: Net, s: Fabric, i: nat, m: Fabric, t: Fabric, k: nat)
    requires IsTie(net) && Matches(net, s) && Deaf(net, s, Endpoint(FAR, 0), net.bridges[0].id)
    requires m == Step(net, s, Hello(i)) && t == Step(net, m, Deliver(k)) && m.bridges == s.bridges
    requires MuteAbout(t.bridges[TIED], net.bridges[0].id)
    ensures Deaf(net, t, Endpoint(FAR, 0), net.bridges[0].id)
  {
    assert Wired(net, Endpoint(FAR, 0));
    StepKeepsDeaf(net, s, Hello(i), Endpoint(FAR, 0), net.bridges[0].id);
    StepKeepsDeaf(net, m, Deliver(k), Endpoint(FAR, 0), net.bridges[0].id);
  }

  lemma NextOnLine(net: Net, s: Fabric, i: nat) returns (t: Fabric, k: nat)
    requires IsTie(net) && i <= 8 && OnLine(net, s, i)
    ensures t == Step(net, Step(net, s, Hello(i)), Deliver(k)) && OnLine(net, t, i + 1)
  {
    var m;
    m, t, k := TeachOnLine(net, s, i);
    DifferentBridges(net, 0, TIED);
    StaysDeaf(net, s, i, m, t, k);
  }

  lemma LastOnLine(net: Net, s: Fabric) returns (t: Fabric, k: nat)
    requires IsTie(net) && OnLine(net, s, 9)
    ensures t == Step(net, Step(net, s, Hello(9)), Deliver(k)) && Stuck(net, t)
  {
    var m;
    m, t, k := TeachOnLine(net, s, 9);
    OwnOnLine(net, s, 9, t);
    assert Wired(net, Endpoint(TIED, 0));
    LineWins(net, t);
    StaysDeaf(net, s, 9, m, t, k);
  }

  /** The long way is heard first. */
  lemma LongWayFirst(net: Net) returns (acts: seq<Action>)
    requires IsTie(net)
    ensures Stuck(net, Exec(net, Start(net), acts))
  {
    var before, s := AlongLine(net, 9);
    RunsToIs(net, before, s, 9);
    var t, k := LastOnLine(net, s);
    acts := before + [Hello(9), Deliver(k)];
    ExecTwoMore(net, before, s, Hello(9), Deliver(k));
  }

  // ----- A run that takes the short way first -----

  /** A port that has heard nothing is designated. */
  lemma UnheardIsDesignated(net: Net, s: Fabric, e: Endpoint)
    requires Sound(net, s) && IsEndpoint(net, e) && PortAt(s, e).received == None
    ensures PortAt(s, e).role == RoleDesignated && PortAt(s, e).state != StateDisabled
  {
    assert BridgeSound(net, s, e.bridge);
    assert PortAt(s, e).role == RoleFor(net.bridges[e.bridge], s.bridges[e.bridge], e.port);
  }

  /** Bridge 12 has heard the root, and its port to bridge 10 and all ports of bridge 10 have heard nothing. */
  ghost predicate ShortKnows(net: Net, s: Fabric)
    requires IsTie(net)
  {
    && Sound(net, s) && s.bridges[SHORT].AtLeast(net.bridges[0].id, 1)
    && Wired(net, Endpoint(SHORT, 1)) && PortAt(s, Endpoint(SHORT, 1)).received == None
    && (forall e :: IsEndpoint(net, e) && e.bridge == TIED ==> PortAt(s, e).received == None)
  }

  lemma TeachShort(net: Net) returns (acts: seq<Action>, t: Fabric)
    requires IsTie(net)
    ensures t == Exec(net, Start(net), acts) && ShortKnows(net, t)
  {
    var f := Endpoint(0, 0);
    assert Wired(net, f) && Wired(net, Endpoint(SHORT, 0)) && Wired(net, Endpoint(SHORT, 1));
    StartIsSound(net);
    StartAdvertises(net, f);
    var m, k;
    m, t, k := Teach(net, Start(net), f);
    TaughtExactly(net, Start(net), m, t, f, k);
    StillUnheard(net, t, Endpoint(SHORT, 0));
    acts := [Hello(0), Deliver(k)];
    ExecTwo(net, Start(net), Hello(0), Deliver(k));
  }

  lemma StartAdvertises(net: Net, f: Endpoint)
    requires IsEndpoint(net, f)
    ensures Advertises(Start(net).bridges[f.bridge], f.port)
  {
  }

  lemma StillUnheard(net: Net, t: Fabric, e: Endpoint)
    requires Matches(net, t) && OnlyAt(net, Start(net), t, e)
    ensures forall x :: IsEndpoint(net, x) && x != e ==> PortAt(t, x).received == None
  {
    forall x | IsEndpoint(net, x) ensures PortAt(Start(net), x).received == None {
    }
  }

  /** Bridge 10 has heard bridge 12 and nobody else. */
  ghost predicate TiedKnows(net: Net, s: Fabric)
    requires IsTie(net)
  {
    && Sound(net, s) && s.bridges[TIED].AtLeast(net.bridges[0].id, 10)
    && Wired(net, Endpoint(SHORT, 1)) && Wired(net, Endpoint(TIED, 2)) && Taught(net, s, Endpoint(SHORT, 1))
    && OwnAt(net, s, Endpoint(SHORT, 1)).rootID == net.bridges[0].id && OwnAt(net, s, Endpoint(SHORT, 1)).rootPathCost == 1
    && (forall e :: IsEndpoint(net, e) && e.bridge == TIED && e.port != 2 ==> PortAt(s, e).received == None)
  }

  lemma TeachTied(net: Net, s: Fabric) returns (m: Fabric, t: Fabric, k: nat)
    requires IsTie(net) && ShortKnows(net, s)
    ensures m == Step(net, s, Hello(SHORT)) && t == Step(net, m, Deliver(k)) && TiedKnows(net, t)
  {
    var f := Endpoint(SHORT, 1);
    assert Wired(net, Endpoint(TIED, 2));
    UnheardIsDesignated(net, s, f);
    KnownExactly(net, s, SHORT);
    m, t, k := Teach(net, s, f);
    TaughtExactly(net, s, m, t, f, k);
  }

  /** What it knows it knows from there, so it is young enough to send. */
  lemma TiedIsYoung(net: Net, s: Fabric)
    requires IsTie(net) && TiedKnows(net, s)
    ensures IsEndpoint(net, Endpoint(TIED, 1)) && Advertises(s.bridges[TIED], 1)
  {
    assert Wired(net, Endpoint(TIED, 1));
    UnheardIsDesignated(net, s, Endpoint(TIED, 1));
    KnownExactly(net, s, TIED);
    TiedAge(net, s);
  }

  lemma TiedAge(net: Net, s: Fabric)
    requires IsTie(net) && TiedKnows(net, s) && s.bridges[TIED].rootID == net.bridges[0].id
    ensures MessageAge(s.bridges[TIED]) == 2 * HELLO_TIME
  {
    assert BridgeSound(net, s, TIED);
    DifferentBridges(net, 0, TIED);
    var e, m := RootRecord(net, s, TIED, s.bridges[TIED]);
    assert e == Endpoint(TIED, 2);
    RecordAge(net, s, e);
  }

  /** The short way is heard first, and bridge 11 hears of it. */
  lemma ShortWayFirst(net: Net) returns (acts: seq<Action>)
    requires IsTie(net)
    ensures var s := Exec(net, Start(net), acts);
            Sound(net, s) && Exact(net, s, TIED) && Taught(net, s, Endpoint(TIED, 1))
  {
    var first, a := TeachShort(net);
    var m, b, k := TeachTied(net, a);
    ExecTwoMore(net, first, a, Hello(SHORT), Deliver(k));
    var second := first + [Hello(SHORT), Deliver(k)];
    TiedIsYoung(net, b);
    KnownExactly(net, b, TIED);
    assert Wired(net, Endpoint(TIED, 1));
    var n, c, j := Teach(net, b, Endpoint(TIED, 1));
    TaughtExactly(net, b, n, c, Endpoint(TIED, 1), j);
    KnownExactly(net, c, TIED);
    ExecTwoMore(net, second, b, Hello(TIED), Deliver(j));
    acts := second + [Hello(TIED), Deliver(j)];
  }

  lemma {:induction false} RoundsImproveRecords(net: Net, s: Fabric, rounds: seq<seq<Action>>)
    requires WellFormed(net) && Sound(net, s)
    ensures AllRecordsImprove(s, ExecRounds(net, s, rounds))
    decreases |rounds|
  {
    if rounds != [] {
      var t := Exec(net, s, rounds[0]);
      ExecKeepsSound(net, s, rounds[0]);
      ExecImprovesRecords(net, s, rounds[0]);
      RoundsImproveRecords(net, t, rounds[1..]);
      ImprovementIsTransitive(s, t, ExecRounds(net, s, rounds));
    }
  }

  /** The better end of a link is before the tie, or it is bridge 10 on its link to bridge 11. */
  lemma BetterEndIsNear(net: Net, f: Endpoint)
    requires IsTie(net) && f in net.peer && BetterEnd(net, f)
    ensures f == Endpoint(TIED, 1) || (f.bridge != TIED && f.bridge != FAR)
  {
    assert HasLink(f) && Wired(net, f);
    var v := BestWalkExists(net, f.bridge);
    var w := BestWalkExists(net, Across(f).bridge);
    BestCost(net, v);
    BestCost(net, w);
    assert Nearer(net, v, w);
  }

  lemma NearIsWithin(net: Net, b: nat)
    requires IsTie(net) && b < SIZE && b != TIED && b != FAR
    ensures Within(net, b, 9)
  {
    forall w | BestWalk(net, w) && Last(w) == b ensures Links(w) <= 9 {
      BestCost(net, w);
      WalkDistance(net, w);
    }
  }

  lemma EndsAreReady(net: Net, before: seq<Action>, rounds: seq<seq<Action>>, m: Fabric)
    requires IsTie(net) && AreRounds(net, Exec(net, Start(net), before), rounds) && |rounds| >= 9
    requires Exact(net, Exec(net, Start(net), before), TIED) && Taught(net, Exec(net, Start(net), before), Endpoint(TIED, 1))
    requires m == ExecRounds(net, Exec(net, Start(net), before), rounds)
    ensures Sound(net, m) && EndsReady(net, m)
  {
    var s := Exec(net, Start(net), before);
    EveryRunIsTraced(net, before);
    RoundsKeepSound(net, s, rounds);
    RoundsImproveRecords(net, s, rounds);
    TaughtStays(net, s, m, Endpoint(TIED, 1));
    forall f | f in net.peer && BetterEnd(net, f)
      ensures Exact(net, m, f.bridge) && (Within(net, f.bridge, 9) || Taught(net, m, f))
    {
      BetterEndIsNear(net, f);
      if f.bridge != TIED {
        assert HasLink(f);
        NearIsWithin(net, f.bridge);
        var w := BestWalkExists(net, f.bridge);
        RoundsFindShortestPaths(net, before, rounds, w);
        KnowingIsExact(net, m, w);
      }
    }
  }

  /** The state before the last round. */
  lemma ReadyAtLast(net: Net, before: seq<Action>, rounds: seq<seq<Action>>) returns (m: Fabric)
    requires IsTie(net) && AreRounds(net, Exec(net, Start(net), before), rounds) && |rounds| >= 10
    requires Exact(net, Exec(net, Start(net), before), TIED) && Taught(net, Exec(net, Start(net), before), Endpoint(TIED, 1))
    ensures Sound(net, m) && EndsReady(net, m) && IsRound(net, m, rounds[|rounds| - 1])
    ensures Exec(net, m, rounds[|rounds| - 1]) == ExecRounds(net, Exec(net, Start(net), before), rounds)
  {
    m := LastRound(net, Exec(net, Start(net), before), rounds);
    EndsAreReady(net, before, rounds[..|rounds| - 1], m);
  }

  lemma TaughtRunSettles(net: Net, before: seq<Action>, rounds: seq<seq<Action>>, t: Fabric)
    requires IsTie(net) && AreRounds(net, Exec(net, Start(net), before), rounds) && |rounds| >= 10
    requires Exact(net, Exec(net, Start(net), before), TIED) && Taught(net, Exec(net, Start(net), before), Endpoint(TIED, 1))
    requires t == ExecRounds(net, Exec(net, Start(net), before), rounds)
    ensures Settled(net, t) && KnowsBest(net, t, 0, FAR)
  {
    var m := ReadyAtLast(net, before, rounds);
    RoundIsGood(net, m, rounds[|rounds| - 1], t);
  }

  lemma RoundIsGood(net: Net, m: Fabric, acts: seq<Action>, t: Fabric)
    requires IsTie(net) && Sound(net, m) && IsRound(net, m, acts) && EndsReady(net, m) && t == Exec(net, m, acts)
    ensures Settled(net, t) && KnowsBest(net, t, 0, FAR)
  {
    ExecKeepsSound(net, m, acts);
    RoundSettles(net, m, acts);
    RootIsBest(net, FAR);
    SettledFindsShortestPaths(net, t, 0, FAR);
  }

  // ----- Main result -----

  /** Where cheapest walks lie on both sides of the limit, what becomes of a network need not be a matter of the network: after
      one run any ten rounds settle this one, after another no run at all does, and its bridge 11 never learns where the
      root is. */
  lemma TheRunDecides(net: Net) returns (good: seq<Action>, bad: seq<Action>)
    requires IsTie(net)
    ensures forall rounds :: AreRounds(net, Exec(net, Start(net), good), rounds) && |rounds| >= 10 ==>
              var t := ExecRounds(net, Exec(net, Start(net), good), rounds); Settled(net, t) && KnowsBest(net, t, 0, FAR)
    ensures forall acts :: var t := Exec(net, Exec(net, Start(net), bad), acts); !Settled(net, t) && !KnowsBest(net, t, 0, FAR)
  {
    good := ShortWayFirst(net);
    bad := LongWayFirst(net);
    forall rounds | AreRounds(net, Exec(net, Start(net), good), rounds) && |rounds| >= 10
      ensures var t := ExecRounds(net, Exec(net, Start(net), good), rounds); Settled(net, t) && KnowsBest(net, t, 0, FAR)
    {
      TaughtRunSettles(net, good, rounds, ExecRounds(net, Exec(net, Start(net), good), rounds));
    }
    forall acts ensures var t := Exec(net, Exec(net, Start(net), bad), acts); !Settled(net, t) && !KnowsBest(net, t, 0, FAR) {
      RunStaysStuck(net, Exec(net, Start(net), bad), acts);
      StuckIsLost(net, Exec(net, Exec(net, Start(net), bad), acts));
    }
  }

  // ----- There is such a network -----

  function TieNet(ids: seq<BridgeID>): Net {
    Net(seq(|ids|, i requires 0 <= i < |ids| => Config(ids[i], [PortConfig(0x8001, 1), PortConfig(0x8002, 9), PortConfig(0x8003, 9)])),
        map b: nat, p: nat | b < SIZE && p < 3 && HasLink(Endpoint(b, p)) :: Endpoint(b, p) := Across(Endpoint(b, p)), 9)
  }

  lemma TieNetIsWired(ids: seq<BridgeID>, e: Endpoint)
    requires |ids| == SIZE && HasLink(e)
    ensures Wired(TieNet(ids), e)
  {
    HopDistance(e);
    assert e == Endpoint(e.bridge, e.port);
  }

  lemma TieNetFits(ids: seq<BridgeID>)
    requires |ids| == SIZE && forall i, j :: 0 <= i < j < |ids| ==> ids[i] != ids[j]
    ensures WellFormed(TieNet(ids))
  {
    var net := TieNet(ids);
    TimesIsProduct(|ids|, 9);
    forall e | e in net.peer
      ensures IsEndpoint(net, e) && net.peer[e] in net.peer && net.peer[net.peer[e]] == e && net.peer[e].bridge != e.bridge
    {
      HopDistance(e);
      TieNetIsWired(ids, e);
      TieNetIsWired(ids, Across(e));
    }
  }

  /** The first thirteen bridges of a simulation can be joined like that. */
  lemma ThereIsATie() returns (net: Net)
    ensures IsTie(net)
  {
    var ids := StpRing.CountedIDs(SIZE);
    forall i, j | 0 <= i < j < SIZE ensures ids[i].Rank() < ids[j].Rank() && ids[i] != ids[j] {
      StpRing.CountedIDsIncrease(i, j);
    }
    net := TieNet(ids);
    TieNetFits(ids);
    forall e: Endpoint | HasLink(e) ensures Wired(net, e) {
      TieNetIsWired(ids, e);
    }
  }
}
