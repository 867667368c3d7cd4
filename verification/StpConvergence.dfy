/** How many hello rounds it takes every bridge to learn the best root at the best cost. */
module StpConvergence {
  import opened Wrappers
  import opened StpVector
  import opened StpBridge
  import opened StpNetwork
  import opened StpSafety
  import opened StpPaths

  // ----- Records only improve -----

  predicate NotWorse(v: Vector, than: Vector) {
    v == than || v.Superior(than)
  }

  ghost predicate AllRecordsImprove(s: Fabric, t: Fabric) {
    |s.bridges| == |t.bridges| && forall b :: 0 <= b < |s.bridges| ==> RecordsImprove(s.bridges[b], t.bridges[b])
  }

  lemma OneBridgeImproves(s: Fabric, b: nat, r: Bridge, t: Fabric)
    requires b < |s.bridges| && t.bridges == s.bridges[b := r] && RecordsImprove(s.bridges[b], r)
    ensures AllRecordsImprove(s, t)
  {
  }

  /** A step never forgets a recorded vector except for a superior one. */
  lemma StepImprovesRecords(net: Net, s: Fabric, a: Action)
    requires Matches(net, s)
    ensures AllRecordsImprove(s, Step(net, s, a))
  {
    var t := Step(net, s, a);
    match a
    case Converge(b) =>
      if b < |s.bridges| {
        OneBridgeImproves(s, b, Recompute(net.bridges[b], s.bridges[b]), t);
      }
    case Deliver(k) =>
      if k < |s.frames| && IsEndpoint(net, s.frames[k].to) {
        var b := s.frames[k].to.bridge;
        ReceiveRecords(net.bridges[b], s.bridges[b], s.frames[k].to.port, s.frames[k].message);
        OneBridgeImproves(s, b, Receive(net.bridges[b], s.bridges[b], s.frames[k].to.port, s.frames[k].message), t);
      }
    case Promote(b) =>
      if b < |s.bridges| {
        OneBridgeImproves(s, b, PromoteAll(s.bridges[b]), t);
      }
    case Advance(b, p) =>
      if b < |s.bridges| && p < |s.bridges[b].ports| {
        OneBridgeImproves(s, b, AdvanceOne(s.bridges[b], p), t);
      }
    case _ =>
  }

  // ----- A hello reaches the peer -----

  /** The receiving end of f holds something no worse than it carries. */
  predicate Holds(net: Net, s: Fabric, f: Frame)
    requires Matches(net, s)
  {
    && IsEndpoint(net, f.to)
    && s.bridges[f.to.bridge].ports[f.to.port].received.Some?
    && NotWorse(s.bridges[f.to.bridge].ports[f.to.port].received.value.vector, f.message.vector)
  }

  /** The frame is still in flight, or its receiver holds something no worse. */
  ghost predicate Informed(net: Net, s: Fabric, f: Frame)
    requires Matches(net, s)
  {
    f in s.frames || Holds(net, s, f)
  }

  lemma DeliveredIsRecorded(c: Config, b: Bridge, i: nat, m: Message)
    requires Fits(c, b) && i < |b.ports| && !Ignored(c, m)
    ensures Receive(c, b, i, m).ports[i].received.Some?
    ensures NotWorse(Receive(c, b, i, m).ports[i].received.value.vector, m.vector)
  {
    if b.ports[i].received.Some? {
      CompareIsStrictTotalOrder(m.vector, b.ports[i].received.value.vector, m.vector);
    }
  }

  lemma NotWorseTransitive(u: Vector, v: Vector, w: Vector)
    requires NotWorse(u, v) && NotWorse(v, w)
    ensures NotWorse(u, w)
  {
    CompareIsStrictTotalOrder(u, v, w);
  }

  lemma StepKeepsHeld(net: Net, s: Fabric, a: Action, f: Frame)
    requires Matches(net, s) && Holds(net, s, f)
    ensures Holds(net, Step(net, s, a), f)
  {
    StepImprovesRecords(net, s, a);
    var b, t := f.to.bridge, Step(net, s, a);
    assert RecordsImprove(s.bridges[b], t.bridges[b]);
    NotWorseTransitive(t.bridges[b].ports[f.to.port].received.value.vector,
                       s.bridges[b].ports[f.to.port].received.value.vector, f.message.vector);
  }

  lemma OtherFramesRemain(frames: seq<Frame>, k: nat, f: Frame)
    requires k < |frames| && f in frames && frames[k] != f
    ensures f in Without(frames, k)
  {
    var j :| 0 <= j < |frames| && frames[j] == f;
    assert f == Without(frames, k)[if j < k then j else j - 1];
  }

  lemma StepDeliversOrKeeps(net: Net, s: Fabric, a: Action, f: Frame)
    requires Matches(net, s) && !a.Lose? && f in s.frames
    requires IsEndpoint(net, f.to) && !Ignored(net.bridges[f.to.bridge], f.message)
    ensures Informed(net, Step(net, s, a), f)
  {
    if a.Deliver? && a.index < |s.frames| && IsEndpoint(net, s.frames[a.index].to) {
      if s.frames[a.index] == f {
        DeliveredIsRecorded(net.bridges[f.to.bridge], s.bridges[f.to.bridge], f.to.port, f.message);
      } else {
        OtherFramesRemain(s.frames, a.index, f);
      }
    }
  }

  lemma StepKeepsInformed(net: Net, s: Fabric, a: Action, f: Frame)
    requires Matches(net, s) && !a.Lose?
    requires Informed(net, s, f) && IsEndpoint(net, f.to) && !Ignored(net.bridges[f.to.bridge], f.message)
    ensures Informed(net, Step(net, s, a), f)
  {
    if f in s.frames {
      StepDeliversOrKeeps(net, s, a, f);
    } else {
      StepKeepsHeld(net, s, a, f);
    }
  }

  predicate Lossless(acts: seq<Action>) {
    forall a :: a in acts ==> !a.Lose?
  }

  lemma {:induction false} RunKeepsInformed(net: Net, s: Fabric, acts: seq<Action>, f: Frame)
    requires Matches(net, s) && Lossless(acts)
    requires Informed(net, s, f) && IsEndpoint(net, f.to) && !Ignored(net.bridges[f.to.bridge], f.message)
    ensures Informed(net, Exec(net, s, acts), f)
    decreases |acts|
  {
    if acts != [] {
      StepKeepsInformed(net, s, acts[0], f);
      RunKeepsInformed(net, Step(net, s, acts[0]), acts[1..], f);
    }
  }

  // ----- One hello over one link -----

  /** A port that is not designated holds a message of its peer that beats its own vector. */
  lemma UndesignatedHoldsBetter(net: Net, s: Fabric, f: Endpoint) returns (m: Message)
    requires WellFormed(net) && Sound(net, s) && f in net.peer
    requires s.bridges[f.bridge].ports[f.port].role != RoleDesignated
    ensures s.bridges[f.bridge].ports[f.port].received == Some(m) && SentToward(net, s, f, m)
    ensures m.vector.Superior(Own(net.bridges[f.bridge], s.bridges[f.bridge], f.port))
  {
    var b, i := f.bridge, f.port;
    assert BridgeSound(net, s, b);
    var c, r := net.bridges[b], s.bridges[b];
    assert r.ports[i].role == RoleFor(c, r, i);
    if r.rootPort == Some(i) {
      var e;
      e, m := RootRecord(net, s, b, r);
    } else {
      m := r.ports[i].received.value;
      assert SentToward(net, s, f, m);
      assert m.vector.bridgeID != c.id;
      CompareIsStrictTotalOrder(Own(c, r, i), m.vector, m.vector);
    }
  }

  /** Where a bridge is not designated, its peer already knows a root and cost at least as good. */
  lemma UndesignatedPeerKnows(net: Net, s: Fabric, f: Endpoint)
    requires WellFormed(net) && Sound(net, s) && f in net.peer
    requires s.bridges[f.bridge].ports[f.port].role != RoleDesignated
    ensures s.bridges[net.peer[f].bridge].AtLeast(s.bridges[f.bridge].rootID, s.bridges[f.bridge].rootPathCost)
  {
    var m := UndesignatedHoldsBetter(net, s, f);
  }

  /** A bridge on a walk before its end knows the start at a lower cost. */
  lemma EarlierOnWalk(net: Net, s: Fabric, w: Walk, b: nat)
    requires WellFormed(net) && Matches(net, s) && IsWalk(net, w) && Supported(net, s, w)
    requires b in Visits(w) && b != Last(w)
    ensures b < |s.bridges| && Cost(net, w) > 0
    ensures s.bridges[b].AtLeast(net.bridges[First(w)].id, Cost(net, w) - 1)
  {
    SupportedAlong(net, s, w.prior, b);
    assert PathCost(net, w.via) > 0;
  }

  /** What v carries to its end is at least as good as what w does: a better identifier, or w's own no dearer. */
  predicate AsGood(net: Net, v: Walk, w: Walk)
    requires IsWalk(net, v) && IsWalk(net, w)
  {
    || net.bridges[First(v)].id.Rank() < net.bridges[First(w)].id.Rank()
    || (First(v) == First(w) && Cost(net, v) <= Cost(net, w))
  }

  /** Nothing at least as good can reach a bridge of the walk over more than ten links, so nothing that the bridges on it
      pass on is too old to be sent. */
  ghost predicate InTime(net: Net, w: Walk)
    requires IsWalk(net, w)
  {
    && (forall v :: IsWalk(net, v) && Simple(v) && Last(v) == Last(w) && AsGood(net, v, w) ==> Links(v) <= 10)
    && (w.Hop? ==> InTime(net, w.prior))
  }

  /** Where a bridge's information is too old to send, the next bridge of a walk in time is on the way that the information
      came: otherwise that way could be made too long. */
  lemma AgedPeerKnows(net: Net, s: Fabric, w: Walk)
    requires WellFormed(net) && Sound(net, s) && IsWalk(net, w) && w.Hop? && InTime(net, w)
    requires s.bridges[Last(w.prior)].AtLeast(net.bridges[First(w)].id, Cost(net, w.prior))
    requires MessageAge(s.bridges[Last(w.prior)]) >= MAX_AGE
    ensures s.bridges[Last(w)].AtLeast(net.bridges[First(w)].id, Cost(net, w))
  {
    var b, e := Last(w.prior), w.via;
    var r := s.bridges[b];
    assert BridgeSound(net, s, b);
    var v :| Witness(net, s, v, b, r.rootID, r.rootPathCost, MessageAge(r));
    if net.bridges[First(v)].id == net.bridges[First(w)].id {
      SameBridge(net, First(v), First(w));
    }
    InTimeMeets(net, v, w);
    EarlierOnWalk(net, s, v, e.bridge);
  }

  /** What has come over ten links to a bridge of a walk in time has been at the next one. */
  lemma InTimeMeets(net: Net, v: Walk, w: Walk)
    requires IsWalk(net, w) && w.Hop? && InTime(net, w)
    requires IsWalk(net, v) && Simple(v) && Last(v) == Last(w.prior) && AsGood(net, v, w.prior) && Links(v) >= 10
    ensures w.via.bridge in Visits(v)
  {
    var longer := Hop(v, w.via);
    assert IsWalk(net, longer) && AsGood(net, longer, w) && Links(longer) > 10;
  }

  /** The frame that a hello of f's bridge puts on f's link. */
  function HelloFrame(net: Net, s: Fabric, f: Endpoint): Frame
    requires Matches(net, s) && IsEndpoint(net, f) && f in net.peer
  {
    Frame(net.peer[f], Message(Own(net.bridges[f.bridge], s.bridges[f.bridge], f.port), MessageAge(s.bridges[f.bridge])))
  }

  lemma HelloSends(net: Net, s: Fabric, f: Endpoint)
    requires WellFormed(net) && Matches(net, s) && f in net.peer
    requires Advertises(s.bridges[f.bridge], f.port)
    ensures HelloFrame(net, s, f) in Step(net, s, Hello(f.bridge)).frames
    ensures !Ignored(net.bridges[net.peer[f].bridge], HelloFrame(net, s, f).message)
  {
    var b := f.bridge;
    var o := Outgoing(f.port, Message(Own(net.bridges[b], s.bridges[b], f.port), MessageAge(s.bridges[b])));
    assert o in Collect(net.bridges[b], s.bridges[b], |s.bridges[b].ports|);
    assert Endpoint(b, o.port) == f;
    assert HelloFrame(net, s, f) in Emit(net, b, Collect(net.bridges[b], s.bridges[b], |s.bridges[b].ports|));
  }

  /** A hello at the start of a lossless run that delivers everything is recorded by the peer. */
  lemma HelloIsRecorded(net: Net, s: Fabric, acts: seq<Action>, f: Endpoint)
    requires WellFormed(net) && Matches(net, s) && f in net.peer
    requires acts != [] && acts[0] == Hello(f.bridge) && Lossless(acts) && Exec(net, s, acts).frames == []
    requires Advertises(s.bridges[f.bridge], f.port)
    ensures Holds(net, Exec(net, s, acts), HelloFrame(net, s, f))
  {
    HelloSends(net, s, f);
    RunKeepsInformed(net, Step(net, s, acts[0]), acts[1..], HelloFrame(net, s, f));
  }

  lemma HeldBoundsBridge(net: Net, t: Fabric, e: Endpoint, f: Frame)
    requires WellFormed(net) && Sound(net, t) && Holds(net, t, f) && f.to == e
    ensures t.bridges[e.bridge].AtLeast(f.message.vector.rootID, f.message.vector.rootPathCost + PathCost(net, e))
  {
    assert BridgeSound(net, t, e.bridge);
    RecordBoundsBridge(net.bridges[e.bridge], t.bridges[e.bridge], e.port,
                       f.message.vector.rootID, f.message.vector.rootPathCost);
  }

  /** After a hello of f's bridge, if what it knows is not too old to send, its peer knows a path over their link. */
  lemma HelloInforms(net: Net, s: Fabric, acts: seq<Action>, f: Endpoint)
    requires WellFormed(net) && Sound(net, s) && f in net.peer && MessageAge(s.bridges[f.bridge]) < MAX_AGE
    requires acts != [] && acts[0] == Hello(f.bridge) && Lossless(acts) && Exec(net, s, acts).frames == []
    ensures var e := net.peer[f];
            Exec(net, s, acts).bridges[e.bridge].AtLeast(
              s.bridges[f.bridge].rootID, s.bridges[f.bridge].rootPathCost + PathCost(net, e))
  {
    var e, t := net.peer[f], Exec(net, s, acts);
    ExecKeepsSound(net, s, acts);
    assert BridgeSound(net, s, f.bridge);
    if Advertises(s.bridges[f.bridge], f.port) {
      HelloIsRecorded(net, s, acts, f);
      HeldBoundsBridge(net, t, e, HelloFrame(net, s, f));
    } else {
      UndesignatedPeerKnows(net, s, f);
      assert t.bridges[e.bridge].AtLeast(s.bridges[e.bridge].rootID, s.bridges[e.bridge].rootPathCost);
    }
  }

  // ----- Rounds -----

  /** A run in which every bridge says hello and all frames are delivered, in any order. */
  ghost predicate IsRound(net: Net, s: Fabric, acts: seq<Action>)
    requires Matches(net, s)
  {
    && Lossless(acts)
    && (forall b :: 0 <= b < |net.bridges| ==> Hello(b) in acts)
    && Exec(net, s, acts).frames == []
  }

  /** Every bridge at the end of a walk of at most k links from r knows r at no more than the walk's cost. */
  ghost predicate KnownWithin(net: Net, s: Fabric, r: nat, k: nat)
    requires Matches(net, s)
  {
    forall w :: IsWalk(net, w) && First(w) == r && Links(w) <= k ==>
      s.bridges[Last(w)].AtLeast(net.bridges[r].id, Cost(net, w))
  }

  lemma ExecSplits(net: Net, s: Fabric, acts: seq<Action>, i: nat)
    requires Matches(net, s) && i <= |acts|
    ensures Exec(net, s, acts) == Exec(net, Exec(net, s, acts[..i]), acts[i..])
    decreases |acts|
  {
    if i == 0 {
      assert acts[..0] == [] && acts[0..] == acts;
    } else {
      ExecSplits(net, Step(net, s, acts[0]), acts[1..], i - 1);
      assert acts[..i][1..] == acts[1..][..i - 1] && acts[1..][i - 1..] == acts[i..] && acts[..i][0] == acts[0];
    }
  }

  lemma AtLeastTransitive(b: Bridge, root: BridgeID, cost: nat, root': BridgeID, cost': nat, more: nat)
    requires b.AtLeast(root, cost + more)
    requires root.Rank() < root'.Rank() || (root == root' && cost <= cost')
    ensures b.AtLeast(root', cost' + more)
  {
  }

  /** The state in which a round's hello of bridge b happens, and the rest of the round. */
  lemma FindHello(net: Net, s: Fabric, acts: seq<Action>, b: nat) returns (m: Fabric, rest: seq<Action>)
    requires WellFormed(net) && Sound(net, s) && IsRound(net, s, acts) && b < |net.bridges|
    ensures Sound(net, m) && Progress(net, s, m)
    ensures rest != [] && rest[0] == Hello(b) && Lossless(rest) && Exec(net, m, rest) == Exec(net, s, acts)
  {
    assert Hello(b) in acts;
    var i :| 0 <= i < |acts| && acts[i] == Hello(b);
    m, rest := Exec(net, s, acts[..i]), acts[i..];
    ExecSplits(net, s, acts, i);
    ExecKeepsSound(net, s, acts[..i]);
  }

  /** A hello of the last bridge but one informs the end of the walk, or is too old and was not needed. */
  lemma HelloExtendsKnowledge(net: Net, m: Fabric, rest: seq<Action>, w: Walk, t: Fabric)
    requires WellFormed(net) && Sound(net, m) && IsWalk(net, w) && w.Hop? && InTime(net, w) && Matches(net, t)
    requires rest != [] && rest[0] == Hello(Last(w.prior)) && Lossless(rest) && Exec(net, m, rest) == t && t.frames == []
    requires m.bridges[Last(w.prior)].AtLeast(net.bridges[First(w)].id, Cost(net, w.prior))
    ensures t.bridges[Last(w)].AtLeast(net.bridges[First(w)].id, Cost(net, w))
  {
    var b := Last(w.prior);
    ExecKeepsSound(net, m, rest);
    if MessageAge(m.bridges[b]) >= MAX_AGE {
      AgedPeerKnows(net, m, w);
      AtLeastTransitive(t.bridges[Last(w)], m.bridges[Last(w)].rootID, m.bridges[Last(w)].rootPathCost,
                        net.bridges[First(w)].id, Cost(net, w), 0);
    } else {
      HelloInforms(net, m, rest, net.peer[w.via]);
      AtLeastTransitive(t.bridges[Last(w)], m.bridges[b].rootID, m.bridges[b].rootPathCost,
                        net.bridges[First(w)].id, Cost(net, w.prior), PathCost(net, w.via));
    }
  }

  /** One round takes knowledge of a walk's start over the walk's last link. */
  lemma RoundExtendsKnowledge(net: Net, s: Fabric, acts: seq<Action>, w: Walk)
    requires WellFormed(net) && Sound(net, s) && IsRound(net, s, acts)
    requires IsWalk(net, w) && w.Hop? && InTime(net, w)
    requires s.bridges[Last(w.prior)].AtLeast(net.bridges[First(w)].id, Cost(net, w.prior))
    ensures Exec(net, s, acts).bridges[Last(w)].AtLeast(net.bridges[First(w)].id, Cost(net, w))
  {
    var b := Last(w.prior);
    var m, rest := FindHello(net, s, acts, b);
    assert m.bridges[b].AtLeast(s.bridges[b].rootID, s.bridges[b].rootPathCost);
    HelloExtendsKnowledge(net, m, rest, w, Exec(net, s, acts));
  }

  /** The states between consecutive rounds. */
  ghost predicate AreRounds(net: Net, s: Fabric, rounds: seq<seq<Action>>)
    requires Matches(net, s)
    decreases |rounds|
  {
    rounds == [] || (IsRound(net, s, rounds[0]) && AreRounds(net, Exec(net, s, rounds[0]), rounds[1..]))
  }

  function ExecRounds(net: Net, s: Fabric, rounds: seq<seq<Action>>): (t: Fabric)
    requires Matches(net, s)
    ensures Matches(net, t)
    decreases |rounds|
  {
    if rounds == [] then s else ExecRounds(net, Exec(net, s, rounds[0]), rounds[1..])
  }

  lemma {:induction false} RoundsKeepSound(net: Net, s: Fabric, rounds: seq<seq<Action>>)
    requires WellFormed(net) && Sound(net, s)
    ensures Sound(net, ExecRounds(net, s, rounds)) && Progress(net, s, ExecRounds(net, s, rounds))
    decreases |rounds|
  {
    if rounds != [] {
      var t := Exec(net, s, rounds[0]);
      ExecKeepsSound(net, s, rounds[0]);
      RoundsKeepSound(net, t, rounds[1..]);
      ProgressTransitive(net, s, t, ExecRounds(net, s, rounds));
    }
  }

  lemma {:induction false} LastRound(net: Net, s: Fabric, rounds: seq<seq<Action>>) returns (m: Fabric)
    requires Matches(net, s) && rounds != [] && AreRounds(net, s, rounds)
    ensures m == ExecRounds(net, s, rounds[..|rounds| - 1]) && AreRounds(net, s, rounds[..|rounds| - 1])
    ensures IsRound(net, m, rounds[|rounds| - 1]) && Exec(net, m, rounds[|rounds| - 1]) == ExecRounds(net, s, rounds)
    decreases |rounds|
  {
    if |rounds| == 1 {
      m := s;
      assert rounds[1..] == [] && rounds[..0] == [];
    } else {
      m := LastRound(net, Exec(net, s, rounds[0]), rounds[1..]);
      assert rounds[1..][..|rounds| - 2] == rounds[..|rounds| - 1][1..];
    }
  }

  lemma EveryBridgeKnowsItself(net: Net, s: Fabric, r: nat)
    requires Sound(net, s) && r < |net.bridges|
    ensures KnownWithin(net, s, r, 0)
  {
    forall w | IsWalk(net, w) && First(w) == r && Links(w) <= 0
      ensures s.bridges[Last(w)].AtLeast(net.bridges[r].id, Cost(net, w))
    {
      assert BridgeSound(net, s, r);
      RankInjective(s.bridges[r].rootID, net.bridges[r].id);
    }
  }

  lemma {:induction false} RoundsFollowWalk(net: Net, s: Fabric, rounds: seq<seq<Action>>, w: Walk)
    requires WellFormed(net) && Sound(net, s) && AreRounds(net, s, rounds)
    requires IsWalk(net, w) && InTime(net, w) && |rounds| >= Links(w)
    ensures ExecRounds(net, s, rounds).bridges[Last(w)].AtLeast(net.bridges[First(w)].id, Cost(net, w))
    decreases w
  {
    RoundsKeepSound(net, s, rounds);
    match w
    case Origin(b) =>
      EveryBridgeKnowsItself(net, ExecRounds(net, s, rounds), b);
      assert Links(w) <= 0;
    case Hop(p, e) =>
      var n := |rounds| - 1;
      var m := LastRound(net, s, rounds);
      RoundsKeepSound(net, s, rounds[..n]);
      RoundsFollowWalk(net, s, rounds[..n], p);
      RoundExtendsKnowledge(net, m, rounds[n], w);
  }

  /** After any run from a fresh start, lossy or not, as many rounds as a walk has links teach its end the identifier of
      its start, at no more than its cost, whatever the order within a round and however large the network: it is enough
      that nothing better comes to the walk over more than ten links. */
  lemma KnowledgeAfterRounds(net: Net, before: seq<Action>, rounds: seq<seq<Action>>, w: Walk)
    requires WellFormed(net) && IsWalk(net, w) && InTime(net, w) && |rounds| >= Links(w)
    requires AreRounds(net, Exec(net, Start(net), before), rounds)
    ensures ExecRounds(net, Exec(net, Start(net), before), rounds).bridges[Last(w)].AtLeast(net.bridges[First(w)].id, Cost(net, w))
  {
    EveryRunIsTraced(net, before);
    RoundsFollowWalk(net, Exec(net, Start(net), before), rounds, w);
  }

  lemma {:induction false} ShallowIsInTime(net: Net, w: Walk)
    requires Shallow(net, 10) && IsWalk(net, w)
    ensures InTime(net, w)
  {
    if w.Hop? {
      ShallowIsInTime(net, w.prior);
    }
  }

  /** In a network without long walks, k rounds teach every bridge each identifier within k links. */
  lemma ShallowKnowledge(net: Net, before: seq<Action>, rounds: seq<seq<Action>>, r: nat)
    requires WellFormed(net) && Shallow(net, 10)
    requires AreRounds(net, Exec(net, Start(net), before), rounds)
    ensures KnownWithin(net, ExecRounds(net, Exec(net, Start(net), before), rounds), r, |rounds|)
  {
    var t := ExecRounds(net, Exec(net, Start(net), before), rounds);
    forall w | IsWalk(net, w) && First(w) == r && Links(w) <= |rounds|
      ensures t.bridges[Last(w)].AtLeast(net.bridges[r].id, Cost(net, w))
    {
      ShallowIsInTime(net, w);
      KnowledgeAfterRounds(net, before, rounds, w);
    }
  }

  // ----- Walks from the best bridge -----

  /** A best walk is in time when every best walk to its end has at most ten links. */
  lemma {:induction false} BestIsInTime(net: Net, w: Walk)
    requires WellFormed(net) && BestWalk(net, w) && Within(net, Last(w), 10)
    ensures InTime(net, w)
  {
    forall v | IsWalk(net, v) && Simple(v) && Last(v) == Last(w) && AsGood(net, v, w) ensures Links(v) <= 10 {
      assert Reaches(net, First(v), Last(w));
      assert BestWalk(net, v);
    }
    if w.Hop? {
      PriorIsWithin(net, w, 10);
      BestWalkExtends(net, w);
      BestIsInTime(net, w.prior);
    }
  }

  /** Where all ports cost the same, every walk of at most ten links from the best bridge is in time. */
  lemma {:induction false} EqualCostsInTime(net: Net, w: Walk, c: nat)
    requires WellFormed(net) && EqualCosts(net, c) && c > 0
    requires IsWalk(net, w) && BestFor(net, First(w), Last(w)) && Links(w) <= 10
    ensures InTime(net, w)
  {
    forall v | IsWalk(net, v) && Simple(v) && Last(v) == Last(w) && AsGood(net, v, w) ensures Links(v) <= 10 {
      assert Reaches(net, First(v), Last(w));
      CheaperIsShorter(net, v, w, c);
    }
    if w.Hop? {
      PeersShareBest(net, First(w), w.via);
      EqualCostsInTime(net, w.prior, c);
    }
  }

  /** So as many rounds teach its end that root, at no more than its cost, in a network of any size and shape whose ports
      cost the same. */
  lemma EqualCostsKnowledge(net: Net, before: seq<Action>, rounds: seq<seq<Action>>, w: Walk, c: nat)
    requires WellFormed(net) && EqualCosts(net, c) && c > 0
    requires IsWalk(net, w) && BestFor(net, First(w), Last(w)) && Links(w) <= 10 && Links(w) <= |rounds|
    requires AreRounds(net, Exec(net, Start(net), before), rounds)
    ensures ExecRounds(net, Exec(net, Start(net), before), rounds).bridges[Last(w)].AtLeast(net.bridges[First(w)].id, Cost(net, w))
  {
    EqualCostsInTime(net, w, c);
    KnowledgeAfterRounds(net, before, rounds, w);
  }
}
