/** Every exchange of BPDUs dies out: superior information is finite, and replies do not ping-pong. */
module StpExchange {
  import opened Wrappers
  import opened Bytes
  import opened StpVector
  import opened StpBridge
  import opened StpNetwork
  import opened StpSafety
  import opened StpConvergence

  // ----- Sums -----

  function Sum(s: seq<nat>): nat {
    if s == [] then 0 else s[0] + Sum(s[1..])
  }

  lemma {:induction false} SumOfConcat(a: seq<nat>, b: seq<nat>)
    ensures Sum(a + b) == Sum(a) + Sum(b)
  {
    if a == [] {
      assert a + b == b;
    } else {
      SumOfConcat(a[1..], b);
      assert (a + b)[1..] == a[1..] + b;
    }
  }

  lemma SumSplit(s: seq<nat>, i: nat)
    requires i < |s|
    ensures Sum(s) == Sum(s[..i]) + s[i] + Sum(s[i + 1..])
  {
    SumOfConcat(s[..i], s[i..]);
    assert s == s[..i] + s[i..] && s[i..][1..] == s[i + 1..];
  }

  lemma SumOfUpdate(s: seq<nat>, i: nat, v: nat)
    requires i < |s|
    ensures Sum(s[i := v]) == Sum(s) - s[i] + v
  {
    SumSplit(s, i);
    SumSplit(s[i := v], i);
    assert s[i := v][..i] == s[..i] && s[i := v][i + 1..] == s[i + 1..];
  }

  // ----- What is still left to learn -----

  /** A bound on how often the record of a port can still be superseded. */
  function Left(p: Port): nat {
    if p.received == None then Pow256(22) else p.received.value.vector.Key()
  }

  function BridgeLeft(b: Bridge): nat {
    Sum(seq(|b.ports|, i requires 0 <= i < |b.ports| => Left(b.ports[i])))
  }

  function Lefts(bridges: seq<Bridge>): seq<nat> {
    seq(|bridges|, i requires 0 <= i < |bridges| => BridgeLeft(bridges[i]))
  }

  function Potential(s: Fabric): nat {
    Sum(Lefts(s.bridges))
  }

  lemma BridgeLeftOfChange(b: Bridge, r: Bridge, i: nat)
    requires |b.ports| == |r.ports| && i < |b.ports|
    requires forall j :: 0 <= j < |b.ports| && j != i ==> r.ports[j].received == b.ports[j].received
    ensures BridgeLeft(r) == BridgeLeft(b) - Left(b.ports[i]) + Left(r.ports[i])
  {
    var was := seq(|b.ports|, j requires 0 <= j < |b.ports| => Left(b.ports[j]));
    var now := seq(|r.ports|, j requires 0 <= j < |r.ports| => Left(r.ports[j]));
    assert now == was[i := Left(r.ports[i])];
    SumOfUpdate(was, i, Left(r.ports[i]));
  }

  lemma BridgeLeftSame(b: Bridge, r: Bridge)
    requires |b.ports| == |r.ports|
    requires forall j :: 0 <= j < |b.ports| ==> r.ports[j].received == b.ports[j].received
    ensures BridgeLeft(r) == BridgeLeft(b)
  {
    assert seq(|b.ports|, j requires 0 <= j < |b.ports| => Left(b.ports[j]))
        == seq(|r.ports|, j requires 0 <= j < |r.ports| => Left(r.ports[j]));
  }

  lemma PotentialOfChange(s: Fabric, b: nat, r: Bridge, t: Fabric)
    requires b < |s.bridges| && t.bridges == s.bridges[b := r]
    ensures Potential(t) == Potential(s) - BridgeLeft(s.bridges[b]) + BridgeLeft(r)
  {
    assert Lefts(t.bridges) == Lefts(s.bridges)[b := BridgeLeft(r)];
    SumOfUpdate(Lefts(s.bridges), b, BridgeLeft(r));
  }

  predicate DeliversSuperior(net: Net, s: Fabric, a: Action)
    requires Matches(net, s)
  {
    && a.Deliver? && a.index < |s.frames|
    && var f := s.frames[a.index];
       IsEndpoint(net, f.to)
       && !Ignored(net.bridges[f.to.bridge], f.message)
       && IsSuperior(s.bridges[f.to.bridge], f.to.port, f.message)
  }

  lemma SuperiorLowersLeft(b: Bridge, i: nat, m: Message)
    requires i < |b.ports| && IsSuperior(b, i, m)
    ensures m.vector.Key() < Left(b.ports[i])
  {
    if b.ports[i].received.Some? {
      CompareIsWireOrder(m.vector, b.ports[i].received.value.vector);
    }
  }

  lemma ReceivePotential(c: Config, b: Bridge, i: nat, m: Message)
    requires Fits(c, b) && i < |b.ports|
    ensures var r := Receive(c, b, i, m);
            if !Ignored(c, m) && IsSuperior(b, i, m) then BridgeLeft(r) < BridgeLeft(b) else BridgeLeft(r) == BridgeLeft(b)
  {
    ReceiveRecords(c, b, i, m);
    BridgeLeftOfChange(b, Receive(c, b, i, m), i);
    if !Ignored(c, m) && IsSuperior(b, i, m) {
      SuperiorLowersLeft(b, i, m);
    }
  }

  lemma DeliverPotential(net: Net, s: Fabric, k: nat)
    requires Matches(net, s) && k < |s.frames| && IsEndpoint(net, s.frames[k].to)
    ensures var t := Step(net, s, Deliver(k));
            if DeliversSuperior(net, s, Deliver(k)) then Potential(t) < Potential(s) else Potential(t) == Potential(s)
  {
    var f := s.frames[k];
    var b := f.to.bridge;
    var r := Receive(net.bridges[b], s.bridges[b], f.to.port, f.message);
    ReceivePotential(net.bridges[b], s.bridges[b], f.to.port, f.message);
    PotentialOfChange(s, b, r, Step(net, s, Deliver(k)));
  }

  /** Each superior BPDU lowers the potential; no other step changes it. */
  lemma StepPotential(net: Net, s: Fabric, a: Action)
    requires Matches(net, s)
    ensures var t := Step(net, s, a);
            if DeliversSuperior(net, s, a) then Potential(t) < Potential(s) else Potential(t) == Potential(s)
  {
    var t := Step(net, s, a);
    match a
    case Deliver(k) =>
      if k < |s.frames| && IsEndpoint(net, s.frames[k].to) {
        DeliverPotential(net, s, k);
      }
    case Converge(b) =>
      if b < |s.bridges| {
        BridgeLeftSame(s.bridges[b], t.bridges[b]);
        PotentialOfChange(s, b, t.bridges[b], t);
      }
    case Promote(b) =>
      if b < |s.bridges| {
        BridgeLeftSame(s.bridges[b], t.bridges[b]);
        PotentialOfChange(s, b, t.bridges[b], t);
      }
    case Advance(b, p) =>
      if b < |s.bridges| && p < |s.bridges[b].ports| {
        BridgeLeftSame(s.bridges[b], t.bridges[b]);
        PotentialOfChange(s, b, t.bridges[b], t);
      }
    case _ =>
      assert t.bridges == s.bridges;
  }

  function SuperiorCount(net: Net, s: Fabric, acts: seq<Action>): nat
    requires Matches(net, s)
    decreases |acts|
  {
    if acts == [] then 0
    else (if DeliversSuperior(net, s, acts[0]) then 1 else 0) + SuperiorCount(net, Step(net, s, acts[0]), acts[1..])
  }

  /** However long a run is, the superior BPDUs in it are bounded by what was left to learn at its start. */
  lemma {:induction false} FinitelyManySuperior(net: Net, s: Fabric, acts: seq<Action>)
    requires Matches(net, s)
    ensures SuperiorCount(net, s, acts) + Potential(Exec(net, s, acts)) <= Potential(s)
    decreases |acts|
  {
    if acts != [] {
      StepPotential(net, s, acts[0]);
      FinitelyManySuperior(net, Step(net, s, acts[0]), acts[1..]);
    }
  }

  // ----- Replies -----

  predicate WouldReply(net: Net, s: Fabric, e: Endpoint, v: Vector)
    requires Matches(net, s)
  {
    && IsEndpoint(net, e)
    && s.bridges[e.bridge].ports[e.port].role == RoleDesignated
    && Own(net.bridges[e.bridge], s.bridges[e.bridge], e.port).Superior(v)
  }

  /** A frame can set off one reply, which can set off at most one more. */
  function Weight(net: Net, s: Fabric, f: Frame): nat
    requires Matches(net, s)
  {
    if !WouldReply(net, s, f.to, f.message.vector) then 1
    else if f.to in net.peer
            && WouldReply(net, s, net.peer[f.to], Own(net.bridges[f.to.bridge], s.bridges[f.to.bridge], f.to.port)) then 3
    else 2
  }

  function Weights(net: Net, s: Fabric, frames: seq<Frame>): seq<nat>
    requires Matches(net, s)
  {
    seq(|frames|, i requires 0 <= i < |frames| => Weight(net, s, frames[i]))
  }

  function Load(net: Net, s: Fabric): nat
    requires Matches(net, s)
  {
    Sum(Weights(net, s, s.frames))
  }

  /** Roles and own vectors, all that weights depend on, are the same. */
  predicate SameReplies(s: Fabric, t: Fabric) {
    && |s.bridges| == |t.bridges|
    && forall b :: 0 <= b < |s.bridges| ==>
         && s.bridges[b].rootID == t.bridges[b].rootID
         && s.bridges[b].rootPathCost == t.bridges[b].rootPathCost
         && |s.bridges[b].ports| == |t.bridges[b].ports|
         && forall i :: 0 <= i < |s.bridges[b].ports| ==> s.bridges[b].ports[i].role == t.bridges[b].ports[i].role
  }

  lemma WeightsOfSame(net: Net, s: Fabric, t: Fabric, frames: seq<Frame>)
    requires Matches(net, s) && Matches(net, t) && SameReplies(s, t)
    ensures Weights(net, s, frames) == Weights(net, t, frames)
  {
    forall i | 0 <= i < |frames| ensures Weight(net, s, frames[i]) == Weight(net, t, frames[i]) {
    }
  }

  lemma ReplyIsLighter(net: Net, s: Fabric, f: Frame, reply: Message)
    requires WellFormed(net) && Matches(net, s) && f.to in net.peer
    requires WouldReply(net, s, f.to, f.message.vector)
    requires reply.vector == Own(net.bridges[f.to.bridge], s.bridges[f.to.bridge], f.to.port)
    ensures Weight(net, s, Frame(net.peer[f.to], reply)) < Weight(net, s, f)
  {
    var e := net.peer[f.to];
    var own := Own(net.bridges[e.bridge], s.bridges[e.bridge], e.port);
    CompareIsStrictTotalOrder(own, reply.vector, own);
  }

  lemma LoadWithout(net: Net, s: Fabric, k: nat)
    requires Matches(net, s) && k < |s.frames|
    ensures Sum(Weights(net, s, Without(s.frames, k))) == Load(net, s) - Weight(net, s, s.frames[k])
  {
    var ws := Weights(net, s, s.frames);
    SumSplit(ws, k);
    assert Weights(net, s, Without(s.frames, k)) == ws[..k] + ws[k + 1..];
    SumOfConcat(ws[..k], ws[k + 1..]);
  }

  lemma LoadOfConcat(net: Net, s: Fabric, a: seq<Frame>, b: seq<Frame>)
    requires Matches(net, s)
    ensures Sum(Weights(net, s, a + b)) == Sum(Weights(net, s, a)) + Sum(Weights(net, s, b))
  {
    assert Weights(net, s, a + b) == Weights(net, s, a) + Weights(net, s, b);
    SumOfConcat(Weights(net, s, a), Weights(net, s, b));
  }

  /** A BPDU that is not superior changes no role and no vector, and sets off at most one reply. */
  lemma InferiorResponse(c: Config, b: Bridge, i: nat, m: Message)
    requires Fits(c, b) && i < |b.ports| && (Ignored(c, m) || !IsSuperior(b, i, m))
    ensures var r := Receive(c, b, i, m);
            && r.rootID == b.rootID && r.rootPathCost == b.rootPathCost
            && forall j :: 0 <= j < |b.ports| ==> r.ports[j].role == b.ports[j].role
    ensures Responses(c, b, i, m) == []
         || (Responses(c, b, i, m) == [Outgoing(i, Message(Own(c, b, i), MessageAge(b)))] && Replies(c, b, i, m))
  {
  }

  lemma EmitOne(net: Net, b: nat, o: Outgoing)
    ensures Emit(net, b, [o])
         == if Endpoint(b, o.port) in net.peer then [Frame(net.peer[Endpoint(b, o.port)], o.message)] else []
  {
    assert [o][1..] == [];
  }

  lemma ResponseLoad(net: Net, s: Fabric, f: Frame)
    requires WellFormed(net) && Matches(net, s) && IsEndpoint(net, f.to)
    requires Ignored(net.bridges[f.to.bridge], f.message) || !IsSuperior(s.bridges[f.to.bridge], f.to.port, f.message)
    ensures var out := Responses(net.bridges[f.to.bridge], s.bridges[f.to.bridge], f.to.port, f.message);
            Sum(Weights(net, s, Emit(net, f.to.bridge, out))) < Weight(net, s, f)
  {
    var b, i := f.to.bridge, f.to.port;
    var out := Responses(net.bridges[b], s.bridges[b], i, f.message);
    InferiorResponse(net.bridges[b], s.bridges[b], i, f.message);
    if out != [] {
      EmitOne(net, b, out[0]);
      assert Endpoint(b, i) == f.to && out == [out[0]];
      if f.to in net.peer {
        ReplyIsLighter(net, s, f, out[0].message);
        assert Weights(net, s, Emit(net, b, out))[1..] == [];
      }
    }
  }

  lemma InferiorLowersLoad(net: Net, s: Fabric, k: nat)
    requires WellFormed(net) && Matches(net, s) && k < |s.frames| && IsEndpoint(net, s.frames[k].to)
    requires !DeliversSuperior(net, s, Deliver(k))
    ensures Load(net, Step(net, s, Deliver(k))) < Load(net, s)
  {
    var f := s.frames[k];
    var b, i := f.to.bridge, f.to.port;
    var t := Step(net, s, Deliver(k));
    var sent := Emit(net, b, Responses(net.bridges[b], s.bridges[b], i, f.message));
    InferiorResponse(net.bridges[b], s.bridges[b], i, f.message);
    WeightsOfSame(net, s, t, t.frames);
    LoadOfConcat(net, s, Without(s.frames, k), sent);
    LoadWithout(net, s, k);
    ResponseLoad(net, s, f);
  }

  /** Every delivery lowers the pair of potential and load, the former first. */
  lemma DeliveryDescends(net: Net, s: Fabric, k: nat)
    requires WellFormed(net) && Matches(net, s) && k < |s.frames| && IsEndpoint(net, s.frames[k].to)
    ensures var t := Step(net, s, Deliver(k));
            Potential(t) < Potential(s) || (Potential(t) == Potential(s) && Load(net, t) < Load(net, s))
  {
    DeliverPotential(net, s, k);
    if !DeliversSuperior(net, s, Deliver(k)) {
      InferiorLowersLoad(net, s, k);
    }
  }

  /** Whatever frame is delivered next, delivering until nothing is in flight comes to an end;
      so every round of hellos can be completed. */
  method DeliverAll(net: Net, s: Fabric) returns (t: Fabric, acts: seq<Action>)
    requires WellFormed(net) && Sound(net, s)
    ensures Matches(net, s) && t == Exec(net, s, acts) && t.frames == []
    ensures forall a :: a in acts ==> a.Deliver?
  {
    t, acts := s, [];
    while t.frames != []
      invariant Sound(net, t) && t == Exec(net, s, acts)
      invariant forall a :: a in acts ==> a.Deliver?
      decreases Potential(t), Load(net, t)
    {
      var k :| 0 <= k < |t.frames|;
      assert t.frames[k] in t.frames;
      DeliveryDescends(net, t, k);
      StepKeepsSound(net, t, Deliver(k));
      ExecOneMore(net, s, acts, Deliver(k));
      t, acts := Step(net, t, Deliver(k)), acts + [Deliver(k)];
    }
  }

  lemma ExecOneMore(net: Net, s: Fabric, acts: seq<Action>, a: Action)
    requires Matches(net, s)
    ensures Exec(net, s, acts + [a]) == Step(net, Exec(net, s, acts), a)
  {
    ExecSplits(net, s, acts + [a], |acts|);
    assert (acts + [a])[..|acts|] == acts && (acts + [a])[|acts|..] == [a] && [a][1..] == [];
  }
}
