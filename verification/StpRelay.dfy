/** What a bridge sends in answer to a BPDU, and how far the information travels on without any hello. */
module StpRelay {
  import opened Wrappers
  import opened Bytes
  import opened StpVector
  import opened StpBridge
  import opened StpNetwork
  import opened StpSafety
  import opened StpConvergence
  import opened StpTree
  import opened StpSettling

  // ----- One bridge -----

  /** How old what the bridge passes on is, in 1/256ths of a second: two seconds older than its root port's record. */
  predicate InformationAge(b: Bridge, age: nat) {
    age == match b.rootPort
           case None => 0
           case Some(p) => if p < |b.ports| && b.ports[p].received.Some? then b.ports[p].received.value.age + 512 else 0
  }

  /** Some port's role or state is not what it was. */
  predicate PortMoved(b: Bridge, r: Bridge) {
    |b.ports| == |r.ports| && exists i :: 0 <= i < |b.ports| && (b.ports[i].role, b.ports[i].state) != (r.ports[i].role, r.ports[i].state)
  }

  predicate InPortOrder(out: seq<Outgoing>) {
    forall x, y :: 0 <= x < y < |out| ==> out[x].port < out[y].port
  }

  /** Once each and in port order, what the bridge believes leaves by its designated ports, unless it is 20 seconds old. */
  ghost predicate Tells(c: Config, r: Bridge, out: seq<Outgoing>)
    requires Fits(c, r)
  {
    && InPortOrder(out)
    && forall o: Outgoing :: o in out <==>
         && o.port < |r.ports| && r.ports[o.port].role == RoleDesignated && o.message.age < 5120
         && InformationAge(r, o.message.age)
         && o.message.vector == Vector(r.rootID, r.rootPathCost, c.id, c.ports[o.port].portID)
  }

  /** What a bridge makes of a BPDU on port i. One too old, or its own, it drops. One superior to what the port holds it
      records there, and if that moves the role or state of any port, it tells every designated port; if not, nobody. Any
      other one it answers on the same port if that is designated and its own vector wins, or takes as a refresh if it says
      what the port holds, or drops. */
  ghost predicate Reacts(c: Config, b: Bridge, i: nat, m: Message, r: Bridge, out: seq<Outgoing>)
    requires Fits(c, b) && Fits(c, r) && i < |b.ports|
  {
    var held := b.ports[i].received;
    var own := Vector(b.rootID, b.rootPathCost, c.id, c.ports[i].portID);
    if m.age >= 5120 || m.vector.bridgeID == c.id then r == b && out == []
    else if held == None || m.vector.Superior(held.value.vector) then
      && r.ports[i].received == Some(m)
      && (forall j :: 0 <= j < |b.ports| && j != i ==> r.ports[j].received == b.ports[j].received)
      && (if PortMoved(b, r) then Tells(c, r, out) else out == [])
    else if b.ports[i].role == RoleDesignated && own.Superior(m.vector) then
      r == b && |out| == 1 && out[0].port == i && out[0].message.vector == own && InformationAge(b, out[0].message.age)
    else
      out == [] && r == if m.vector == held.value.vector then b.(ports := b.ports[i := b.ports[i].(received := Some(m))]) else b
  }

  lemma {:induction false} CollectInOrder(c: Config, b: Bridge, k: nat)
    requires Fits(c, b) && k <= |b.ports|
    ensures InPortOrder(Collect(c, b, k))
  {
    if k > 0 {
      CollectInOrder(c, b, k - 1);
      assert forall o :: o in Collect(c, b, k - 1) ==> o.port < k - 1;
    }
  }

  lemma CollectTells(c: Config, b: Bridge)
    requires Fits(c, b)
    requires forall i :: 0 <= i < |b.ports| && b.ports[i].role == RoleDesignated ==> b.ports[i].state != StateDisabled
    ensures Tells(c, b, Collect(c, b, |b.ports|))
  {
    CollectInOrder(c, b, |b.ports|);
    var out := Collect(c, b, |b.ports|);
    forall o: Outgoing | o.port < |b.ports| && Advertises(b, o.port) && o.message == Message(Own(c, b, o.port), MessageAge(b))
      ensures o in out
    {
      assert Outgoing(o.port, o.message) in out;
    }
  }

  lemma MovedIsChanged(b: Bridge, r: Bridge)
    requires |b.ports| == |r.ports|
    ensures PortMoved(b, r) <==> Changed(b, r)
  {
  }

  /** A port on its way to forwarding stays there while its role allows it, any other starts by listening, and a port that
      is neither root nor designated blocks at once. */
  lemma StatesFollowRoles(c: Config, b: Bridge, r: Bridge, i: nat)
    requires Fits(c, b) && r == Recompute(c, b) && i < |b.ports|
    ensures r.ports[i].role == RoleRoot || r.ports[i].role == RoleDesignated ==>
              if b.ports[i].state == StateForwarding || b.ports[i].state == StateLearning
              then r.ports[i].state == b.ports[i].state else r.ports[i].state == StateListening
    ensures r.ports[i].role == RoleAlternate ==> r.ports[i].state == StateBlocking
    ensures r.ports[i].role != RoleDisabled
  {
    var m := Choose(c, b);
    assert r.ports[i] == SetPortRole(m.ports[i], RoleFor(c, m, i));
  }

  lemma SuperiorIsRelayed(c: Config, b: Bridge, i: nat, m: Message, r: Bridge)
    requires Fits(c, b) && i < |b.ports| && r == Recompute(c, Record(b, i, m))
    ensures PortMoved(b, r) <==> Changed(b, r)
    ensures Tells(c, r, Collect(c, r, |r.ports|))
  {
    MovedIsChanged(b, r);
    forall j | 0 <= j < |r.ports| && r.ports[j].role == RoleDesignated ensures r.ports[j].state != StateDisabled {
      StatesFollowRoles(c, Record(b, i, m), r, j);
    }
    CollectTells(c, r);
  }

  /** Whatever the bridge holds, it reacts to a BPDU in this way. */
  lemma ReactsToEvery(c: Config, b: Bridge, i: nat, m: Message)
    requires Fits(c, b) && i < |b.ports|
    ensures Reacts(c, b, i, m, Receive(c, b, i, m), Responses(c, b, i, m))
  {
    if !Ignored(c, m) && IsSuperior(b, i, m) {
      SuperiorIsRelayed(c, b, i, m, Receive(c, b, i, m));
    }
  }

  /** The bridge has heard on port i alone, which leads to its root. */
  ghost predicate HeardOnly(c: Config, b: Bridge, i: nat, m: Message) {
    && Coherent(c, b) && i < |b.ports| && b.rootPort == Some(i)
    && forall j :: 0 <= j < |b.ports| ==> b.ports[j].received == if j == i then Some(m) else None
  }

  lemma HeardOnlyRoles(c: Config, b: Bridge, i: nat, m: Message)
    requires HeardOnly(c, b, i, m)
    ensures forall j :: 0 <= j < |b.ports| ==> b.ports[j].role == if j == i then RoleRoot else RoleDesignated
    ensures b.rootPathCost == Add32(m.vector.rootPathCost, c.ports[i].pathCost)
  {
    forall j | 0 <= j < |b.ports| ensures b.ports[j].role == if j == i then RoleRoot else RoleDesignated {
      assert b.ports[j].role == RoleFor(c, b, j);
    }
  }

  lemma StillRootPort(c: Config, b: Bridge, i: nat, m: Message, r: Bridge)
    requires Elected(c, b) && Elected(c, r) && b.rootPort == Some(i) && i < |r.ports|
    requires forall j :: 0 <= j < |r.ports| ==> r.ports[j].received == if j == i then Some(m) else None
    requires m.vector.rootID == b.rootID
    ensures r.rootID == b.rootID && r.rootPort == Some(i)
  {
    RankInjective(r.rootID, c.id);
    RankInjective(b.rootID, c.id);
    assert r.ports[i].received == Some(m);
    if r.rootPort.Some? {
      assert Leads(r.ports, r.rootID, r.rootPort.value);
    }
  }

  /** So an improvement that moves no port is kept quiet: a bridge that hears of its root on one port alone, and there of a
      cheaper way to it, knows the lower cost and tells nobody before the next hello. */
  lemma ImprovementKeptQuiet(c: Config, b: Bridge, i: nat, was: Message, m: Message, r: Bridge)
    requires HeardOnly(c, b, i, was) && r == Receive(c, b, i, m)
    requires forall j :: 0 <= j < |b.ports| ==> b.ports[j].state != StateBlocking
    requires m.age < 5120 && m.vector.bridgeID != c.id && m.vector.rootID == b.rootID
    requires m.vector.rootPathCost < was.vector.rootPathCost && was.vector.rootPathCost + c.ports[i].pathCost < TWO_32
    ensures r.rootID == b.rootID && r.rootPathCost < b.rootPathCost && Responses(c, b, i, m) == []
  {
    assert Leads(b.ports, b.rootID, i) && was.vector.rootID == b.rootID;
    RecomputeCoherent(c, Record(b, i, m));
    StillRootPort(c, b, i, m, r);
    HeardOnlyRoles(c, b, i, was);
    HeardOnlyRoles(c, r, i, m);
    SmallModulo(was.vector.rootPathCost + c.ports[i].pathCost, TWO_32);
    SmallModulo(m.vector.rootPathCost + c.ports[i].pathCost, TWO_32);
    NothingMoves(c, b, i, m, r);
  }

  lemma NothingMoves(c: Config, b: Bridge, i: nat, m: Message, r: Bridge)
    requires Fits(c, b) && i < |b.ports| && !Ignored(c, m) && IsSuperior(b, i, m) && r == Receive(c, b, i, m)
    requires forall j :: 0 <= j < |b.ports| ==> b.ports[j].state != StateBlocking && r.ports[j].role == b.ports[j].role
    requires forall j :: 0 <= j < |b.ports| ==> b.ports[j].role == RoleRoot || b.ports[j].role == RoleDesignated
    requires forall j :: 0 <= j < |b.ports| ==> b.ports[j].state != StateDisabled
    ensures Responses(c, b, i, m) == []
  {
    forall j | 0 <= j < |b.ports| ensures b.ports[j].state == r.ports[j].state {
      StatesFollowRoles(c, Record(b, i, m), r, j);
    }
  }

  // ----- The network -----

  /** A role or state moves only by a superior BPDU. */
  lemma MovedBySuperior(c: Config, b: Bridge, i: nat, m: Message)
    requires Fits(c, b) && i < |b.ports| && PortMoved(b, Receive(c, b, i, m))
    ensures Responses(c, b, i, m) == Collect(c, Receive(c, b, i, m), |b.ports|)
  {
    MovedIsChanged(b, Receive(c, b, i, m));
    if Ignored(c, m) || !IsSuperior(b, i, m) {
      assert false;
    }
  }

  /** A bridge that a delivery moves puts what it now believes on the link of each designated port. */
  lemma MoveIsSent(net: Net, s: Fabric, k: nat, f: Endpoint)
    requires WellFormed(net) && Matches(net, s) && k < |s.frames| && f in net.peer
    requires var u := Step(net, s, Deliver(k));
             && PortMoved(s.bridges[f.bridge], u.bridges[f.bridge])
             && Advertises(u.bridges[f.bridge], f.port)
    ensures var u := Step(net, s, Deliver(k));
            HelloFrame(net, u, f) in u.frames && !Ignored(net.bridges[net.peer[f].bridge], HelloFrame(net, u, f).message)
  {
    var u, b, x := Step(net, s, Deliver(k)), f.bridge, s.frames[k];
    assert x.to.bridge == b;
    MovedBySuperior(net.bridges[b], s.bridges[b], x.to.port, x.message);
    HelloSends(net, u, f);
  }

  /** From u to v some port of f's bridge moved, and what the bridge believes is young enough to be told to f's far end. */
  ghost predicate MovedToTell(net: Net, u: Fabric, v: Fabric, f: Endpoint)
    requires Matches(net, u) && Matches(net, v) && IsEndpoint(net, f)
  {
    && PortMoved(u.bridges[f.bridge], v.bridges[f.bridge])
    && PortAt(v, f).role == RoleDesignated
    && exists age :: age < 5120 && InformationAge(v.bridges[f.bridge], age)
  }

  /** In t the far end of f holds what f's bridge believed in v, or better; exactly that if the bridge has not learned better
      since. */
  ghost predicate Heard(net: Net, v: Fabric, t: Fabric, f: Endpoint)
    requires Matches(net, v) && Matches(net, t) && IsEndpoint(net, f) && f in net.peer && IsEndpoint(net, net.peer[f])
  {
    var far := PortAt(t, net.peer[f]).received;
    && far.Some? && NotWorse(far.value.vector, OwnAt(net, v, f))
    && (OwnAt(net, t, f) == OwnAt(net, v, f) ==> far.value.vector == OwnAt(net, v, f))
  }

  /** Unless lost, it is recorded there: once everything in flight has been delivered, the far end of each port that was
      designated after the move has heard of it. No hello is needed. */
  lemma MoveIsHeard(net: Net, s: Fabric, k: nat, rest: seq<Action>, f: Endpoint, u: Fabric, t: Fabric)
    requires WellFormed(net) && Sound(net, s) && k < |s.frames| && Lossless(rest) && f in net.peer
    requires u == Step(net, s, Deliver(k)) && t == Exec(net, u, rest) && t.frames == []
    requires MovedToTell(net, s, u, f)
    ensures Heard(net, u, t, f)
  {
    StepKeepsSound(net, s, Deliver(k));
    ExecKeepsSound(net, u, rest);
    assert BridgeSound(net, u, f.bridge);
    MoveIsSent(net, s, k, f);
    RunKeepsInformed(net, u, rest, HelloFrame(net, u, f));
    if OwnAt(net, t, f) == OwnAt(net, u, f) {
      RecordIsPeersAtBest(net, t, f);
    }
  }

  lemma ExecAround(net: Net, s: Fabric, acts: seq<Action>, j: nat)
    requires Matches(net, s) && j < |acts|
    ensures Exec(net, s, acts[..j + 1]) == Step(net, Exec(net, s, acts[..j]), acts[j])
    ensures Exec(net, s, acts) == Exec(net, Exec(net, s, acts[..j + 1]), acts[j + 1..])
  {
    ExecSplits(net, s, acts, j + 1);
    ExecSplits(net, s, acts[..j + 1], j);
    assert acts[..j + 1][..j] == acts[..j] && acts[..j + 1][j..] == [acts[j]] && [acts[j]][1..] == [];
  }

  lemma MoveIsOfAFrame(net: Net, s: Fabric, k: nat, u: Fabric, f: Endpoint)
    requires Matches(net, s) && IsEndpoint(net, f) && u == Step(net, s, Deliver(k)) && MovedToTell(net, s, u, f)
    ensures k < |s.frames|
  {
  }

  /** In a run in which nothing is lost and everything in flight is delivered in the end, every bridge that a delivery moves
      has been heard of at the far ends of its designated ports, whatever else happens meanwhile. */
  lemma CascadeIsHeard(net: Net, s: Fabric, acts: seq<Action>, j: nat, f: Endpoint)
    requires WellFormed(net) && Sound(net, s) && Lossless(acts) && Exec(net, s, acts).frames == [] && f in net.peer
    requires j < |acts| && acts[j].Deliver? && MovedToTell(net, Exec(net, s, acts[..j]), Exec(net, s, acts[..j + 1]), f)
    ensures Heard(net, Exec(net, s, acts[..j + 1]), Exec(net, s, acts), f)
  {
    var u, v := Exec(net, s, acts[..j]), Exec(net, s, acts[..j + 1]);
    ExecAround(net, s, acts, j);
    ExecKeepsSound(net, s, acts[..j]);
    MoveIsOfAFrame(net, u, acts[j].index, v, f);
    MoveIsHeard(net, u, acts[j].index, acts[j + 1..], f, v, Exec(net, s, acts));
  }

  // ----- One round is enough where no improvement is kept quiet -----

  /** The frame brings f's far end what f's bridge now believes, young enough to be taken. */
  predicate Brings(net: Net, s: Fabric, f: Endpoint, x: Frame)
    requires Matches(net, s) && IsEndpoint(net, f)
  {
    f in net.peer && x.to == net.peer[f] && x.message.vector == OwnAt(net, s, f) && x.message.age < MAX_AGE
  }

  /** If f is to tell its far end anything, that is on its way or has arrived. */
  ghost predicate UpToDate(net: Net, s: Fabric, f: Endpoint)
    requires Matches(net, s) && IsEndpoint(net, f)
  {
    PortAt(s, f).role == RoleDesignated && MessageAge(s.bridges[f.bridge]) < MAX_AGE ==>
      exists x :: Brings(net, s, f, x) && Informed(net, s, x)
  }

  /** The bridge learns of a better root or cost, or young news where it had none, and no port moves. */
  predicate Quiet(b: Bridge, r: Bridge) {
    && !PortMoved(b, r)
    && (b.rootID != r.rootID || b.rootPathCost != r.rootPathCost || MessageAge(r) < MAX_AGE <= MessageAge(b))
  }

  /** The states of a run, one before each action and one after the last. */
  ghost predicate IsTrace(net: Net, states: seq<Fabric>, acts: seq<Action>) {
    && |states| == |acts| + 1
    && (forall i :: 0 <= i < |states| ==> Sound(net, states[i]))
    && forall i :: 0 <= i < |acts| ==> Follows(net, states, acts, i)
  }

  ghost predicate Follows(net: Net, states: seq<Fabric>, acts: seq<Action>, i: nat)
    requires i < |acts| && |states| == |acts| + 1 && Sound(net, states[i])
  {
    states[i + 1] == Step(net, states[i], acts[i])
  }

  /** No step of the run is a quiet improvement of bridge b. */
  predicate NeverQuiet(states: seq<Fabric>, b: nat)
    requires forall i :: 0 <= i < |states| ==> b < |states[i].bridges|
  {
    forall i :: 0 <= i < |states| - 1 ==> !QuietAt(states, b, i)
  }

  predicate QuietAt(states: seq<Fabric>, b: nat, i: nat)
    requires i + 1 < |states| && forall j :: 0 <= j < |states| ==> b < |states[j].bridges|
  {
    Quiet(states[i].bridges[b], states[i + 1].bridges[b])
  }

  /** Every run has such a sequence of states. */
  lemma {:induction false} TraceExists(net: Net, s: Fabric, acts: seq<Action>) returns (states: seq<Fabric>)
    requires WellFormed(net) && Sound(net, s)
    ensures IsTrace(net, states, acts) && states[0] == s && states[|acts|] == Exec(net, s, acts)
    decreases |acts|
  {
    if acts == [] {
      states := [s];
    } else {
      StepKeepsSound(net, s, acts[0]);
      var rest := TraceExists(net, Step(net, s, acts[0]), acts[1..]);
      states := [s] + rest;
      forall i | 0 <= i < |acts| ensures Follows(net, states, acts, i) {
        if i > 0 {
          assert Follows(net, rest, acts[1..], i - 1);
        }
      }
    }
  }

  lemma SentIsUpToDate(net: Net, u: Fabric, f: Endpoint)
    requires WellFormed(net) && Matches(net, u) && f in net.peer
    requires Advertises(u.bridges[f.bridge], f.port) ==> HelloFrame(net, u, f) in u.frames
    requires PortAt(u, f).role == RoleDesignated ==> PortAt(u, f).state != StateDisabled
    ensures UpToDate(net, u, f)
  {
    if Advertises(u.bridges[f.bridge], f.port) {
      assert Brings(net, u, f, HelloFrame(net, u, f));
    }
  }

  lemma UnchangedIsUpToDate(net: Net, s: Fabric, a: Action, f: Endpoint, u: Fabric)
    requires WellFormed(net) && Matches(net, s) && f in net.peer && !a.Lose? && u == Step(net, s, a)
    requires UpToDate(net, s, f) && OwnAt(net, u, f) == OwnAt(net, s, f) && PortAt(u, f).role == PortAt(s, f).role
    requires MessageAge(u.bridges[f.bridge]) < MAX_AGE ==> MessageAge(s.bridges[f.bridge]) < MAX_AGE
    ensures UpToDate(net, u, f)
  {
    if PortAt(u, f).role == RoleDesignated && MessageAge(u.bridges[f.bridge]) < MAX_AGE {
      var x :| Brings(net, s, f, x) && Informed(net, s, x);
      DifferentBridges(net, f.bridge, net.peer[f].bridge);
      StepKeepsInformed(net, s, a, x);
      assert Brings(net, u, f, x);
    }
  }

  lemma MovedIsUpToDate(net: Net, s: Fabric, a: Action, f: Endpoint, u: Fabric)
    requires WellFormed(net) && Sound(net, s) && Sound(net, u) && f in net.peer && u == Step(net, s, a)
    requires a.Deliver? && PortMoved(s.bridges[f.bridge], u.bridges[f.bridge])
    ensures UpToDate(net, u, f)
  {
    assert BridgeSound(net, u, f.bridge);
    if a.index < |s.frames| && Advertises(u.bridges[f.bridge], f.port) {
      MoveIsSent(net, s, a.index, f);
    }
    SentIsUpToDate(net, u, f);
  }

  lemma ToldIsUpToDate(net: Net, s: Fabric, a: Action, f: Endpoint, u: Fabric)
    requires WellFormed(net) && Sound(net, u) && Matches(net, s) && f in net.peer && u == Step(net, s, a)
    requires a == Hello(f.bridge) || a == Converge(f.bridge)
    ensures UpToDate(net, u, f)
  {
    assert BridgeSound(net, u, f.bridge);
    var b := f.bridge;
    var out := Collect(net.bridges[b], u.bridges[b], |u.bridges[b].ports|);
    assert forall x :: x in Emit(net, b, out) ==> x in u.frames;
    if Advertises(u.bridges[b], f.port) {
      assert Outgoing(f.port, Message(Own(net.bridges[b], u.bridges[b], f.port), MessageAge(u.bridges[b]))) in out;
      assert Endpoint(b, f.port) == f;
    }
    SentIsUpToDate(net, u, f);
  }

  lemma ViewStays(net: Net, s: Fabric, a: Action, f: Endpoint, u: Fabric)
    requires Matches(net, s) && IsEndpoint(net, f) && u == Step(net, s, a) && a != Converge(f.bridge)
    requires !(a.Deliver? && PortMoved(s.bridges[f.bridge], u.bridges[f.bridge])) && !Quiet(s.bridges[f.bridge], u.bridges[f.bridge])
    ensures OwnAt(net, u, f) == OwnAt(net, s, f) && PortAt(u, f).role == PortAt(s, f).role
    ensures MessageAge(u.bridges[f.bridge]) < MAX_AGE ==> MessageAge(s.bridges[f.bridge]) < MAX_AGE
  {
  }

  /** A step that loses nothing and is not a quiet improvement of f's bridge keeps f's far end up to date. */
  lemma StepKeepsUpToDate(net: Net, s: Fabric, a: Action, f: Endpoint, u: Fabric)
    requires WellFormed(net) && Sound(net, s) && Sound(net, u) && f in net.peer && !a.Lose? && u == Step(net, s, a)
    requires UpToDate(net, s, f) && !Quiet(s.bridges[f.bridge], u.bridges[f.bridge])
    ensures UpToDate(net, u, f)
  {
    if a == Converge(f.bridge) {
      ToldIsUpToDate(net, s, a, f, u);
    } else if a.Deliver? && PortMoved(s.bridges[f.bridge], u.bridges[f.bridge]) {
      MovedIsUpToDate(net, s, a, f, u);
    } else {
      ViewStays(net, s, a, f, u);
      UnchangedIsUpToDate(net, s, a, f, u);
    }
  }

  lemma {:induction false} TraceIsRun(net: Net, states: seq<Fabric>, acts: seq<Action>, i: nat)
    requires IsTrace(net, states, acts) && i <= |acts|
    ensures states[|acts|] == Exec(net, states[i], acts[i..])
    decreases |acts| - i
  {
    if i < |acts| {
      assert Follows(net, states, acts, i);
      TraceIsRun(net, states, acts, i + 1);
      assert acts[i..][1..] == acts[i + 1..];
    }
  }

  lemma NextIsUpToDate(net: Net, states: seq<Fabric>, acts: seq<Action>, f: Endpoint, i: nat)
    requires WellFormed(net) && f in net.peer && Lossless(acts) && IsTrace(net, states, acts) && NeverQuiet(states, f.bridge)
    requires i < |acts| && UpToDate(net, states[i], f)
    ensures UpToDate(net, states[i + 1], f)
  {
    assert Follows(net, states, acts, i) && !QuietAt(states, f.bridge, i) && acts[i] in acts;
    StepKeepsUpToDate(net, states[i], acts[i], f, states[i + 1]);
  }

  lemma {:induction false} TraceKeepsUpToDate(net: Net, states: seq<Fabric>, acts: seq<Action>, f: Endpoint, i: nat, j: nat)
    requires WellFormed(net) && f in net.peer && Lossless(acts) && IsTrace(net, states, acts) && NeverQuiet(states, f.bridge)
    requires i <= j <= |acts| && UpToDate(net, states[i], f)
    ensures UpToDate(net, states[j], f)
    decreases j
  {
    if i < j {
      TraceKeepsUpToDate(net, states, acts, f, i, j - 1);
      NextIsUpToDate(net, states, acts, f, j - 1);
    }
  }

  lemma RoundIsUpToDate(net: Net, states: seq<Fabric>, acts: seq<Action>, f: Endpoint)
    requires WellFormed(net) && f in net.peer && Lossless(acts) && Hello(f.bridge) in acts
    requires IsTrace(net, states, acts) && NeverQuiet(states, f.bridge)
    ensures UpToDate(net, states[|acts|], f)
  {
    var i :| 0 <= i < |acts| && acts[i] == Hello(f.bridge);
    assert Follows(net, states, acts, i);
    ToldIsUpToDate(net, states[i], acts[i], f, states[i + 1]);
    TraceKeepsUpToDate(net, states, acts, f, i + 1, |acts|);
  }

  /** One round of hellos in which f's bridge never improves quietly leaves f's far end with exactly what f's bridge then
      believes, in a network of any size and depth. */
  lemma OneRoundTeaches(net: Net, states: seq<Fabric>, acts: seq<Action>, f: Endpoint, t: Fabric)
    requires WellFormed(net) && f in net.peer && IsTrace(net, states, acts) && IsRound(net, states[0], acts) && t == states[|acts|]
    requires NeverQuiet(states, f.bridge)
    requires PortAt(t, f).role == RoleDesignated && MessageAge(t.bridges[f.bridge]) < MAX_AGE
    ensures Taught(net, t, f)
  {
    RoundIsUpToDate(net, states, acts, f);
    TraceIsRun(net, states, acts, 0);
    assert acts[0..] == acts;
    var x :| Brings(net, t, f, x) && Informed(net, t, x);
    RecordIsPeersAtBest(net, t, f);
  }

  /** So one round settles a network, where otherwise it takes as many as the tree is deep: the relayed BPDUs do the rest, if
      no bridge improves quietly during it and in the end none that has a designated port on a link is at the age limit. */
  lemma OneRoundSettles(net: Net, states: seq<Fabric>, acts: seq<Action>, t: Fabric)
    requires WellFormed(net) && IsTrace(net, states, acts) && IsRound(net, states[0], acts) && t == states[|acts|]
    requires forall b :: 0 <= b < |net.bridges| ==> NeverQuiet(states, b)
    requires forall f :: f in net.peer && PortAt(t, f).role == RoleDesignated ==> MessageAge(t.bridges[f.bridge]) < 5120
    ensures t == Exec(net, states[0], acts) && Settled(net, t)
  {
    TraceIsRun(net, states, acts, 0);
    assert acts[0..] == acts;
    forall f | f in net.peer && PortAt(t, f).role == RoleDesignated ensures Taught(net, t, f) {
      OneRoundTeaches(net, states, acts, f, t);
    }
  }
}
