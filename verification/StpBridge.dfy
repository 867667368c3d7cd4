/** One bridge running the spanning tree protocol, as values and functions.
    Ports are indexed in the order of their port identifiers. */
module StpBridge {
  import opened Wrappers
  import opened Bytes
  import opened StpVector

  // BPDU times are 1/256ths of a second.
  const HELLO_TIME: nat := 512
  const MAX_AGE: nat := 5120

  datatype Role = RoleDisabled | RoleRoot | RoleDesignated | RoleAlternate

  datatype State = StateDisabled | StateBlocking | StateListening | StateLearning | StateForwarding

  /** What a configuration BPDU says: a priority vector and the age of the information. */
  datatype Message = Message(vector: Vector, age: nat)

  datatype PortConfig = PortConfig(portID: uint16, pathCost: uint32)

  datatype Config = Config(id: BridgeID, ports: seq<PortConfig>)

  datatype Port = Port(role: Role, state: State, received: Option<Message>)

  datatype Bridge = Bridge(rootID: BridgeID, rootPathCost: uint32, rootPort: Option<nat>, ports: seq<Port>) {

    /** This bridge knows a root and a cost at least as good as the given ones. */
    predicate AtLeast(root: BridgeID, cost: nat) {
      rootID.Rank() < root.Rank() || (rootID == root && rootPathCost <= cost)
    }
  }

  /** A BPDU to send from a port. */
  datatype Outgoing = Outgoing(port: nat, message: Message)

  predicate Fits(c: Config, b: Bridge) {
    |b.ports| == |c.ports|
  }

  /** A bridge starts by believing it is the root of the tree. */
  function Fresh(c: Config): (b: Bridge)
    ensures Fits(c, b)
  {
    Bridge(c.id, 0, None, seq(|c.ports|, i => Port(RoleDesignated, StateBlocking, None)))
  }

  /** The vector this bridge would send from port i. */
  function Own(c: Config, b: Bridge, i: nat): Vector
    requires i < |c.ports|
  {
    Vector(b.rootID, b.rootPathCost, c.id, c.ports[i].portID)
  }

  // ----- The spanning tree computation -----

  /** Step 1: the best root identifier among our own and those recorded on the first k ports. */
  function Elect(c: Config, ports: seq<Port>, k: nat): BridgeID
    requires k <= |ports|
  {
    if k == 0 then c.id
    else
      var best := Elect(c, ports, k - 1);
      if ports[k - 1].received.Some? && ports[k - 1].received.value.vector.rootID.Compare(best) < 0
      then ports[k - 1].received.value.vector.rootID
      else best
  }

  /** The recorded vector with the cost of the receiving port added, in 32-bit arithmetic. */
  function Candidate(c: Config, ports: seq<Port>, i: nat): Vector
    requires i < |c.ports| == |ports| && ports[i].received.Some?
  {
    var v := ports[i].received.value.vector;
    Vector(v.rootID, Add32(v.rootPathCost, c.ports[i].pathCost), v.bridgeID, v.portID)
  }

  predicate Leads(ports: seq<Port>, root: BridgeID, i: nat)
    requires i < |ports|
  {
    ports[i].received.Some? && ports[i].received.value.vector.rootID == root
  }

  /** Step 2: among the first k ports, the one with the best path to the root. */
  function BestPort(c: Config, ports: seq<Port>, root: BridgeID, k: nat): (r: Option<nat>)
    requires k <= |ports| == |c.ports|
    ensures r.Some? ==> r.value < k && Leads(ports, root, r.value)
  {
    if k == 0 then None
    else
      var best := BestPort(c, ports, root, k - 1);
      if !Leads(ports, root, k - 1) then best
      else if best == None || Candidate(c, ports, k - 1).Compare(Candidate(c, ports, best.value)) < 0 then Some(k - 1)
      else best
  }

  function RoleFor(c: Config, b: Bridge, i: nat): Role
    requires Fits(c, b) && i < |b.ports|
  {
    if b.rootPort == Some(i) then RoleRoot
    else if b.ports[i].received == None || Own(c, b, i).Compare(b.ports[i].received.value.vector) < 0 then RoleDesignated
    else RoleAlternate
  }

  /** Applies a role; a port on its way to forwarding keeps its state, any other starts listening or blocks. */
  function SetPortRole(p: Port, role: Role): Port {
    match role
    case RoleRoot | RoleDesignated =>
      if p.state == StateForwarding || p.state == StateLearning then p.(role := role)
      else p.(role := role, state := StateListening)
    case _ => p.(role := role, state := StateBlocking)
  }

  /** Root, root port and cost; roles not yet assigned. */
  function Choose(c: Config, b: Bridge): (r: Bridge)
    requires Fits(c, b)
    ensures Fits(c, r) && r.ports == b.ports
  {
    var root := Elect(c, b.ports, |b.ports|);
    var port := if root == c.id then None else BestPort(c, b.ports, root, |b.ports|);
    var cost := if port == None then 0 else Candidate(c, b.ports, port.value).rootPathCost;
    b.(rootID := root, rootPathCost := cost, rootPort := port)
  }

  /** Step 3: a role for every port. */
  function AssignRoles(c: Config, b: Bridge): (r: Bridge)
    requires Fits(c, b)
    ensures Fits(c, r) && r == b.(ports := r.ports)
    ensures forall i :: 0 <= i < |b.ports| ==> r.ports[i].received == b.ports[i].received
  {
    b.(ports := seq(|b.ports|, i requires 0 <= i < |b.ports| => SetPortRole(b.ports[i], RoleFor(c, b, i))))
  }

  function Recompute(c: Config, b: Bridge): (r: Bridge)
    requires Fits(c, b)
    ensures Fits(c, r)
    ensures forall i :: 0 <= i < |b.ports| ==> r.ports[i].received == b.ports[i].received
  {
    AssignRoles(c, Choose(c, b))
  }

  // ----- Transmission and reception -----

  /** Zero at the root, otherwise the age recorded on the root port plus one hello interval. */
  function MessageAge(b: Bridge): nat {
    if b.rootPort.Some? && b.rootPort.value < |b.ports| && b.ports[b.rootPort.value].received.Some?
    then b.ports[b.rootPort.value].received.value.age + HELLO_TIME
    else 0
  }

  predicate Advertises(b: Bridge, i: nat)
    requires i < |b.ports|
  {
    && b.ports[i].role == RoleDesignated
    && b.ports[i].state != StateDisabled
    && MessageAge(b) < MAX_AGE
  }

  /** One BPDU for every designated port among the first k, in port order. */
  function Collect(c: Config, b: Bridge, k: nat): (out: seq<Outgoing>)
    requires Fits(c, b) && k <= |b.ports|
    ensures forall o :: o in out ==> o.port < k && Advertises(b, o.port) && o.message == Message(Own(c, b, o.port), MessageAge(b))
    ensures forall i :: 0 <= i < k && Advertises(b, i) ==> Outgoing(i, Message(Own(c, b, i), MessageAge(b))) in out
  {
    if k == 0 then []
    else
      var rest := Collect(c, b, k - 1);
      if Advertises(b, k - 1) then rest + [Outgoing(k - 1, Message(Own(c, b, k - 1), MessageAge(b)))] else rest
  }

  /** Some port's role or state differs. */
  predicate Changed(before: Bridge, after: Bridge)
    requires |before.ports| == |after.ports|
  {
    exists i :: 0 <= i < |before.ports|
      && (before.ports[i].role != after.ports[i].role || before.ports[i].state != after.ports[i].state)
  }

  /** The received information replaces what port i holds. */
  predicate IsSuperior(b: Bridge, i: nat, m: Message)
    requires i < |b.ports|
  {
    b.ports[i].received == None || m.vector.Compare(b.ports[i].received.value.vector) < 0
  }

  /** The BPDU is discarded: too old, or our own. */
  predicate Ignored(c: Config, m: Message) {
    m.age >= MAX_AGE || m.vector.bridgeID.Compare(c.id) == 0
  }

  predicate Replies(c: Config, b: Bridge, i: nat, m: Message)
    requires Fits(c, b) && i < |b.ports|
  {
    b.ports[i].role == RoleDesignated && Own(c, b, i).Compare(m.vector) < 0
  }

  function Record(b: Bridge, i: nat, m: Message): Bridge
    requires i < |b.ports|
  {
    b.(ports := b.ports[i := b.ports[i].(received := Some(m))])
  }

  /** The bridge after a BPDU arrives on port i. */
  function Receive(c: Config, b: Bridge, i: nat, m: Message): (r: Bridge)
    requires Fits(c, b) && i < |b.ports|
    ensures Fits(c, r)
  {
    if Ignored(c, m) then b
    else if IsSuperior(b, i, m) then Recompute(c, Record(b, i, m))
    else if Replies(c, b, i, m) then b
    else if m.vector == b.ports[i].received.value.vector then Record(b, i, m)
    else b
  }

  /** What the bridge sends when a BPDU arrives on port i. */
  function Responses(c: Config, b: Bridge, i: nat, m: Message): seq<Outgoing>
    requires Fits(c, b) && i < |b.ports|
  {
    if Ignored(c, m) then []
    else if IsSuperior(b, i, m) then
      var r := Receive(c, b, i, m);
      if Changed(b, r) then Collect(c, r, |r.ports|) else []
    else if Replies(c, b, i, m) then [Outgoing(i, Message(Own(c, b, i), MessageAge(b)))]
    else []
  }

  // ----- What a computed bridge satisfies -----

  /** The root is the best identifier known, and the root port offers the best path to it. */
  ghost predicate Elected(c: Config, b: Bridge) {
    && Fits(c, b)
    && b.rootID.Rank() <= c.id.Rank()
    && (forall i :: 0 <= i < |b.ports| && b.ports[i].received.Some? ==>
          b.rootID.Rank() <= b.ports[i].received.value.vector.rootID.Rank())
    && (b.rootPort == None <==> b.rootID == c.id)
    && (b.rootPort == None ==> b.rootPathCost == 0)
    && (b.rootPort.Some? ==>
          && b.rootPort.value < |b.ports|
          && Leads(b.ports, b.rootID, b.rootPort.value)
          && b.rootPathCost == Candidate(c, b.ports, b.rootPort.value).rootPathCost
          && forall i :: 0 <= i < |b.ports| && Leads(b.ports, b.rootID, i) ==>
               !Candidate(c, b.ports, i).Superior(Candidate(c, b.ports, b.rootPort.value)))
  }

  /** Every port has the role its recorded vector calls for, and an alternate port is blocking. */
  predicate RolesAssigned(c: Config, b: Bridge)
    requires Fits(c, b)
  {
    forall i :: 0 <= i < |b.ports| ==>
      && b.ports[i].role == RoleFor(c, b, i)
      && b.ports[i].state != StateDisabled
      && (b.ports[i].role == RoleAlternate ==> b.ports[i].state == StateBlocking)
  }

  /** Root, cost, root port and roles follow from the recorded vectors as clause 8 of 802.1D asks. */
  ghost predicate Coherent(c: Config, b: Bridge) {
    Elected(c, b) && RolesAssigned(c, b)
  }

  lemma {:induction false} ElectIsBest(c: Config, ports: seq<Port>, k: nat)
    requires k <= |ports|
    ensures Elect(c, ports, k).Rank() <= c.id.Rank()
    ensures forall i :: 0 <= i < k && ports[i].received.Some? ==>
              Elect(c, ports, k).Rank() <= ports[i].received.value.vector.rootID.Rank()
    ensures Elect(c, ports, k) == c.id || exists i :: 0 <= i < k && Leads(ports, Elect(c, ports, k), i)
  {
    if k > 0 {
      ElectIsBest(c, ports, k - 1);
      if Elect(c, ports, k) != Elect(c, ports, k - 1) {
        assert Leads(ports, Elect(c, ports, k), k - 1);
      }
    }
  }

  lemma {:induction false} BestPortIsBest(c: Config, ports: seq<Port>, root: BridgeID, k: nat)
    requires k <= |ports| == |c.ports|
    ensures var r := BestPort(c, ports, root, k);
            && (r == None ==> forall i :: 0 <= i < k ==> !Leads(ports, root, i))
            && (r.Some? ==> forall i :: 0 <= i < k && Leads(ports, root, i) ==>
                 !Candidate(c, ports, i).Superior(Candidate(c, ports, r.value)))
  {
    if k > 0 {
      BestPortIsBest(c, ports, root, k - 1);
    }
  }

  /** Among ports that offer the same it is the first. */
  lemma {:induction false} BestPortIsFirst(c: Config, ports: seq<Port>, root: BridgeID, k: nat, r: nat)
    requires k <= |ports| == |c.ports| && BestPort(c, ports, root, k) == Some(r)
    ensures forall i :: 0 <= i < r && Leads(ports, root, i) ==> Candidate(c, ports, r).Superior(Candidate(c, ports, i))
  {
    var best := BestPort(c, ports, root, k - 1);
    BestPortIsBest(c, ports, root, k - 1);
    if best == Some(r) {
      BestPortIsFirst(c, ports, root, k - 1, r);
    } else if best.Some? {
      NewBestBeatsAll(c, ports, root, k - 1, best.value);
    }
  }

  lemma NewBestBeatsAll(c: Config, ports: seq<Port>, root: BridgeID, k: nat, best: nat)
    requires best < k < |ports| == |c.ports| && Leads(ports, root, best) && Leads(ports, root, k)
    requires forall i :: 0 <= i < k && Leads(ports, root, i) ==> !Candidate(c, ports, i).Superior(Candidate(c, ports, best))
    requires Candidate(c, ports, k).Superior(Candidate(c, ports, best))
    ensures forall i :: 0 <= i < k && Leads(ports, root, i) ==> Candidate(c, ports, k).Superior(Candidate(c, ports, i))
  {
    forall i | 0 <= i < k && Leads(ports, root, i) ensures Candidate(c, ports, k).Superior(Candidate(c, ports, i)) {
      BeatsWhatIsNoBetter(Candidate(c, ports, k), Candidate(c, ports, best), Candidate(c, ports, i));
    }
  }

  lemma BeatsWhatIsNoBetter(a: Vector, b: Vector, c: Vector)
    requires a.Superior(b) && !c.Superior(b)
    ensures a.Superior(c)
  {
    CompareIsStrictTotalOrder(a, b, c);
    CompareIsStrictTotalOrder(b, c, a);
  }

  /** The election reads nothing of a port but what it recorded. */
  lemma ElectedReadsRecords(c: Config, b: Bridge, r: Bridge)
    requires Fits(c, b) && Fits(c, r) && Elected(c, b)
    requires r == b.(ports := r.ports)
    requires forall i :: 0 <= i < |b.ports| ==> r.ports[i].received == b.ports[i].received
    ensures Elected(c, r)
  {
    forall i | 0 <= i < |b.ports| && Leads(b.ports, b.rootID, i)
      ensures Candidate(c, b.ports, i) == Candidate(c, r.ports, i)
    {
    }
    forall i | 0 <= i < |b.ports| ensures Leads(b.ports, r.rootID, i) == Leads(r.ports, r.rootID, i) {
    }
  }

  lemma ChooseElects(c: Config, b: Bridge)
    requires Fits(c, b)
    ensures Elected(c, Choose(c, b))
  {
    ElectIsBest(c, b.ports, |b.ports|);
    BestPortIsBest(c, b.ports, Choose(c, b).rootID, |b.ports|);
  }

  lemma AssignRolesAssigns(c: Config, b: Bridge)
    requires Fits(c, b)
    requires forall i :: 0 <= i < |b.ports| ==> b.ports[i].state != StateDisabled
    ensures RolesAssigned(c, AssignRoles(c, b))
  {
  }

  /** Whatever was recorded, the computation leaves the bridge coherent. */
  lemma RecomputeCoherent(c: Config, b: Bridge)
    requires Fits(c, b)
    requires forall i :: 0 <= i < |b.ports| ==> b.ports[i].state != StateDisabled
    ensures Coherent(c, Recompute(c, b))
  {
    ChooseElects(c, b);
    ElectedReadsRecords(c, Choose(c, b), Recompute(c, b));
    AssignRolesAssigns(c, Choose(c, b));
  }

  lemma FreshCoherent(c: Config)
    ensures Coherent(c, Fresh(c))
  {
  }

  lemma RankInjective(a: BridgeID, b: BridgeID)
    ensures a.Rank() == b.Rank() <==> a == b
  {
    assert a.Compare(b) == 0 <==> a == b;
  }

  /** If every recorded vector is kept or improved, so are the root and the cost. */
  lemma BetterRecordsBetterRoot(c: Config, b: Bridge, r: Bridge)
    requires Elected(c, b) && Elected(c, r)
    requires forall i :: 0 <= i < |b.ports| && b.ports[i].received.Some? ==>
               && r.ports[i].received.Some?
               && r.ports[i].received.value.vector.AsGood(
                    b.ports[i].received.value.vector.rootID, b.ports[i].received.value.vector.rootPathCost)
    requires b.rootPort.Some? ==>
               b.rootPathCost == b.ports[b.rootPort.value].received.value.vector.rootPathCost + c.ports[b.rootPort.value].pathCost
    ensures r.AtLeast(b.rootID, b.rootPathCost)
  {
    RankInjective(r.rootID, b.rootID);
    if b.rootPort.Some? && r.rootID == b.rootID {
      var p := b.rootPort.value;
      RankInjective(r.ports[p].received.value.vector.rootID, b.rootID);
      assert Leads(r.ports, r.rootID, p);
    }
  }

  /** A recorded vector bounds the root and, if it names the elected root, the cost. */
  lemma RecordBoundsBridge(c: Config, b: Bridge, i: nat, root: BridgeID, cost: nat)
    requires Elected(c, b) && i < |b.ports| && b.ports[i].received.Some?
    requires b.ports[i].received.value.vector.AsGood(root, cost)
    ensures b.AtLeast(root, cost + c.ports[i].pathCost)
  {
    RankInjective(b.rootID, b.ports[i].received.value.vector.rootID);
    RankInjective(b.rootID, root);
    if b.rootID == b.ports[i].received.value.vector.rootID {
      RankInjective(b.rootID, c.id);
      assert Leads(b.ports, b.rootID, i);
    }
  }
}
