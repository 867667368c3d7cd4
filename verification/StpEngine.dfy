/** The spanning tree state of one bridge as the objects the program updates in place. */
module StpEngine {
  import opened Wrappers
  import opened Bytes
  import opened StpVector
  import opened StpBridge
  import opened StpNetwork
  import opened StpRelay
  import opened MacTables

  class StpPort {
    const portID: uint16
    const pathCost: uint32
    var role: Role
    var state: State
    var hasBPDU: bool
    var received: Vector
    var messageAge: nat

    constructor (id: uint16, cost: uint32, unset: Vector)
      ensures portID == id && pathCost == cost && View() == Port(RoleDesignated, StateBlocking, None)
    {
      portID, pathCost, role, state := id, cost, RoleDesignated, StateBlocking;
      hasBPDU, received, messageAge := false, unset, 0;
    }

    function View(): Port
      reads this
    {
      Port(role, state, if hasBPDU then Some(Message(received, messageAge)) else None)
    }
  }

  /** The ports that stop forwarding between two states: those whose learned addresses are flushed. */
  function Blocked(before: Bridge, after: Bridge, k: nat): set<nat>
    requires k <= |before.ports| == |after.ports|
  {
    set i | 0 <= i < k && StopsForwarding(before.ports[i], after.ports[i].role)
  }

  predicate StopsForwarding(p: Port, role: Role) {
    role != RoleRoot && role != RoleDesignated && p.role != role && p.state == StateForwarding
  }

  class StpState {
    const bridgeID: BridgeID
    const macTable: MacTable
    var rootID: BridgeID
    var rootPathCost: uint32
    var rootPort: Option<nat>
    const ports: seq<StpPort>

    ghost predicate Valid()
      reads this, macTable
    {
      (forall i, j :: 0 <= i < j < |ports| ==> ports[i] != ports[j]) && macTable.Valid()
    }

    function Settings(): Config {
      Config(bridgeID, seq(|ports|, i requires 0 <= i < |ports| => PortConfig(ports[i].portID, ports[i].pathCost)))
    }

    /** The bridge as a value. */
    function View(): (b: Bridge)
      reads this, ports
      ensures Fits(Settings(), b)
    {
      Bridge(rootID, rootPathCost, rootPort, seq(|ports|, i requires 0 <= i < |ports| reads ports => ports[i].View()))
    }

    /** StartSTP: a bridge starts by believing it is the root. */
    constructor (id: BridgeID, table: MacTable, initial: seq<StpPort>)
      requires table.Valid() && forall i, j :: 0 <= i < j < |initial| ==> initial[i] != initial[j]
      requires forall i :: 0 <= i < |initial| ==> initial[i].View() == Port(RoleDesignated, StateBlocking, None)
      ensures Valid() && macTable == table && ports == initial
      ensures Settings().id == id && View() == Fresh(Settings())
    {
      bridgeID, macTable, ports := id, table, initial;
      rootID, rootPathCost, rootPort := id, 0, None;
    }

    method SetPortRole(i: nat, role: Role)
      requires Valid() && i < |ports|
      modifies ports[i], macTable
      ensures Valid()
      ensures ports[i].View() == StpBridge.SetPortRole(old(ports[i].View()), role)
      ensures macTable.entries == OffPorts(old(macTable.entries), if StopsForwarding(old(ports[i].View()), role) then {i} else {})
    {
      OffNoPorts(macTable.entries);
      var port := ports[i];
      var previousRole := port.role;
      port.role := role;
      if role == RoleRoot || role == RoleDesignated {
        if port.state == StateForwarding || port.state == StateLearning {
          return;
        }
        port.state := StateListening;
      } else {
        if previousRole != role && port.state == StateForwarding {
          var removed := macTable.FlushInterface(i);
        }
        port.state := StateBlocking;
      }
    }

    /** Step 1 of the computation. */
    method ElectRoot() returns (root: BridgeID)
      ensures root == Elect(Settings(), View().ports, |ports|)
    {
      root := bridgeID;
      var i := 0;
      while i < |ports|
        invariant 0 <= i <= |ports| && root == Elect(Settings(), View().ports, i)
      {
        assert View().ports[i] == ports[i].View();
        if ports[i].hasBPDU && ports[i].received.rootID.Compare(root) < 0 {
          root := ports[i].received.rootID;
        }
        i := i + 1;
      }
    }

    /** Step 2 of the computation. */
    method ChooseRootPort(root: BridgeID) returns (best: Option<nat>, cost: uint32)
      ensures best == BestPort(Settings(), View().ports, root, |ports|)
      ensures cost == if best == None then 0 else Candidate(Settings(), View().ports, best.value).rootPathCost
    {
      best := None;
      cost := 0;
      var bestVector := Vector(root, 0, root, 0);
      var i := 0;
      while i < |ports|
        invariant 0 <= i <= |ports| && best == BestPort(Settings(), View().ports, root, i)
        invariant best.Some? ==> bestVector == Candidate(Settings(), View().ports, best.value)
      {
        assert View().ports[i] == ports[i].View();
        if ports[i].hasBPDU && ports[i].received.rootID.Compare(root) == 0 {
          var r := ports[i].received;
          var candidate := Vector(root, Add32(r.rootPathCost, ports[i].pathCost), r.bridgeID, r.portID);
          assert candidate == Candidate(Settings(), View().ports, i);
          if best == None || candidate.Compare(bestVector) < 0 {
            best, bestVector := Some(i), candidate;
          }
        }
        i := i + 1;
      }
      if best.Some? {
        cost := bestVector.rootPathCost;
      }
    }

    /** Steps 1 and 2, stored. */
    method ElectAndChoose()
      modifies this`rootID, this`rootPathCost, this`rootPort
      ensures View() == Choose(Settings(), old(View()))
    {
      ghost var before := View();
      var root := ElectRoot();
      var port, cost := None, 0;
      if root.Compare(bridgeID) != 0 {
        port, cost := ChooseRootPort(root);
      }
      rootID, rootPathCost, rootPort := root, cost, port;
      assert View().ports == before.ports;
    }

    /** Step 3 is done for the first k ports of bridge b, whose learned addresses were in the given table. */
    ghost predicate Assigned(b: Bridge, table: seq<MacEntry>, k: nat)
      requires Fits(Settings(), b)
      reads this, macTable, ports
    {
      && Valid() && k <= |ports|
      && rootID == b.rootID && rootPathCost == b.rootPathCost && rootPort == b.rootPort
      && (forall j :: 0 <= j < k ==> ports[j].View() == AssignRoles(Settings(), b).ports[j])
      && (forall j :: k <= j < |ports| ==> ports[j].View() == b.ports[j])
      && macTable.entries == OffPorts(table, Blocked(b, AssignRoles(Settings(), b), k))
    }

    /** Step 3 for one port. */
    method AssignPortRole(i: nat, ghost b: Bridge, ghost table: seq<MacEntry>)
      requires i < |ports| && Fits(Settings(), b) && Assigned(b, table, i)
      modifies ports[i], macTable
      ensures Assigned(b, table, i + 1)
    {
      FlushStep(Settings(), b, i, table);
      var role;
      if rootPort == Some(i) {
        role := RoleRoot;
      } else {
        var ourVector := Vector(rootID, rootPathCost, bridgeID, ports[i].portID);
        role := if !ports[i].hasBPDU || ourVector.Compare(ports[i].received) < 0 then RoleDesignated else RoleAlternate;
      }
      SetPortRole(i, role);
    }

    /** Step 3 of the computation, once root, cost and root port are stored. */
    method AssignPortRoles()
      requires Valid()
      modifies ports, macTable
      ensures Valid() && View() == AssignRoles(Settings(), old(View()))
      ensures macTable.entries == OffPorts(old(macTable.entries), Blocked(old(View()), View(), |ports|))
    {
      ghost var before := View();
      NothingAssigned(before);
      var i := 0;
      while i < |ports|
        invariant 0 <= i <= |ports| && Assigned(before, old(macTable.entries), i)
      {
        AssignPortRole(i, before, old(macTable.entries));
        i := i + 1;
      }
      AllAssigned(before, old(macTable.entries));
    }

    lemma NothingAssigned(b: Bridge)
      requires Valid() && b == View()
      ensures Assigned(b, macTable.entries, 0)
    {
      OffNoPorts(macTable.entries);
      assert Blocked(b, AssignRoles(Settings(), b), 0) == {};
    }

    lemma AllAssigned(b: Bridge, table: seq<MacEntry>)
      requires Fits(Settings(), b) && Assigned(b, table, |ports|)
      ensures View() == AssignRoles(Settings(), b)
    {
      assert View().ports == AssignRoles(Settings(), b).ports;
    }

    /** Whether some port's role or state is not what was noted of b. */
    method Moved(roles: seq<Role>, states: seq<State>, ghost b: Bridge) returns (changed: bool)
      requires |roles| == |states| == |ports| == |b.ports|
      requires forall j :: 0 <= j < |ports| ==> roles[j] == b.ports[j].role && states[j] == b.ports[j].state
      ensures changed <==> Changed(b, View())
    {
      changed := false;
      var i := 0;
      while i < |ports|
        invariant 0 <= i <= |ports|
        invariant changed <==> exists j :: 0 <= j < i && (roles[j] != ports[j].role || states[j] != ports[j].state)
      {
        if roles[i] != ports[i].role || states[i] != ports[i].state {
          changed := true;
        }
        i := i + 1;
      }
      assert forall j :: 0 <= j < |ports| ==> View().ports[j] == ports[j].View();
    }

    /** recomputeLocked: whether any port's role or state moved. */
    method Recompute() returns (changed: bool)
      requires Valid()
      modifies this`rootID, this`rootPathCost, this`rootPort, ports, macTable
      ensures Valid() && View() == StpBridge.Recompute(Settings(), old(View()))
      ensures changed <==> Changed(old(View()), View())
      ensures macTable.entries == OffPorts(old(macTable.entries), Blocked(old(View()), View(), |ports|))
    {
      ghost var before := View();
      var roles := seq(|ports|, i requires 0 <= i < |ports| reads ports => ports[i].role);
      var states := seq(|ports|, i requires 0 <= i < |ports| reads ports => ports[i].state);
      ElectAndChoose();
      AssignPortRoles();
      changed := Moved(roles, states, before);
    }

    // ----- Transmission and reception -----

    /** The age of the information this bridge relays. */
    method RelayedAge() returns (age: nat)
      ensures age == MessageAge(View())
    {
      age := 0;
      if rootPort.Some? && rootPort.value < |ports| {
        assert View().ports[rootPort.value] == ports[rootPort.value].View();
        if ports[rootPort.value].hasBPDU {
          age := ports[rootPort.value].messageAge + HELLO_TIME;
        }
      }
    }

    /** collectDesignatedBPDUs. */
    method CollectDesignated() returns (out: seq<Outgoing>)
      ensures out == Collect(Settings(), View(), |ports|)
    {
      var age := RelayedAge();
      out := [];
      var i := 0;
      while i < |ports|
        invariant 0 <= i <= |ports| && out == Collect(Settings(), View(), i)
      {
        assert View().ports[i] == ports[i].View();
        if ports[i].role == RoleDesignated && ports[i].state != StateDisabled && age < MAX_AGE {
          out := out + [Outgoing(i, Message(Vector(rootID, rootPathCost, bridgeID, ports[i].portID), age))];
        }
        i := i + 1;
      }
    }

    /** SendHello and Converge, which recomputes first. */
    method SendHello() returns (sent: seq<Outgoing>)
      ensures sent == Collect(Settings(), View(), |ports|)
    {
      sent := CollectDesignated();
    }

    method Converge() returns (sent: seq<Outgoing>)
      requires Valid()
      modifies this`rootID, this`rootPathCost, this`rootPort, ports, macTable
      ensures Valid() && View() == StpBridge.Recompute(Settings(), old(View()))
      ensures sent == Collect(Settings(), View(), |ports|)
      ensures macTable.entries == OffPorts(old(macTable.entries), Blocked(old(View()), View(), |ports|))
    {
      var changed := Recompute();
      sent := CollectDesignated();
    }

    method Store(i: nat, m: Message)
      requires Valid() && i < |ports|
      modifies ports[i]
      ensures Valid() && View() == Record(old(View()), i, m)
    {
      ghost var before := View();
      ports[i].hasBPDU, ports[i].received, ports[i].messageAge := true, m.vector, m.age;
      assert View().ports == Record(before, i, m).ports;
    }

    /** A BPDU no better than what the port holds: answer it, or take it as a refresh. */
    method AnswerInferior(i: nat, m: Message) returns (sent: seq<Outgoing>)
      requires Valid() && i < |ports| && !Ignored(Settings(), m) && !IsSuperior(View(), i, m)
      modifies ports[i]
      ensures Valid() && View() == Receive(Settings(), old(View()), i, m)
      ensures sent == Responses(Settings(), old(View()), i, m)
    {
      var port := ports[i];
      assert View().ports[i] == port.View();
      sent := [];
      var ownVector := Vector(rootID, rootPathCost, bridgeID, port.portID);
      if port.role == RoleDesignated && ownVector.Compare(m.vector) < 0 {
        var age := RelayedAge();
        sent := [Outgoing(i, Message(ownVector, age))];
      } else if m.vector.Compare(port.received) == 0 {
        Store(i, m);
      }
    }

    /** A superior BPDU: record it, recompute, and relay when the bridge's own view moved. */
    method AcceptSuperior(i: nat, m: Message) returns (sent: seq<Outgoing>)
      requires Valid() && i < |ports| && !Ignored(Settings(), m) && IsSuperior(View(), i, m)
      modifies this`rootID, this`rootPathCost, this`rootPort, ports, macTable
      ensures Valid() && View() == Receive(Settings(), old(View()), i, m)
      ensures sent == Responses(Settings(), old(View()), i, m)
      ensures macTable.entries == OffPorts(old(macTable.entries), Blocked(old(View()), View(), |ports|))
    {
      ghost var before := View();
      Store(i, m);
      assert Blocked(View(), StpBridge.Recompute(Settings(), View()), |ports|) == Blocked(before, StpBridge.Recompute(Settings(), View()), |ports|);
      var changed := Recompute();
      assert changed <==> Changed(before, View()) by {
        RecordMovesNothing(before, i, m, View());
      }
      sent := [];
      if changed {
        sent := CollectDesignated();
      }
    }

    /** ProcessBPDU, from the priority vector on: refused when the interface takes no part in the tree
        or the information is too old. The addresses learned on ports that stop forwarding are flushed. */
    method ProcessBPDU(i: nat, m: Message) returns (accepted: bool, sent: seq<Outgoing>)
      requires Valid()
      modifies this`rootID, this`rootPathCost, this`rootPort, ports, macTable
      ensures Valid() && accepted == (m.age < MAX_AGE && i < |ports|)
      ensures i >= |ports| ==> View() == old(View()) && sent == []
      ensures i < |ports| ==> View() == Receive(Settings(), old(View()), i, m)
      ensures i < |ports| ==> sent == Responses(Settings(), old(View()), i, m)
      ensures i < |ports| ==> Reacts(Settings(), old(View()), i, m, View(), sent)
      ensures macTable.entries == OffPorts(old(macTable.entries), Blocked(old(View()), View(), |ports|))
    {
      if i < |ports| {
        ReactsToEvery(Settings(), View(), i, m);
      }
      NothingBlocked(View(), macTable.entries);
      if m.age >= MAX_AGE || i >= |ports| {
        return false, [];
      }
      if m.vector.bridgeID.Compare(bridgeID) == 0 {
        return true, [];
      }
      assert View().ports[i] == ports[i].View();
      if !ports[i].hasBPDU || m.vector.Compare(ports[i].received) < 0 {
        sent := AcceptSuperior(i, m);
      } else {
        sent := AnswerInferior(i, m);
        assert Blocked(old(View()), View(), |ports|) == Blocked(old(View()), old(View()), |ports|);
      }
      accepted := true;
    }

    /** promoteForwardingPorts. */
    method PromoteForwardingPorts()
      requires Valid()
      modifies ports
      ensures Valid() && View() == PromoteAll(old(View()))
    {
      ghost var before := View();
      var i := 0;
      while i < |ports|
        invariant 0 <= i <= |ports|
        invariant forall j :: 0 <= j < i ==> ports[j].View() == PromotePort(before.ports[j])
        invariant forall j :: i <= j < |ports| ==> ports[j].View() == before.ports[j]
      {
        if ports[i].role == RoleRoot || ports[i].role == RoleDesignated {
          ports[i].state := StateForwarding;
        }
        i := i + 1;
      }
      assert View().ports == PromoteAll(before).ports;
    }

    /** advancePortStates for one port whose forward delay has run out. */
    method AdvancePortState(i: nat)
      requires Valid() && i < |ports|
      modifies ports[i]
      ensures Valid() && View() == AdvanceOne(old(View()), i)
    {
      ghost var before := View();
      if ports[i].state == StateListening {
        ports[i].state := StateLearning;
      } else if ports[i].state == StateLearning {
        ports[i].state := StateForwarding;
      }
      assert View().ports == AdvanceOne(before, i).ports;
    }
  }

  lemma NothingBlocked(b: Bridge, es: seq<MacEntry>)
    ensures OffPorts(es, Blocked(b, b, |b.ports|)) == es
  {
    assert Blocked(b, b, |b.ports|) == {};
    OffNoPorts(es);
  }

  /** When the addresses a bridge knows were learned on forwarding ports, a computation leaves it exactly those whose ports still
      forward. */
  lemma AddressesFollowPorts(c: Config, b: Bridge, r: Bridge, es: seq<MacEntry>)
    requires Fits(c, b) && r == StpBridge.Recompute(c, b)
    requires forall i :: 0 <= i < |b.ports| && b.ports[i].role == RoleAlternate ==> b.ports[i].state == StateBlocking
    requires forall e :: e in es ==> e.port < |b.ports| && b.ports[e.port].state == StateForwarding
    ensures forall e :: e in OffPorts(es, Blocked(b, r, |b.ports|)) <==> e in es && r.ports[e.port].state == StateForwarding
  {
    OffPortsKeeps(es, Blocked(b, r, |b.ports|));
    forall e | e in es ensures e.port in Blocked(b, r, |b.ports|) <==> r.ports[e.port].state != StateForwarding {
      StatesFollowRoles(c, b, r, e.port);
    }
  }

  /** Those learned on a port that was still learning stay known when it is blocked: frames for them are sent to a port that does
      not forward, until the entries are too old. */
  lemma LearnedTooEarlyStays(b: Bridge, r: Bridge, es: seq<MacEntry>, e: MacEntry)
    requires |b.ports| == |r.ports| && e in es && e.port < |b.ports| && b.ports[e.port].state == StateLearning
    ensures e in OffPorts(es, Blocked(b, r, |b.ports|))
  {
    OffPortsKeeps(es, Blocked(b, r, |b.ports|));
  }

  lemma FlushStep(c: Config, b: Bridge, i: nat, es: seq<MacEntry>)
    requires Fits(c, b) && i < |b.ports|
    ensures OffPorts(OffPorts(es, Blocked(b, AssignRoles(c, b), i)),
                     if StopsForwarding(b.ports[i], RoleFor(c, b, i)) then {i} else {})
         == OffPorts(es, Blocked(b, AssignRoles(c, b), i + 1))
  {
    var now := if StopsForwarding(b.ports[i], RoleFor(c, b, i)) then {i} else {};
    OffPortsTwice(es, Blocked(b, AssignRoles(c, b), i), now);
    assert AssignRoles(c, b).ports[i].role == RoleFor(c, b, i);
    assert Blocked(b, AssignRoles(c, b), i + 1) == Blocked(b, AssignRoles(c, b), i) + now;
  }

  /** Recording a vector by itself moves no role and no state. */
  lemma RecordMovesNothing(b: Bridge, i: nat, m: Message, r: Bridge)
    requires i < |b.ports| == |r.ports|
    ensures Changed(Record(b, i, m), r) <==> Changed(b, r)
  {
    var s := Record(b, i, m);
    assert forall j :: 0 <= j < |b.ports| ==> s.ports[j].role == b.ports[j].role && s.ports[j].state == b.ports[j].state;
  }
}
