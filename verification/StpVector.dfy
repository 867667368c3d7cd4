/** Bridge identifiers and spanning tree priority vectors (IEEE 802.1D-1998, clause 8). */
module StpVector {
  import opened Bytes

  const MAC_ADDR_SIZE := 6

  type Mac = s: seq<byte> | |s| == MAC_ADDR_SIZE witness [0, 0, 0, 0, 0, 0]

  datatype BridgeID = BridgeID(priority: uint16, address: Mac) {

    function Serialize(): (s: seq<byte>)
      ensures |s| == 8
    {
      Put16(priority) + address
    }

    /** The identifier as one number; numerically lower is better. */
    function Rank(): nat {
      BigEndian(Serialize())
    }

    function Compare(other: BridgeID): (r: int)
      ensures r < 0 <==> Rank() < other.Rank()
      ensures r == 0 <==> this == other
      ensures r == 0 <==> Rank() == other.Rank()
    {
      ComparesSerialized(this, other);
      SerializeInjective(this, other);
      LexIsNumeric(Serialize(), other.Serialize());
      if priority != other.priority then
        if priority < other.priority then -1 else 1
      else CompareAddress(address, other.address, 0)
    }
  }

  /** The address loop of Compare, from index i on. */
  function CompareAddress(a: Mac, b: Mac, i: nat): int
    requires i <= MAC_ADDR_SIZE
    decreases MAC_ADDR_SIZE - i
  {
    if i == MAC_ADDR_SIZE then 0
    else if a[i] != b[i] then
      if a[i] < b[i] then -1 else 1
    else CompareAddress(a, b, i + 1)
  }

  lemma {:induction false} AddressLoopIsLex(a: Mac, b: Mac, i: nat)
    requires i <= MAC_ADDR_SIZE
    ensures CompareAddress(a, b, i) == LexCompare(a[i..], b[i..])
    decreases MAC_ADDR_SIZE - i
  {
    if i < MAC_ADDR_SIZE {
      AddressLoopIsLex(a, b, i + 1);
      assert a[i..][1..] == a[i + 1..] && b[i..][1..] == b[i + 1..];
    }
  }

  lemma LexOfPut16(x: uint16, y: uint16)
    ensures LexCompare(Put16(x), Put16(y)) == if x < y then -1 else if x > y then 1 else 0
  {
    var lowX: seq<byte>, lowY: seq<byte> := [x % 256], [y % 256];
    assert Put16(x)[1..] == lowX && Put16(y)[1..] == lowY;
    assert lowX[1..] == [] && lowY[1..] == [];
    assert LexCompare(lowX[1..], lowY[1..]) == 0;
    assert x == x / 256 * 256 + x % 256 && y == y / 256 * 256 + y % 256;
  }

  lemma LexOfPut32(x: uint32, y: uint32)
    ensures LexCompare(Put32(x), Put32(y)) == if x < y then -1 else if x > y then 1 else 0
  {
    LexOfConcat(Put16(x / 0x1_0000), Put16(y / 0x1_0000), Put16(x % 0x1_0000), Put16(y % 0x1_0000));
    LexOfPut16(x / 0x1_0000, y / 0x1_0000);
    LexOfPut16(x % 0x1_0000, y % 0x1_0000);
  }

  lemma ComparesSerialized(a: BridgeID, b: BridgeID)
    ensures LexCompare(a.Serialize(), b.Serialize())
         == if a.priority != b.priority then (if a.priority < b.priority then -1 else 1)
            else CompareAddress(a.address, b.address, 0)
  {
    LexOfConcat(Put16(a.priority), Put16(b.priority), a.address, b.address);
    LexOfPut16(a.priority, b.priority);
    AddressLoopIsLex(a.address, b.address, 0);
    assert a.address[0..] == a.address && b.address[0..] == b.address;
  }

  lemma SerializeInjective(a: BridgeID, b: BridgeID)
    ensures a.Serialize() == b.Serialize() <==> a == b
  {
    assert a.Serialize()[..2] == Put16(a.priority) && b.Serialize()[..2] == Put16(b.priority);
    assert a.Serialize()[2..] == a.address && b.Serialize()[2..] == b.address;
    assert Get16(a.Serialize()[..2]) == a.priority && Get16(b.Serialize()[..2]) == b.priority;
  }

  /** The ordered tuple that ranks spanning tree information; lower is superior. */
  datatype Vector = Vector(rootID: BridgeID, rootPathCost: uint32, bridgeID: BridgeID, portID: uint16) {

    /** Bytes 5 to 26 of the configuration BPDU that carries this vector. */
    function Serialize(): (s: seq<byte>)
      ensures |s| == 22
    {
      rootID.Serialize() + (Put32(rootPathCost) + (bridgeID.Serialize() + Put16(portID)))
    }

    function Compare(other: Vector): (r: int)
      ensures r < 0 <==> Superior(other)
      ensures r == 0 <==> this == other
    {
      if rootID.Compare(other.rootID) != 0 then rootID.Compare(other.rootID)
      else if rootPathCost != other.rootPathCost then
        if rootPathCost < other.rootPathCost then -1 else 1
      else if bridgeID.Compare(other.bridgeID) != 0 then bridgeID.Compare(other.bridgeID)
      else if portID != other.portID then
        if portID < other.portID then -1 else 1
      else 0
    }

    predicate Superior(other: Vector) {
      || rootID.Rank() < other.rootID.Rank()
      || (rootID == other.rootID
          && (|| rootPathCost < other.rootPathCost
              || (rootPathCost == other.rootPathCost
                  && (|| bridgeID.Rank() < other.bridgeID.Rank()
                      || (bridgeID == other.bridgeID && portID < other.portID)))))
    }

    /** The root and the cost to it are at least as good. */
    predicate AsGood(root: BridgeID, cost: nat) {
      rootID.Rank() < root.Rank() || (rootID == root && rootPathCost <= cost)
    }

    /** The vector as one 22-byte number. */
    function Key(): (k: nat)
      ensures k < Pow256(22)
    {
      BigEndian(Serialize())
    }
  }

  lemma VectorSerializeInjective(a: Vector, b: Vector)
    ensures a.Serialize() == b.Serialize() <==> a == b
  {
    SerializeInjective(a.rootID, b.rootID);
    SerializeInjective(a.bridgeID, b.bridgeID);
    VectorParts(a);
    VectorParts(b);
  }

  lemma VectorParts(v: Vector)
    ensures v.Serialize()[..8] == v.rootID.Serialize()
    ensures Get32(v.Serialize()[8..12]) == v.rootPathCost
    ensures v.Serialize()[12..20] == v.bridgeID.Serialize()
    ensures Get16(v.Serialize()[20..22]) == v.portID
  {
    assert v.Serialize()[8..12] == Put32(v.rootPathCost);
    assert v.Serialize()[20..22] == Put16(v.portID);
  }

  /** Compare agrees with a byte-wise comparison of the encoded vectors. */
  lemma CompareIsWireOrder(a: Vector, b: Vector)
    ensures a.Compare(b) < 0 <==> LexCompare(a.Serialize(), b.Serialize()) < 0
    ensures a.Compare(b) == 0 <==> LexCompare(a.Serialize(), b.Serialize()) == 0
    ensures a.Compare(b) < 0 <==> a.Key() < b.Key()
  {
    var restA, restB := a.bridgeID.Serialize() + Put16(a.portID), b.bridgeID.Serialize() + Put16(b.portID);
    LexOfConcat(a.rootID.Serialize(), b.rootID.Serialize(), Put32(a.rootPathCost) + restA, Put32(b.rootPathCost) + restB);
    LexOfConcat(Put32(a.rootPathCost), Put32(b.rootPathCost), restA, restB);
    LexOfConcat(a.bridgeID.Serialize(), b.bridgeID.Serialize(), Put16(a.portID), Put16(b.portID));
    LexIsNumeric(a.rootID.Serialize(), b.rootID.Serialize());
    LexIsNumeric(a.bridgeID.Serialize(), b.bridgeID.Serialize());
    SerializeInjective(a.rootID, b.rootID);
    SerializeInjective(a.bridgeID, b.bridgeID);
    LexOfPut32(a.rootPathCost, b.rootPathCost);
    LexOfPut16(a.portID, b.portID);
    LexIsNumeric(a.Serialize(), b.Serialize());
    VectorSerializeInjective(a, b);
  }

  /** Compare is a strict total order: irreflexive, transitive, and total on distinct vectors. */
  lemma CompareIsStrictTotalOrder(a: Vector, b: Vector, c: Vector)
    ensures !(a.Compare(a) < 0)
    ensures a.Compare(b) < 0 && b.Compare(c) < 0 ==> a.Compare(c) < 0
    ensures a != b ==> (a.Compare(b) < 0 <==> !(b.Compare(a) < 0))
    ensures a.Compare(b) > 0 <==> b.Compare(a) < 0
  {
    CompareIsWireOrder(a, b);
    CompareIsWireOrder(b, c);
    CompareIsWireOrder(a, c);
    CompareIsWireOrder(b, a);
    LexIsNumeric(a.Serialize(), b.Serialize());
  }
}
