/** Configuration BPDUs on the wire (IEEE 802.1D-1998, clause 9.3.1) and their 802.3/LLC frames. */
module StpCodec {
  import opened Wrappers
  import opened Bytes
  import opened StpVector

  const STP_PROTOCOL_ID: uint16 := 0
  const STP_BPDU_TYPE_CONFIG: byte := 0x00
  const STP_BPDU_TYPE_TCN: byte := 0x80
  const STP_BPDU_SIZE := 35
  const STP_TCN_SIZE := 4
  const STP_LLC_SIZE := 3
  const ETHERNET_HDR_SIZE := 14

  const BRIDGE_GROUP_MAC: Mac := [0x01, 0x80, 0xC2, 0x00, 0x00, 0x00]

  datatype BPDU = BPDU(
    protocolID: uint16, version: byte, bpduType: byte, flags: byte, vector: Vector,
    messageAge: uint16, maxAge: uint16, helloTime: uint16, forwardDelay: uint16)

  datatype Rejection = TooSmall | BadProtocol | BadType | Truncated | TooOld | BadSAP | BadControl

  const ZERO_ID: BridgeID := BridgeID(0, [0, 0, 0, 0, 0, 0])
  const ZERO_VECTOR: Vector := Vector(ZERO_ID, 0, ZERO_ID, 0)

  function GetBridgeID(s: seq<byte>): BridgeID
    requires |s| == 8
  {
    BridgeID(Get16(s[..2]), s[2..])
  }

  function GetVector(s: seq<byte>): Vector
    requires |s| == 22
  {
    Vector(GetBridgeID(s[..8]), Get32(s[8..12]), GetBridgeID(s[12..20]), Get16(s[20..]))
  }

  function SerializeBPDU(b: BPDU): (s: seq<byte>)
    ensures |s| == STP_BPDU_SIZE
  {
    Put16(b.protocolID) + [b.version, b.bpduType, b.flags] + b.vector.Serialize()
    + Put16(b.messageAge) + Put16(b.maxAge) + Put16(b.helloTime) + Put16(b.forwardDelay)
  }

  function DeserializeBPDU(s: seq<byte>): Result<BPDU, Rejection> {
    if |s| < STP_TCN_SIZE then Err(TooSmall)
    else if Get16(s[0..2]) != STP_PROTOCOL_ID then Err(BadProtocol)
    else if s[3] == STP_BPDU_TYPE_TCN then Ok(BPDU(Get16(s[0..2]), s[2], s[3], 0, ZERO_VECTOR, 0, 0, 0, 0))
    else if s[3] != STP_BPDU_TYPE_CONFIG then Err(BadType)
    else if |s| < STP_BPDU_SIZE then Err(Truncated)
    else
      var b := BPDU(Get16(s[0..2]), s[2], s[3], s[4], GetVector(s[5..27]),
                    Get16(s[27..29]), Get16(s[29..31]), Get16(s[31..33]), Get16(s[33..35]));
      if b.messageAge >= b.maxAge then Err(TooOld) else Ok(b)
  }

  lemma BridgeIDRoundTrip(id: BridgeID, s: seq<byte>)
    ensures GetBridgeID(id.Serialize()) == id
    ensures |s| == 8 ==> GetBridgeID(s).Serialize() == s
  {
    assert id.Serialize()[..2] == Put16(id.priority) && id.Serialize()[2..] == id.address;
    if |s| == 8 {
      Put16OfGet16(s[..2]);
    }
  }

  lemma VectorRoundTrip(v: Vector, s: seq<byte>)
    ensures GetVector(v.Serialize()) == v
    ensures |s| == 22 ==> GetVector(s).Serialize() == s
  {
    VectorParts(v);
    assert v.Serialize()[20..] == v.Serialize()[20..22];
    BridgeIDRoundTrip(v.rootID, []);
    BridgeIDRoundTrip(v.bridgeID, []);
    if |s| == 22 {
      BridgeIDRoundTrip(v.rootID, s[..8]);
      BridgeIDRoundTrip(v.rootID, s[12..20]);
      Put32OfGet32(s[8..12]);
      Put16OfGet16(s[20..]);
      assert s == s[..8] + (s[8..12] + (s[12..20] + s[20..]));
    }
  }

  /** Where each field starts: the root at byte 5, its cost at 13, the sender at 17, its port at 25, the age at 27. */
  lemma BPDUParts(b: BPDU, pad: seq<byte>)
    ensures var s := SerializeBPDU(b) + pad;
            && s[0..2] == Put16(b.protocolID) && s[2] == b.version && s[3] == b.bpduType && s[4] == b.flags
            && s[5..27] == b.vector.Serialize()
            && s[5..13] == b.vector.rootID.Serialize() && s[13..17] == Put32(b.vector.rootPathCost)
            && s[17..25] == b.vector.bridgeID.Serialize() && s[25..27] == Put16(b.vector.portID)
            && s[27..29] == Put16(b.messageAge) && s[29..31] == Put16(b.maxAge)
            && s[31..33] == Put16(b.helloTime) && s[33..35] == Put16(b.forwardDelay)
  {
    var s, v := SerializeBPDU(b) + pad, b.vector.Serialize();
    assert s[5..27] == v;
    VectorPlaces(b.vector);
    assert s[5..13] == v[..8] && s[13..17] == v[8..12] && s[17..25] == v[12..20] && s[25..27] == v[20..22];
  }

  lemma VectorPlaces(v: Vector)
    ensures var s := v.Serialize();
            s[..8] == v.rootID.Serialize() && s[8..12] == Put32(v.rootPathCost) && s[12..20] == v.bridgeID.Serialize() && s[20..22] == Put16(v.portID)
  {
  }

  /** A configuration BPDU for protocol 0 comes back as it was sent, whatever padding follows,
      exactly when its message age is below its maximum age; otherwise it is refused as too old. */
  lemma BPDURoundTrip(b: BPDU, pad: seq<byte>)
    requires b.protocolID == STP_PROTOCOL_ID && b.bpduType == STP_BPDU_TYPE_CONFIG
    ensures DeserializeBPDU(SerializeBPDU(b) + pad) == if b.messageAge < b.maxAge then Ok(b) else Err(TooOld)
  {
    BPDUParts(b, pad);
    VectorRoundTrip(b.vector, []);
  }

  /** An accepted configuration BPDU is the first 35 bytes received, and nothing else is read. */
  lemma AcceptedBPDUIsItsBytes(s: seq<byte>)
    requires DeserializeBPDU(s).Ok? && DeserializeBPDU(s).value.bpduType == STP_BPDU_TYPE_CONFIG
    ensures |s| >= STP_BPDU_SIZE && SerializeBPDU(DeserializeBPDU(s).value) == s[..STP_BPDU_SIZE]
  {
    var b := DeserializeBPDU(s).value;
    Put16OfGet16(s[0..2]);
    VectorRoundTrip(b.vector, s[5..27]);
    Put16OfGet16(s[27..29]);
    Put16OfGet16(s[29..31]);
    Put16OfGet16(s[31..33]);
    Put16OfGet16(s[33..35]);
    BPDUParts(b, []);
    assert SerializeBPDU(b) + [] == SerializeBPDU(b);
    FieldsOfBPDU(s);
  }

  lemma FieldsOfBPDU(s: seq<byte>)
    requires |s| >= STP_BPDU_SIZE
    ensures s[..STP_BPDU_SIZE]
         == s[0..2] + [s[2], s[3], s[4]] + s[5..27] + s[27..29] + s[29..31] + s[31..33] + s[33..35]
  {
    assert s[..5] == s[0..2] + [s[2], s[3], s[4]];
    assert s[..27] == s[..5] + s[5..27];
    assert s[..29] == s[..27] + s[27..29];
    assert s[..31] == s[..29] + s[29..31];
    assert s[..33] == s[..31] + s[31..33];
    assert s[..35] == s[..33] + s[33..35];
  }

  /** Which of two BPDUs is superior can be read off bytes 5 to 26 as they stand on the wire. */
  lemma WireOrderIsPriority(a: BPDU, b: BPDU)
    ensures a.vector.Compare(b.vector) < 0 <==> LexCompare(SerializeBPDU(a)[5..27], SerializeBPDU(b)[5..27]) < 0
    ensures a.vector.Compare(b.vector) == 0 <==> SerializeBPDU(a)[5..27] == SerializeBPDU(b)[5..27]
  {
    BPDUParts(a, []);
    BPDUParts(b, []);
    assert SerializeBPDU(a) + [] == SerializeBPDU(a) && SerializeBPDU(b) + [] == SerializeBPDU(b);
    CompareIsWireOrder(a.vector, b.vector);
    LexIsNumeric(a.vector.Serialize(), b.vector.Serialize());
  }

  /** Accepted are exactly the notifications of a topology change, of which four bytes are enough, and the configuration BPDUs
      of at least 35 bytes whose message age is below their maximum age; all for protocol 0. */
  lemma AcceptedExactly(s: seq<byte>)
    ensures DeserializeBPDU(s).Ok? <==>
              && |s| >= 4 && s[0] == 0 && s[1] == 0
              && (s[3] == 0x80 || (s[3] == 0 && |s| >= 35 && Get16(s[27..29]) < Get16(s[29..31])))
  {
  }

  // ----- Frames -----

  function BuildFrame(srcMac: Mac, payload: seq<byte>): seq<byte> {
    BRIDGE_GROUP_MAC + srcMac + Put16((STP_LLC_SIZE + |payload|) % 0x1_0000) + [0x42, 0x42, 0x03] + payload
  }

  function ParseFrame(frame: seq<byte>): Result<seq<byte>, Rejection> {
    if |frame| < ETHERNET_HDR_SIZE + STP_LLC_SIZE then Err(TooSmall)
    else if frame[14] != 0x42 || frame[15] != 0x42 then Err(BadSAP)
    else if frame[16] != 0x03 then Err(BadControl)
    else
      var llcLength := Get16(frame[12..14]);
      var payload := frame[17..];
      if llcLength >= STP_LLC_SIZE && llcLength - STP_LLC_SIZE <= |payload|
      then Ok(payload[..llcLength - STP_LLC_SIZE]) else Ok(payload)
  }

  /** To the bridge group address, from the port's, with the length of what follows and the LLC header 42 42 03. */
  lemma FrameParts(srcMac: Mac, payload: seq<byte>)
    requires 3 + |payload| < 0x1_0000
    ensures var frame := BuildFrame(srcMac, payload);
            && frame[0..6] == [0x01, 0x80, 0xC2, 0x00, 0x00, 0x00] && frame[6..12] == srcMac
            && Get16(frame[12..14]) as int == 3 + |payload| && frame[14..17] == [0x42, 0x42, 0x03] && frame[17..] == payload
  {
    var frame := BuildFrame(srcMac, payload);
    assert frame[12..14] == Put16(3 + |payload|);
  }

  /** A frame gives back its payload, whatever padding the link adds, as long as its length fits the length field. */
  lemma FrameRoundTrip(srcMac: Mac, payload: seq<byte>, pad: seq<byte>)
    requires STP_LLC_SIZE + |payload| < 0x1_0000
    ensures ParseFrame(BuildFrame(srcMac, payload) + pad) == Ok(payload)
  {
    var frame := BuildFrame(srcMac, payload) + pad;
    assert frame[12..14] == Put16(STP_LLC_SIZE + |payload|);
    assert frame[14] == 0x42 && frame[15] == 0x42 && frame[16] == 0x03;
    assert frame[17..] == payload + pad;
    assert (payload + pad)[..|payload|] == payload;
  }

  /** A frame is read exactly if it has a whole LLC header of the spanning tree's; where its length field does not fit what
      follows, all of that is the payload. */
  lemma FrameReadExactly(frame: seq<byte>)
    ensures ParseFrame(frame).Ok? <==> |frame| >= 17 && frame[14..17] == [0x42, 0x42, 0x03]
    ensures ParseFrame(frame).Ok? ==>
              var n := Get16(frame[12..14]);
              ParseFrame(frame).value == if 3 <= n && n as int + 14 <= |frame| then frame[17..14 + n] else frame[17..]
  {
    if |frame| >= 17 {
      assert frame[14..17] == [frame[14], frame[15], frame[16]];
      var n := Get16(frame[12..14]);
      if 3 <= n && n as int + 14 <= |frame| {
        assert frame[17..][..n - 3] == frame[17..14 + n];
      }
    }
  }

  /** A BPDU sent in a frame arrives as it was sent. */
  lemma BPDUFrameRoundTrip(srcMac: Mac, b: BPDU, pad: seq<byte>)
    requires b.protocolID == STP_PROTOCOL_ID && b.bpduType == STP_BPDU_TYPE_CONFIG && b.messageAge < b.maxAge
    ensures var p := ParseFrame(BuildFrame(srcMac, SerializeBPDU(b)) + pad);
            p.Ok? && DeserializeBPDU(p.value) == Ok(b)
  {
    FrameRoundTrip(srcMac, SerializeBPDU(b), pad);
    BPDURoundTrip(b, []);
    assert SerializeBPDU(b) + [] == SerializeBPDU(b);
  }
}
