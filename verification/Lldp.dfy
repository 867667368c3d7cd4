/** LLDP data units (clause 8 of IEEE 802.1AB-2009): a chain of type-length-value records, written and read back. */
module Lldp {
  import opened Bytes
  import opened Wrappers

  const END: byte := 0
  const CHASSIS_ID: byte := 1
  const PORT_ID: byte := 2
  const TTL: byte := 3
  const SYSTEM_NAME: byte := 5
  const SYSTEM_DESCRIPTION: byte := 6
  const SYSTEM_CAPABILITIES: byte := 7
  const MAX_TLV_LENGTH: nat := 511

  datatype Unit = Unit(
    chassisSubtype: byte, chassis: seq<byte>, portSubtype: byte, port: seq<byte>, ttl: uint16,
    name: seq<byte>, description: seq<byte>, supported: uint16, enabled: uint16)

  datatype LldpError = BadType | TooLarge | MissingId | Truncated | BadTlv | OutOfOrder | NoEnd

  const EMPTY := Unit(0, [], 0, [], 0, [], [], 0, 0)

  // ----- Writing -----

  function Tlv(kind: byte, value: seq<byte>): (r: seq<byte>)
    requires kind <= 127 && |value| <= MAX_TLV_LENGTH
    ensures |r| == 2 + |value|
  {
    Put16(kind * 512 + |value|) + value
  }

  /** Seven bits of type and nine of length, before the value. */
  lemma TlvBytes(kind: byte, value: seq<byte>)
    requires kind <= 127 && |value| <= 511
    ensures Tlv(kind, value) == [kind * 2 + |value| / 256, |value| % 256] + value
  {
  }

  function Optional(kind: byte, value: seq<byte>): seq<byte>
    requires kind <= 127 && |value| <= MAX_TLV_LENGTH
  {
    if value == [] then [] else Tlv(kind, value)
  }

  /** Both identifiers present, and every value within the limit of a record. */
  predicate Writable(u: Unit) {
    && 0 < |u.chassis| < MAX_TLV_LENGTH && 0 < |u.port| < MAX_TLV_LENGTH
    && |u.name| <= MAX_TLV_LENGTH && |u.description| <= MAX_TLV_LENGTH
  }

  function Written(u: Unit): seq<byte>
    requires Writable(u)
  {
    Tlv(CHASSIS_ID, [u.chassisSubtype] + u.chassis) + (Tlv(PORT_ID, [u.portSubtype] + u.port) + (Tlv(TTL, Put16(u.ttl))
    + (Optional(SYSTEM_NAME, u.name) + (Optional(SYSTEM_DESCRIPTION, u.description)
    + (Tlv(SYSTEM_CAPABILITIES, Put16(u.supported) + Put16(u.enabled)) + Tlv(END, []))))))
  }

  method AppendTlv(dst: seq<byte>, kind: byte, value: seq<byte>) returns (r: Result<seq<byte>, LldpError>)
    ensures r.Ok? <==> kind <= 127 && |value| <= MAX_TLV_LENGTH
    ensures r.Ok? ==> r.value == dst + Tlv(kind, value)
  {
    if kind > 127 {
      return Err(BadType);
    }
    if |value| > MAX_TLV_LENGTH {
      return Err(TooLarge);
    }
    return Ok(dst + (Put16(kind * 512 + |value|) + value));
  }

  method AppendOptional(dst: seq<byte>, kind: byte, value: seq<byte>) returns (r: Result<seq<byte>, LldpError>)
    requires kind <= 127
    ensures r.Ok? <==> |value| <= MAX_TLV_LENGTH
    ensures r.Ok? ==> r.value == dst + Optional(kind, value)
  {
    r := Ok(dst);
    if |value| != 0 {
      r := AppendTlv(dst, kind, value);
    }
  }

  method SerializeUnit(u: Unit) returns (r: Result<seq<byte>, LldpError>)
    ensures r.Ok? <==> Writable(u)
    ensures r.Ok? <==> 1 <= |u.chassis| <= 510 && 1 <= |u.port| <= 510 && |u.name| <= 511 && |u.description| <= 511
    ensures r.Ok? ==> r.value == Written(u)
  {
    if |u.chassis| == 0 || |u.port| == 0 {
      return Err(MissingId);
    }
    r := AppendTlv([], CHASSIS_ID, [u.chassisSubtype] + u.chassis);
    if r.Err? {
      return;
    }
    r := AppendTlv(r.value, PORT_ID, [u.portSubtype] + u.port);
    if r.Err? {
      return;
    }
    r := AppendTlv(r.value, TTL, Put16(u.ttl));
    r := AppendOptional(r.value, SYSTEM_NAME, u.name);
    if r.Err? {
      return;
    }
    r := AppendOptional(r.value, SYSTEM_DESCRIPTION, u.description);
    if r.Err? {
      return;
    }
    r := AppendTlv(r.value, SYSTEM_CAPABILITIES, Put16(u.supported) + Put16(u.enabled));
    r := AppendTlv(r.value, END, []);
    Regroup(Tlv(CHASSIS_ID, [u.chassisSubtype] + u.chassis), Tlv(PORT_ID, [u.portSubtype] + u.port), Tlv(TTL, Put16(u.ttl)),
            Optional(SYSTEM_NAME, u.name), Optional(SYSTEM_DESCRIPTION, u.description),
            Tlv(SYSTEM_CAPABILITIES, Put16(u.supported) + Put16(u.enabled)), Tlv(END, []));
  }

  lemma Regroup(a: seq<byte>, b: seq<byte>, c: seq<byte>, d: seq<byte>, e: seq<byte>, f: seq<byte>, g: seq<byte>)
    ensures [] + a + b + c + d + e + f + g == a + (b + (c + (d + (e + (f + g)))))
  {
  }

  // ----- Reading -----

  /** One record: its type and value, and where the next one starts. */
  function Kind(p: seq<byte>): byte
    requires |p| >= 2
  {
    Get16(p[..2]) / 512
  }

  function Length(p: seq<byte>): nat
    requires |p| >= 2
  {
    Get16(p[..2]) % 512
  }

  /** The unit and how many of the mandatory records have been seen. */
  datatype Progress = Progress(unit: Unit, stage: nat)

  /** What a record other than End does. */
  function Handle(s: Progress, kind: byte, value: seq<byte>): Result<Progress, LldpError> {
    if kind == CHASSIS_ID then
      if s.stage != 0 || |value| < 2 then Err(BadTlv)
      else Ok(Progress(s.unit.(chassisSubtype := value[0], chassis := value[1..]), 1))
    else if kind == PORT_ID then
      if s.stage != 1 || |value| < 2 then Err(BadTlv)
      else Ok(Progress(s.unit.(portSubtype := value[0], port := value[1..]), 2))
    else if kind == TTL then
      if s.stage != 2 || |value| != 2 then Err(BadTlv)
      else Ok(Progress(s.unit.(ttl := Get16(value)), 3))
    else if kind == SYSTEM_CAPABILITIES then
      if s.stage != 3 || |value| != 4 then Err(BadTlv)
      else Ok(s.(unit := s.unit.(supported := Get16(value[..2]), enabled := Get16(value[2..]))))
    else if s.stage != 3 then Err(OutOfOrder)
    else if kind == SYSTEM_NAME then Ok(s.(unit := s.unit.(name := value)))
    else if kind == SYSTEM_DESCRIPTION then Ok(s.(unit := s.unit.(description := value)))
    else Ok(s)
  }

  function Read(p: seq<byte>, s: Progress): Result<Unit, LldpError>
    decreases |p|
  {
    if |p| < 2 then Err(NoEnd)
    else if 2 + Length(p) > |p| then Err(Truncated)
    else
      var value, rest := p[2..2 + Length(p)], p[2 + Length(p)..];
      if Kind(p) == END then
        if value != [] then Err(BadTlv) else if s.stage != 3 then Err(OutOfOrder) else Ok(s.unit)
      else
        match Handle(s, Kind(p), value)
        case Err(e) => Err(e)
        case Ok(s') => Read(rest, s')
  }

  method DeserializeUnit(payload: seq<byte>) returns (r: Result<Unit, LldpError>)
    ensures r == Read(payload, Progress(EMPTY, 0))
  {
    var u := EMPTY;
    var offset, stage := 0, 0;
    while offset + 2 <= |payload|
      invariant 0 <= offset <= |payload| && 0 <= stage
      invariant Read(payload, Progress(EMPTY, 0)) == Read(payload[offset..], Progress(u, stage))
    {
      var header := Get16(payload[offset..offset + 2]);
      ghost var p, before := payload[offset..], Progress(u, stage);
      assert p[..2] == payload[offset..offset + 2];
      offset := offset + 2;
      var kind: byte, length := header / 512, header % 512;
      if offset + length > |payload| {
        return Err(Truncated);
      }
      var value := payload[offset..offset + length];
      assert value == p[2..2 + length];
      offset := offset + length;
      assert payload[offset..] == p[2 + length..];
      if kind == END {
        if length != 0 {
          return Err(BadTlv);
        }
        if stage != 3 {
          return Err(OutOfOrder);
        }
        return Ok(u);
      } else if kind == CHASSIS_ID {
        if stage != 0 || length < 2 {
          return Err(BadTlv);
        }
        u := u.(chassisSubtype := value[0], chassis := value[1..]);
        stage := 1;
      } else if kind == PORT_ID {
        if stage != 1 || length < 2 {
          return Err(BadTlv);
        }
        u := u.(portSubtype := value[0], port := value[1..]);
        stage := 2;
      } else if kind == TTL {
        if stage != 2 || length != 2 {
          return Err(BadTlv);
        }
        u := u.(ttl := Get16(value));
        stage := 3;
      } else if kind == SYSTEM_NAME {
        if stage != 3 {
          return Err(OutOfOrder);
        }
        u := u.(name := value);
      } else if kind == SYSTEM_DESCRIPTION {
        if stage != 3 {
          return Err(OutOfOrder);
        }
        u := u.(description := value);
      } else if kind == SYSTEM_CAPABILITIES {
        if stage != 3 || length != 4 {
          return Err(BadTlv);
        }
        u := u.(supported := Get16(value[..2]), enabled := Get16(value[2..]));
      } else {
        if stage != 3 {
          return Err(OutOfOrder);
        }
      }
      assert Handle(before, kind, value) == Ok(Progress(u, stage));
    }
    return Err(NoEnd);
  }

  // ----- Round trip -----

  lemma HeaderSplits(kind: byte, length: nat)
    requires kind <= 127 && length <= MAX_TLV_LENGTH
    ensures (kind * 512 + length) / 512 == kind && (kind * 512 + length) % 512 == length
  {
  }

  lemma {:induction false} ReadTlv(kind: byte, value: seq<byte>, rest: seq<byte>, s: Progress)
    requires kind <= 127 && |value| <= MAX_TLV_LENGTH && kind != END
    ensures Read(Tlv(kind, value) + rest, s) ==
            match Handle(s, kind, value) case Err(e) => Err(e) case Ok(s') => Read(rest, s')
  {
    var p := Tlv(kind, value) + rest;
    assert p[..2] == Put16(kind * 512 + |value|);
    HeaderSplits(kind, |value|);
    assert p[2..2 + |value|] == value && p[2 + |value|..] == rest;
  }

  lemma {:induction false} ReadOptional(kind: byte, value: seq<byte>, rest: seq<byte>, u: Unit)
    requires |value| <= MAX_TLV_LENGTH && (kind == SYSTEM_NAME || kind == SYSTEM_DESCRIPTION)
    requires kind == SYSTEM_NAME ==> u.name == []
    requires kind == SYSTEM_DESCRIPTION ==> u.description == []
    ensures Read(Optional(kind, value) + rest, Progress(u, 3))
         == Read(rest, Progress(if kind == SYSTEM_NAME then u.(name := value) else u.(description := value), 3))
  {
    if value == [] {
      assert Optional(kind, value) + rest == rest;
    } else {
      ReadTlv(kind, value, rest, Progress(u, 3));
    }
  }

  /** Reading what was written, followed by any padding, gives back the unit, for every unit that can be written. */
  lemma {:induction false} UnitRoundTrip(u: Unit, padding: seq<byte>)
    requires Writable(u)
    ensures Read(Written(u) + padding, Progress(EMPTY, 0)) == Ok(u)
  {
    var caps, end := Tlv(SYSTEM_CAPABILITIES, Put16(u.supported) + Put16(u.enabled)), Tlv(END, []);
    var p4 := Optional(SYSTEM_NAME, u.name) + (Optional(SYSTEM_DESCRIPTION, u.description) + (caps + (end + padding)));
    var p3 := Tlv(TTL, Put16(u.ttl)) + p4;
    var p2 := Tlv(PORT_ID, [u.portSubtype] + u.port) + p3;
    assert Written(u) + padding == Tlv(CHASSIS_ID, [u.chassisSubtype] + u.chassis) + p2;
    ReadMandatory(u, p4);
    ReadRest(u, padding);
  }

  lemma {:induction false} ReadRest(u: Unit, padding: seq<byte>)
    requires Writable(u)
    ensures var caps, end := Tlv(SYSTEM_CAPABILITIES, Put16(u.supported) + Put16(u.enabled)), Tlv(END, []);
            Read(Optional(SYSTEM_NAME, u.name) + (Optional(SYSTEM_DESCRIPTION, u.description) + (caps + (end + padding))),
                 Progress(Unit(u.chassisSubtype, u.chassis, u.portSubtype, u.port, u.ttl, [], [], 0, 0), 3)) == Ok(u)
  {
    var end := Tlv(END, []) + padding;
    var caps := Put16(u.supported) + Put16(u.enabled);
    var p6 := Tlv(SYSTEM_CAPABILITIES, caps) + end;
    var p5 := Optional(SYSTEM_DESCRIPTION, u.description) + p6;
    var u3 := Unit(u.chassisSubtype, u.chassis, u.portSubtype, u.port, u.ttl, [], [], 0, 0);
    var u5 := u3.(name := u.name, description := u.description);
    ReadOptional(SYSTEM_NAME, u.name, p5, u3);
    ReadOptional(SYSTEM_DESCRIPTION, u.description, p6, u3.(name := u.name));
    ReadTlv(SYSTEM_CAPABILITIES, caps, end, Progress(u5, 3));
    assert caps[..2] == Put16(u.supported) && caps[2..] == Put16(u.enabled);
    assert end[..2] == Put16(0);
  }

  lemma {:induction false} ReadMandatory(u: Unit, rest: seq<byte>)
    requires Writable(u)
    ensures Read(Tlv(CHASSIS_ID, [u.chassisSubtype] + u.chassis) + (Tlv(PORT_ID, [u.portSubtype] + u.port) + (Tlv(TTL, Put16(u.ttl)) + rest)),
                 Progress(EMPTY, 0))
         == Read(rest, Progress(Unit(u.chassisSubtype, u.chassis, u.portSubtype, u.port, u.ttl, [], [], 0, 0), 3))
  {
    var u1 := EMPTY.(chassisSubtype := u.chassisSubtype, chassis := u.chassis);
    var u2 := u1.(portSubtype := u.portSubtype, port := u.port);
    var p3 := Tlv(TTL, Put16(u.ttl)) + rest;
    ReadTlv(CHASSIS_ID, [u.chassisSubtype] + u.chassis, Tlv(PORT_ID, [u.portSubtype] + u.port) + p3, Progress(EMPTY, 0));
    ReadTlv(PORT_ID, [u.portSubtype] + u.port, p3, Progress(u1, 1));
    ReadTlv(TTL, Put16(u.ttl), rest, Progress(u2, 2));
  }

  // ----- What is accepted -----

  datatype Record = Record(kind: byte, value: seq<byte>)

  /** The records of a payload up to and including the first End, if it is cut into records that far. */
  function Records(p: seq<byte>): Option<seq<Record>>
    decreases |p|
  {
    if |p| < 2 || 2 + Length(p) > |p| then None
    else
      var first := Record(Kind(p), p[2..2 + Length(p)]);
      if first.kind == END then Some([first])
      else match Records(p[2 + Length(p)..])
           case None => None
           case Some(rs) => Some([first] + rs)
  }

  predicate Mandatory(kind: byte) {
    kind == CHASSIS_ID || kind == PORT_ID || kind == TTL
  }

  /** After the mandatory records, only others follow, up to an empty End. */
  ghost predicate Tail(rs: seq<Record>) {
    && rs != [] && rs[|rs| - 1] == Record(END, [])
    && forall i :: 0 <= i < |rs| - 1 ==> rs[i].kind != END && !Mandatory(rs[i].kind)
                                          && (rs[i].kind == SYSTEM_CAPABILITIES ==> |rs[i].value| == 4)
  }

  ghost predicate Ordered(rs: seq<Record>) {
    && |rs| >= 4 && rs[0].kind == CHASSIS_ID && rs[1].kind == PORT_ID && rs[2].kind == TTL
    && |rs[0].value| >= 2 && |rs[1].value| >= 2 && |rs[2].value| == 2 && Tail(rs[3..])
  }

  /** What is accepted once some of the mandatory records have been seen. */
  ghost predicate From(rs: seq<Record>, stage: nat)
    decreases 3 - stage
  {
    if stage >= 3 then Tail(rs)
    else
      && rs != [] && rs[0].kind == stage + 1
      && (if stage == 2 then |rs[0].value| == 2 else |rs[0].value| >= 2)
      && From(rs[1..], stage + 1)
  }

  /** The value of the last record of the type, if there is one. */
  function LastOf(rs: seq<Record>, kind: byte, none: seq<byte>): seq<byte> {
    if rs == [] then none else LastOf(rs[1..], kind, if rs[0].kind == kind then rs[0].value else none)
  }

  /** What the records after the mandatory ones make of a unit: the last name, description and capabilities count, records of
      any other type do not. */
  ghost predicate Described(u: Unit, rs: seq<Record>, r: Unit) {
    && r.chassisSubtype == u.chassisSubtype && r.chassis == u.chassis
    && r.portSubtype == u.portSubtype && r.port == u.port && r.ttl == u.ttl
    && Details(u, rs, r)
  }

  ghost predicate Details(u: Unit, rs: seq<Record>, r: Unit) {
    && r.name == LastOf(rs, 5, u.name) && r.description == LastOf(rs, 6, u.description)
    && Put16(r.supported) + Put16(r.enabled) == LastOf(rs, 7, Put16(u.supported) + Put16(u.enabled))
  }

  lemma HandleDescribes(u: Unit, kind: byte, value: seq<byte>, rs: seq<Record>, r: Unit)
    requires Handle(Progress(u, 3), kind, value).Ok? && kind != END
    requires Described(Handle(Progress(u, 3), kind, value).value.unit, rs, r)
    ensures Handle(Progress(u, 3), kind, value).value.stage == 3 && Described(u, [Record(kind, value)] + rs, r)
  {
    var all := [Record(kind, value)] + rs;
    assert all[1..] == rs;
    if kind == SYSTEM_CAPABILITIES {
      Put16OfGet16(value[..2]);
      Put16OfGet16(value[2..]);
      assert value == value[..2] + value[2..];
    }
  }

  lemma {:induction false} TailAccepted(p: seq<byte>, u: Unit)
    ensures Read(p, Progress(u, 3)).Ok? <==> Records(p).Some? && Tail(Records(p).value)
    ensures Read(p, Progress(u, 3)).Ok? ==> Described(u, Records(p).value, Read(p, Progress(u, 3)).value)
    decreases |p|
  {
    if |p| >= 2 && 2 + Length(p) <= |p| && Kind(p) != END {
      var value, rest := p[2..2 + Length(p)], p[2 + Length(p)..];
      match Handle(Progress(u, 3), Kind(p), value)
      case Ok(s) =>
        TailAccepted(rest, s.unit);
        if Records(rest).Some? {
          TailCons(Record(Kind(p), value), Records(rest).value);
          if Read(rest, s).Ok? {
            HandleDescribes(u, Kind(p), value, Records(rest).value, Read(rest, s).value);
          }
        }
      case Err(_) =>
        if Records(rest).Some? {
          assert ([Record(Kind(p), value)] + Records(rest).value)[0].kind == Kind(p);
          RecordsNonempty(rest);
        }
    }
  }

  lemma {:induction false} RecordsNonempty(p: seq<byte>)
    requires Records(p).Some?
    ensures Records(p).value != []
  {
  }

  lemma {:induction false} TailCons(r: Record, rs: seq<Record>)
    requires r.kind != END && !Mandatory(r.kind) && (r.kind == SYSTEM_CAPABILITIES ==> |r.value| == 4) && rs != []
    ensures Tail([r] + rs) <==> Tail(rs)
  {
    var all := [r] + rs;
    if Tail(all) {
      forall i | 0 <= i < |rs| - 1 ensures rs[i] == all[i + 1] {
      }
    }
  }

  /** What a unit holds that was read from these records, with so many mandatory ones seen before. */
  ghost predicate Holds(u: Unit, stage: nat, rs: seq<Record>, r: Unit)
    requires stage <= 3 && |rs| >= 4 - stage
  {
    && (if stage == 0 then [r.chassisSubtype] + r.chassis == rs[0].value else r.chassisSubtype == u.chassisSubtype && r.chassis == u.chassis)
    && (if stage <= 1 then [r.portSubtype] + r.port == rs[1 - stage].value else r.portSubtype == u.portSubtype && r.port == u.port)
    && (if stage <= 2 then Put16(r.ttl) == rs[2 - stage].value else r.ttl == u.ttl)
    && Details(u, rs, r)
  }

  lemma HandleHolds(u: Unit, stage: nat, kind: byte, value: seq<byte>, rs: seq<Record>, r: Unit)
    requires stage < 3 && Handle(Progress(u, stage), kind, value).Ok? && |rs| >= 3 - stage
    requires Holds(Handle(Progress(u, stage), kind, value).value.unit, stage + 1, rs, r)
    ensures Holds(u, stage, [Record(kind, value)] + rs, r)
  {
    var all := [Record(kind, value)] + rs;
    assert all[0] == Record(kind, value) && all[1..] == rs;
    if kind == TTL {
      Put16OfGet16(value);
    } else {
      assert [value[0]] + value[1..] == value;
    }
  }

  lemma {:induction false} FromAccepted(p: seq<byte>, u: Unit, stage: nat)
    requires stage <= 3
    ensures Read(p, Progress(u, stage)).Ok? <==> Records(p).Some? && From(Records(p).value, stage)
    ensures Read(p, Progress(u, stage)).Ok? ==>
              |Records(p).value| >= 4 - stage && Holds(u, stage, Records(p).value, Read(p, Progress(u, stage)).value)
    decreases 3 - stage
  {
    if stage == 3 {
      TailAccepted(p, u);
    } else if |p| >= 2 && 2 + Length(p) <= |p| && Kind(p) != END {
      var value, rest := p[2..2 + Length(p)], p[2 + Length(p)..];
      match Handle(Progress(u, stage), Kind(p), value)
      case Ok(s) =>
        assert s.stage == stage + 1 && Kind(p) == stage + 1;
        FromAccepted(rest, s.unit, stage + 1);
        if Records(rest).Some? {
          assert ([Record(Kind(p), value)] + Records(rest).value)[1..] == Records(rest).value;
          if Read(rest, s).Ok? {
            HandleHolds(u, stage, Kind(p), value, Records(rest).value, Read(rest, s).value);
          }
        }
      case Err(_) =>
    }
  }

  /** A payload is accepted exactly when it starts with a chassis, a port and a time-to-live record, in that order and of
      proper length, followed by other records, none of these three again, up to an empty End. The unit holds their values, the
      last name (type 5), description (6) and capabilities (7), and nothing of records of any other type. */
  lemma {:induction false} AcceptedIffOrdered(p: seq<byte>)
    ensures Read(p, Progress(EMPTY, 0)).Ok? <==> Records(p).Some? && Ordered(Records(p).value)
    ensures var r := Read(p, Progress(EMPTY, 0));
            r.Ok? ==> var rs := Records(p).value;
                      && [r.value.chassisSubtype] + r.value.chassis == rs[0].value
                      && [r.value.portSubtype] + r.value.port == rs[1].value && Put16(r.value.ttl) == rs[2].value
                      && r.value.name == LastOf(rs, 5, []) && r.value.description == LastOf(rs, 6, [])
                      && Put16(r.value.supported) + Put16(r.value.enabled) == LastOf(rs, 7, [0, 0, 0, 0])
  {
    FromAccepted(p, EMPTY, 0);
    assert Put16(0) + Put16(0) == [0, 0, 0, 0];
    if Records(p).Some? {
      FromIsOrdered(Records(p).value);
    }
  }

  lemma {:induction false} FromIsOrdered(rs: seq<Record>)
    ensures From(rs, 0) <==> Ordered(rs)
  {
    if |rs| >= 3 {
      assert rs[1..][1..] == rs[2..] && rs[2..][1..] == rs[3..];
      assert From(rs[2..], 2) <==> rs[2].kind == TTL && |rs[2].value| == 2 && Tail(rs[3..]);
      assert From(rs[1..], 1) <==> rs[1].kind == PORT_ID && |rs[1].value| >= 2 && From(rs[2..], 2);
    } else if |rs| == 2 {
      assert rs[1..][1..] == [];
    }
  }
}
