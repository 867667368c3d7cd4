/** The IPv4 header and its bytes. */
module Ipv4Header {
  import opened Bytes
  import opened Checksum
  import opened Wrappers

  const PROTO_ICMP: byte := 1
  const PROTO_IPIP: byte := 4

  datatype Header = Header(
    version: byte, ihl: byte, tos: byte, totalLen: uint16, id: uint16, flags: byte, fragOffset: uint16,
    ttl: byte, protocol: byte, checksum: uint16, src: uint32, dst: uint32)

  datatype HeaderError = TooShort | BadVersion | BadHeaderLength | BadTotalLength

  function HeaderLen(h: Header): nat {
    h.ihl as int * 4
  }

  /** The header with its checksum field as given; fields wider than their place in the header are cut off. */
  function Raw(h: Header): (r: seq<byte>)
    ensures |r| == 20
  {
    [h.version % 16 * 16 + h.ihl % 16, h.tos] + Put16(h.totalLen) + Put16(h.id) + Put16(h.flags % 8 * 8192 + h.fragOffset % 8192)
    + [h.ttl, h.protocol] + Put16(h.checksum) + Put32(h.src) + Put32(h.dst)
  }

  function Serialize(h: Header): seq<byte> {
    Stored(Raw(h), 20)
  }

  function Fields(p: seq<byte>): Header
    requires |p| >= 20
  {
    var ff := Get16(p[6..8]);
    Header(p[0] / 16, p[0] % 16, p[1], Get16(p[2..4]), Get16(p[4..6]), ff / 8192, ff % 8192,
           p[8], p[9], Get16(p[10..12]), Get32(p[12..16]), Get32(p[16..20]))
  }

  /** Reads a header and checks it against the length of the buffer it came in. */
  function Deserialize(p: seq<byte>): (r: Result<Header, HeaderError>)
    ensures r.Ok? ==> 20 <= HeaderLen(r.value) <= r.value.totalLen as int <= |p| && HeaderLen(r.value) <= 60
  {
    if |p| < 20 then Err(TooShort)
    else
      var h := Fields(p);
      if h.version != 4 then Err(BadVersion)
      else if h.ihl < 5 || HeaderLen(h) > |p| then Err(BadHeaderLength)
      else if h.totalLen as int < HeaderLen(h) || h.totalLen as int > |p| then Err(BadTotalLength)
      else Ok(h)
  }

  predicate InRange(h: Header) {
    h.version < 16 && h.ihl < 16 && h.flags < 8 && h.fragOffset < 8192
  }

  lemma FirstHalf(a: seq<byte>, b: seq<byte>, c: seq<byte>, d: seq<byte>, rest: seq<byte>)
    requires |a| == |b| == |c| == |d| == 2
    ensures var p := a + b + c + d + rest;
            |p| == 8 + |rest| && p[2..4] == b && p[4..6] == c && p[6..8] == d && p[8..] == rest
  {
  }

  lemma SecondHalf(a: seq<byte>, b: seq<byte>, c: seq<byte>, d: seq<byte>, rest: seq<byte>)
    requires |a| == |b| == 2 && |c| == |d| == 4
    ensures var p := a + b + c + d + rest;
            |p| == 12 + |rest| && p[0] == a[0] && p[1] == a[1] && p[2..4] == b && p[4..8] == c && p[8..12] == d
  {
  }

  /** Where each field of a header starts. */
  lemma {:induction false} RawParts(h: Header, rest: seq<byte>)
    ensures var p, ff := Raw(h) + rest, h.flags % 8 * 8192 + h.fragOffset % 8192;
            && p[0] == h.version % 16 * 16 + h.ihl % 16 && p[1] == h.tos
            && p[2..4] == Put16(h.totalLen) && p[4..6] == Put16(h.id) && p[6..8] == Put16(ff)
            && p[8] == h.ttl && p[9] == h.protocol && p[10..12] == Put16(h.checksum)
            && p[12..16] == Put32(h.src) && p[16..20] == Put32(h.dst)
  {
    var ff := h.flags % 8 * 8192 + h.fragOffset % 8192;
    var q := [h.ttl, h.protocol] + Put16(h.checksum) + Put32(h.src) + Put32(h.dst) + rest;
    var p := Raw(h) + rest;
    assert p == [h.version % 16 * 16 + h.ihl % 16, h.tos] + Put16(h.totalLen) + Put16(h.id) + Put16(ff) + q;
    FirstHalf([h.version % 16 * 16 + h.ihl % 16, h.tos], Put16(h.totalLen), Put16(h.id), Put16(ff), q);
    SecondHalf([h.ttl, h.protocol], Put16(h.checksum), Put32(h.src), Put32(h.dst), rest);
    assert p[8] == q[0] && p[9] == q[1] && p[10..12] == q[2..4] && p[12..16] == q[4..8] && p[16..20] == q[8..12];
  }

  lemma {:induction false} FieldsOfRaw(h: Header, rest: seq<byte>)
    requires InRange(h)
    ensures Fields(Raw(h) + rest) == h
  {
    RawParts(h, rest);
  }

  lemma {:induction false} FieldsOfStored(p: seq<byte>, headerLen: nat)
    requires 20 <= headerLen <= |p|
    ensures Fields(Stored(p, headerLen)) == Fields(p).(checksum := HeaderChecksum(p[..headerLen]))
  {
    var q := Stored(p, headerLen);
    assert q[2..4] == p[2..4] && q[4..6] == p[4..6] && q[6..8] == p[6..8];
    assert q[12..16] == p[12..16] && q[16..20] == p[16..20];
  }

  /** A header sent in front of a payload carries a valid checksum and is read back, with that checksum filled in,
      exactly when it is version 4 and its two lengths fit each other and the packet. */
  lemma {:induction false} HeaderRoundTrip(h: Header, payload: seq<byte>)
    requires InRange(h)
    ensures var p := Serialize(h) + payload;
            && ValidHeaderChecksum(p[..20])
            && (Deserialize(p) == Ok(h.(checksum := HeaderChecksum(Raw(h)))) <==>
                h.version == 4 && h.ihl >= 5 && HeaderLen(h) <= h.totalLen as int <= 20 + |payload|)
  {
    var raw := Raw(h);
    var p := Serialize(h) + payload;
    StoredIsValid(raw, 20);
    assert raw[..20] == raw && p[..20] == Serialize(h) == Serialize(h)[..20];
    assert p == Stored(raw + payload, 20) by {
      assert (raw + payload)[..20] == raw;
    }
    FieldsOfStored(raw + payload, 20);
    FieldsOfRaw(h, payload);
  }
}
