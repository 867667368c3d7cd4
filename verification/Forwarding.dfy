/** What a node does with an IPv4 packet, and why no packet keeps a network busy for ever. */
module Forwarding {
  import opened Bytes
  import opened Checksum
  import opened Ipv4Header
  import opened RoutingTables
  import opened Wrappers

  const ECHO_REPLY: byte := 0
  const ECHO_REQUEST: byte := 8
  const TIME_EXCEEDED: byte := 11

  /** The addresses that are delivered locally, those that end a tunnel, and the routing table. */
  datatype Node = Node(local: set<uint32>, tunnel: set<uint32>, routes: seq<Route>)

  predicate Routable(routes: seq<Route>, dst: uint32) {
    exists i :: 0 <= i < |routes| && Matches(routes[i], dst)
  }

  predicate IsIcmpError(kind: byte) {
    kind == 3 || kind == 4 || kind == 5 || kind == 11 || kind == 12
  }

  predicate IsGroup(ip: uint32) {
    ip / 0x1000_0000 >= 0xE || ip == 0xFFFF_FFFF
  }

  /** The suppression rules of section 3.2.2 of RFC 1122. */
  predicate ErrorPermitted(h: Header, p: seq<byte>)
    requires HeaderLen(h) <= |p|
  {
    && h.src != 0 && !IsGroup(h.src) && !IsGroup(h.dst) && h.fragOffset == 0
    && (h.protocol == PROTO_ICMP ==> |p| > HeaderLen(h) && !IsIcmpError(p[HeaderLen(h)]))
  }

  /** A locally made packet, if there is a route for it. */
  function Originate(routes: seq<Route>, payload: seq<byte>, protocol: byte, dst: uint32, src: uint32, ttl: byte): Option<seq<byte>> {
    if |payload| > 65515 || !Routable(routes, dst) then None
    else Some(Serialize(Header(4, 5, 0, 20 + |payload|, 0, 2, 0, ttl, protocol, 0, src, dst)) + payload)
  }

  function QuoteLen(p: seq<byte>): (n: nat)
    requires |p| >= 20
    ensures n <= |p| && n <= 68
  {
    var headerLen := p[0] % 16 * 4;
    var n := (if headerLen < 20 then 20 else headerLen) + 8;
    if n > |p| then |p| else n
  }

  /** Eight bytes of ICMP header, then the offending header and eight bytes past it. */
  function IcmpError(p: seq<byte>, kind: byte, code: byte): (m: seq<byte>)
    requires |p| >= 20
    ensures |m| == 8 + QuoteLen(p) && m[0] == kind && m[1] == code && m[8..] == p[..QuoteLen(p)]
  {
    var m := [kind, code, 0, 0, 0, 0, 0, 0] + p[..QuoteLen(p)];
    WithWord(m, 2, InternetSum(m))
  }

  /** The request with its type set to reply and its checksum recomputed. */
  function EchoReply(request: seq<byte>): (m: seq<byte>)
    requires |request| >= 8
    ensures |m| == |request| && m[0] == ECHO_REPLY && m[1] == request[1] && m[4..] == request[4..]
  {
    var m := WithWord(request[0 := ECHO_REPLY], 2, 0);
    WithWord(m, 2, InternetSum(m))
  }

  /** The packet handed to layer 2, if any, when a node receives p; src is the source address it would choose for a
      packet of its own. */
  function Receive(node: Node, src: uint32, p: seq<byte>): Option<seq<byte>>
    decreases |p|, 1
  {
    match Deserialize(p)
    case Err(_) => None
    case Ok(h) =>
      if !ValidHeaderChecksum(p[..HeaderLen(h)]) then None
      else if h.dst in node.local then Deliver(node, src, h, p[..h.totalLen])
      else if !Routable(node.routes, h.dst) then None
      else if h.ttl <= 1 then
        if ErrorPermitted(h, p) then Originate(node.routes, IcmpError(p, TIME_EXCEEDED, 0), PROTO_ICMP, h.src, src, 64) else None
      else Some(Forwarded(p, HeaderLen(h)))
  }

  function Deliver(node: Node, src: uint32, h: Header, p: seq<byte>): Option<seq<byte>>
    requires 20 <= HeaderLen(h) <= |p|
    decreases |p|, 0
  {
    var payload := p[HeaderLen(h)..];
    if h.protocol == PROTO_ICMP then
      if |payload| >= 8 && payload[0] == ECHO_REQUEST then
        Originate(node.routes, EchoReply(payload), PROTO_ICMP, h.src, src, 64)
      else None
    else if h.protocol == PROTO_IPIP then
      if h.dst in node.tunnel then Receive(node, src, payload) else None
    else None
  }

  // ----- A measure -----

  /** How many new packets a packet can still give rise to, one after the other. */
  function Generations(p: seq<byte>): nat
    decreases |p|
  {
    match Deserialize(p)
    case Err(_) => 0
    case Ok(h) =>
      var headerLen := HeaderLen(h);
      if h.protocol == PROTO_ICMP then
        if |p| == headerLen || IsIcmpError(p[headerLen]) then 0
        else if p[headerLen] == ECHO_REQUEST then 2
        else 1
      else if h.protocol == PROTO_IPIP then 1 + Generations(p[headerLen..h.totalLen])
      else 1
  }

  function TimeToLive(p: seq<byte>): nat {
    if |p| < 20 then 0 else p[8]
  }

  function Measure(p: seq<byte>): nat {
    256 * Generations(p) + TimeToLive(p)
  }

  /** Each tunnel layer costs a header, so the length of the packet bounds the generations. */
  lemma {:induction false} GenerationsBound(p: seq<byte>)
    ensures 20 * Generations(p) <= |p| + 20
    decreases |p|
  {
    match Deserialize(p)
    case Err(_) =>
    case Ok(h) =>
      if h.protocol == PROTO_IPIP {
        GenerationsBound(p[HeaderLen(h)..h.totalLen]);
      }
  }

  // ----- One step -----

  lemma {:induction false} ForwardedParses(p: seq<byte>)
    requires Deserialize(p).Ok? && Deserialize(p).value.ttl > 0
    ensures var h := Deserialize(p).value;
            var q := Forwarded(p, HeaderLen(h));
            Deserialize(q) == Ok(h.(ttl := h.ttl - 1, checksum := Get16(q[10..12])))
  {
    var h := Deserialize(p).value;
    var q := Forwarded(p, HeaderLen(h));
    assert q[2..4] == p[2..4] && q[4..6] == p[4..6] && q[6..8] == p[6..8];
    assert q[12..16] == p[12..16] && q[16..20] == p[16..20];
  }

  /** Forwarding changes neither the kind of packet nor what it carries, only its time to live. */
  lemma {:induction false} ForwardingKeepsGenerations(p: seq<byte>)
    requires Deserialize(p).Ok? && Deserialize(p).value.ttl > 0
    ensures var q := Forwarded(p, HeaderLen(Deserialize(p).value));
            Generations(q) == Generations(p) && TimeToLive(q) == TimeToLive(p) - 1
  {
    var h := Deserialize(p).value;
    var q := Forwarded(p, HeaderLen(h));
    ForwardedParses(p);
    assert q[HeaderLen(h)..h.totalLen] == p[HeaderLen(h)..h.totalLen];
  }

  lemma {:induction false} OriginatedParses(routes: seq<Route>, payload: seq<byte>, protocol: byte, dst: uint32, src: uint32, ttl: byte)
    requires Originate(routes, payload, protocol, dst, src, ttl).Some?
    ensures var q := Originate(routes, payload, protocol, dst, src, ttl).value;
            && |q| == 20 + |payload| && q[20..] == payload && ValidHeaderChecksum(q[..20])
            && Deserialize(q).Ok?
            && var h := Deserialize(q).value;
               && HeaderLen(h) == 20 && h.totalLen as int == |q| && h.protocol == protocol && h.ttl == ttl && h.dst == dst && h.src == src
               && h.tos == 0 && h.id == 0 && h.flags == 2 && h.fragOffset == 0
  {
    HeaderRoundTrip(Header(4, 5, 0, 20 + |payload|, 0, 2, 0, ttl, protocol, 0, src, dst), payload);
  }

  lemma {:induction false} NewIcmpGenerations(routes: seq<Route>, payload: seq<byte>, dst: uint32, src: uint32)
    requires |payload| > 0 && payload[0] != ECHO_REQUEST && Originate(routes, payload, PROTO_ICMP, dst, src, 64).Some?
    ensures var q := Originate(routes, payload, PROTO_ICMP, dst, src, 64).value;
            Generations(q) == (if IsIcmpError(payload[0]) then 0 else 1) && TimeToLive(q) == 64
  {
    OriginatedParses(routes, payload, PROTO_ICMP, dst, src, 64);
    var q := Originate(routes, payload, PROTO_ICMP, dst, src, 64).value;
    assert q[20..][0] == q[20];
  }

  /** What leaves a node is the packet forwarded, or a new packet that is a generation nearer the end. */
  lemma {:induction false} ForwardedOrYounger(node: Node, src: uint32, p: seq<byte>)
    requires Receive(node, src, p).Some?
    ensures Deserialize(p).Ok?
    ensures var h, q := Deserialize(p).value, Receive(node, src, p).value;
            || Generations(q) < Generations(p)
            || (h.ttl > 1 && q == Forwarded(p, HeaderLen(h)))
    decreases |p|
  {
    var h := Deserialize(p).value;
    if h.dst in node.local {
      var local := p[..h.totalLen];
      var payload := local[HeaderLen(h)..];
      assert payload == p[HeaderLen(h)..h.totalLen];
      if h.protocol == PROTO_ICMP {
        assert payload[0] == p[HeaderLen(h)];
        NewIcmpGenerations(node.routes, EchoReply(payload), h.src, src);
      } else {
        ForwardedOrYounger(node, src, payload);
        var inner := Deserialize(payload).value;
        if inner.ttl > 1 {
          ForwardingKeepsGenerations(payload);
        }
      }
    } else if h.ttl <= 1 {
      NewIcmpGenerations(node.routes, IcmpError(p, TIME_EXCEEDED, 0), h.src, src);
    }
  }

  lemma {:induction false} ReceiveDescends(node: Node, src: uint32, p: seq<byte>)
    requires Receive(node, src, p).Some?
    ensures Measure(Receive(node, src, p).value) < Measure(p)
  {
    ForwardedOrYounger(node, src, p);
    var h := Deserialize(p).value;
    if h.ttl > 1 {
      ForwardingKeepsGenerations(p);
    }
  }

  // ----- Chains of packets over arbitrary nodes -----

  ghost predicate Causes(p: seq<byte>, q: seq<byte>) {
    exists node, src :: Receive(node, src, p) == Some(q)
  }

  /** Each packet makes some node, with any addresses and any routing table, send the next. */
  ghost predicate IsChain(ps: seq<seq<byte>>) {
    forall i :: 0 < i < |ps| ==> Causes(ps[i - 1], ps[i])
  }

  lemma {:induction false} CauseDescends(p: seq<byte>, q: seq<byte>)
    requires Causes(p, q)
    ensures Measure(q) < Measure(p)
    ensures Generations(q) < Generations(p) || (Generations(q) == Generations(p) && IsForwarding(p, q))
  {
    var node, src :| Receive(node, src, p) == Some(q);
    ReceiveDescends(node, src, p);
    ForwardedOrYounger(node, src, p);
    if Deserialize(p).value.ttl > 1 {
      ForwardingKeepsGenerations(p);
    }
  }

  predicate IsForwarding(p: seq<byte>, q: seq<byte>) {
    match Deserialize(p) case Err(_) => false case Ok(h) => h.ttl > 1 && q == Forwarded(p, HeaderLen(h))
  }

  /** The steps of a chain at which a new packet was made. */
  function NewPackets(ps: seq<seq<byte>>): nat {
    if |ps| < 2 then 0 else (if IsForwarding(ps[0], ps[1]) then 0 else 1) + NewPackets(ps[1..])
  }

  /** Whatever the topology and the routing tables, what one packet sets off ends: the chain is shorter than a bound
      that depends only on the length of the first packet. */
  lemma {:induction false} EveryChainEnds(ps: seq<seq<byte>>)
    requires IsChain(ps) && ps != []
    ensures |ps| <= Measure(ps[0]) + 1
    ensures |ps| <= 256 * (|ps[0]| / 20 + 2)
  {
    ChainLength(ps);
    GenerationsBound(ps[0]);
    assert Generations(ps[0]) <= |ps[0]| / 20 + 1;
  }

  lemma {:induction false} ChainLength(ps: seq<seq<byte>>)
    requires IsChain(ps) && ps != []
    ensures |ps| <= Measure(ps[0]) + 1
  {
    if |ps| > 1 {
      var rest := ps[1..];
      assert forall i :: 0 < i < |rest| ==> rest[i - 1] == ps[i] && rest[i] == ps[i + 1];
      ChainLength(rest);
      assert Causes(ps[0], ps[1]);
      CauseDescends(ps[0], ps[1]);
    }
  }

  /** At most as many new packets as generations: none after an ICMP error, one after an ordinary packet or an echo
      reply, two after an echo request. */
  lemma {:induction false} FewNewPackets(ps: seq<seq<byte>>)
    requires IsChain(ps) && ps != []
    ensures NewPackets(ps) <= Generations(ps[0])
  {
    if |ps| > 1 {
      var rest := ps[1..];
      assert forall i :: 0 < i < |rest| ==> rest[i - 1] == ps[i] && rest[i] == ps[i + 1];
      FewNewPackets(rest);
      assert Causes(ps[0], ps[1]);
      CauseDescends(ps[0], ps[1]);
    }
  }

  /** An ICMP error is forwarded or disappears; nothing answers it. */
  lemma {:induction false} ErrorsBegetNothing(node: Node, src: uint32, p: seq<byte>)
    requires Deserialize(p).Ok?
    requires var h := Deserialize(p).value; h.protocol == PROTO_ICMP && |p| > HeaderLen(h) && IsIcmpError(p[HeaderLen(h)])
    ensures Receive(node, src, p) == None || IsForwarding(p, Receive(node, src, p).value)
  {
    if Receive(node, src, p).Some? {
      ForwardedOrYounger(node, src, p);
    }
  }

  /** What is forwarded is a valid packet for the same destination, one hop older, with the same contents. */
  lemma {:induction false} ForwardingIsFaithful(p: seq<byte>, q: seq<byte>)
    requires IsForwarding(p, q)
    ensures Deserialize(q).Ok?
    ensures var h, g := Deserialize(p).value, Deserialize(q).value;
            && g == h.(ttl := h.ttl - 1, checksum := g.checksum)
            && ValidHeaderChecksum(q[..HeaderLen(h)])
            && q[HeaderLen(h)..] == p[HeaderLen(h)..] && q[20..HeaderLen(h)] == p[20..HeaderLen(h)]
  {
    ForwardedParses(p);
    ForwardedIsValid(p, HeaderLen(Deserialize(p).value));
  }

  // ----- The messages that are made -----

  lemma {:induction false} IcmpErrorIsValid(p: seq<byte>, kind: byte, code: byte)
    requires |p| >= 20
    ensures InternetSum(IcmpError(p, kind, code)) == 0
  {
    var m := [kind, code, 0, 0, 0, 0, 0, 0] + p[..QuoteLen(p)];
    StoredChecksumValidates(m, 2);
    assert WithWord(m, 2, 0) == m;
  }

  lemma IcmpErrorUnused(p: seq<byte>, kind: byte, code: byte)
    requires |p| >= 20
    ensures IcmpError(p, kind, code)[4..8] == [0, 0, 0, 0]
  {
  }

  lemma {:induction false} EchoReplyIsValid(request: seq<byte>)
    requires |request| >= 8
    ensures InternetSum(EchoReply(request)) == 0
  {
    var m := request[0 := ECHO_REPLY];
    StoredChecksumValidates(m, 2);
    var z := WithWord(m, 2, 0);
    assert WithWord(z, 2, InternetSum(z)) == WithWord(m, 2, InternetSum(z));
  }

  method BuildIcmpError(orig: seq<byte>, kind: byte, code: byte) returns (msg: array<byte>)
    requires |orig| >= 20
    ensures fresh(msg) && msg[..] == IcmpError(orig, kind, code)
  {
    var headerLen := orig[0] % 16 * 4;
    if headerLen < 20 {
      headerLen := 20;
    }
    var quoteLen := headerLen + 8;
    if quoteLen > |orig| {
      quoteLen := |orig|;
    }
    msg := new byte[8 + quoteLen](_ => 0);
    msg[0], msg[1] := kind, code;
    forall i | 0 <= i < quoteLen {
      msg[8 + i] := orig[i];
    }
    assert msg[..] == [kind, code, 0, 0, 0, 0, 0, 0] + orig[..QuoteLen(orig)];
    var checksum := InternetChecksum(msg[..]);
    msg[2], msg[3] := checksum / 256, checksum % 256;
  }

  /** A valid header, as every node checks it first. */
  predicate Intact(p: seq<byte>) {
    Deserialize(p).Ok? && ValidHeaderChecksum(p[..HeaderLen(Deserialize(p).value)])
  }

  /** A node that gives up on an intact transit packet reports it exactly when the packet's source is known, neither address is
      224.0.0.0 or above, it is a first fragment and no ICMP error (types 3, 4, 5, 11 and 12), and there is a route back. The
      report is a time exceeded message of code 0 to that source, fit for 64 hops, never to be fragmented, valid, and with the
      packet's header and the eight bytes after it. */
  lemma {:induction false} ExpiryReport(node: Node, src: uint32, p: seq<byte>)
    requires Intact(p)
    requires var h := Deserialize(p).value; h.dst !in node.local && Routable(node.routes, h.dst) && h.ttl <= 1
    ensures var h := Deserialize(p).value;
            Receive(node, src, p).Some? <==>
              && 0 < h.src < 0xE000_0000 && h.dst < 0xE000_0000 && h.fragOffset == 0 && Routable(node.routes, h.src)
              && !(h.protocol == 1 && (|p| == HeaderLen(h) || p[HeaderLen(h)] in [3, 4, 5, 11, 12]))
    ensures Receive(node, src, p).Some? ==>
              var h, q := Deserialize(p).value, Receive(node, src, p).value;
              && q[20..22] == [11, 0] && InternetSum(q[20..]) == 0 && q[24..28] == [0, 0, 0, 0]
              && q[28..] == p[..if HeaderLen(h) + 8 > |p| then |p| else HeaderLen(h) + 8]
              && Intact(q)
              && var g := Deserialize(q).value; g.dst == h.src && g.src == src && g.protocol == 1 && g.ttl == 64 && g.fragOffset == 0 && g.flags == 2
  {
    var h := Deserialize(p).value;
    var m := IcmpError(p, TIME_EXCEEDED, 0);
    if Receive(node, src, p).Some? {
      OriginatedParses(node.routes, m, PROTO_ICMP, h.src, src, 64);
      IcmpErrorIsValid(p, TIME_EXCEEDED, 0);
      var q := Receive(node, src, p).value;
      IcmpErrorUnused(p, TIME_EXCEEDED, 0);
      assert q[20..][..2] == q[20..22] && q[20..][4..8] == q[24..28] && q[20..][8..] == q[28..];
    }
  }

  /** An intact transit packet with hops left is forwarded whenever there is a route for it. */
  lemma {:induction false} TransitIsForwarded(node: Node, src: uint32, p: seq<byte>)
    requires Intact(p)
    requires var h := Deserialize(p).value; h.dst !in node.local && h.ttl > 1
    ensures Receive(node, src, p) ==
            if Routable(node.routes, Deserialize(p).value.dst) then Some(Forwarded(p, HeaderLen(Deserialize(p).value))) else None
    ensures Receive(node, src, p).Some? ==> Intact(Receive(node, src, p).value)
  {
    ForwardedParses(p);
    ForwardedIsValid(p, HeaderLen(Deserialize(p).value));
  }

  /** An intact echo request for the node is answered whenever there is a route back: to its source, with its code, identifier,
      sequence number and data, a valid checksum, and fit for 64 hops, never to be fragmented. */
  lemma {:induction false} EchoIsAnswered(node: Node, src: uint32, p: seq<byte>)
    requires Intact(p)
    requires var h := Deserialize(p).value;
             && h.dst in node.local && h.protocol == 1 && h.totalLen as int >= HeaderLen(h) + 8
             && p[HeaderLen(h)] == 8 && Routable(node.routes, h.src)
    ensures Receive(node, src, p).Some? && Intact(Receive(node, src, p).value)
    ensures var h, q := Deserialize(p).value, Receive(node, src, p).value;
            && |q| == 20 + h.totalLen - HeaderLen(h)
            && q[20] == 0 && q[21] == p[HeaderLen(h) + 1] && q[24..] == p[HeaderLen(h) + 4..h.totalLen] && InternetSum(q[20..]) == 0
            && var g := Deserialize(q).value;
               && HeaderLen(g) == 20 && g.totalLen as int == |q| && g.dst == h.src && g.src == src && g.protocol == 1
               && g.ttl == 64 && g.fragOffset == 0 && g.flags == 2
  {
    var h := Deserialize(p).value;
    var local := p[..h.totalLen];
    var payload := local[HeaderLen(h)..];
    assert |payload| >= 8 && payload[0] == p[HeaderLen(h)];
    var m := EchoReply(payload);
    var sent := Originate(node.routes, m, PROTO_ICMP, h.src, src, 64);
    assert Receive(node, src, p) == Deliver(node, src, h, local) == sent;
    OriginatedParses(node.routes, m, PROTO_ICMP, h.src, src, 64);
    EchoReplyIsValid(payload);
    var q := sent.value;
    assert q[20..] == m && q[20..][0] == q[20] && q[20..][1] == q[21] && q[20..][4..] == q[24..];
    assert payload[4..] == p[HeaderLen(h) + 4..h.totalLen];
  }

  /** At the end of its tunnel the outer header is taken off and the inner packet is received as if it had just arrived. */
  lemma {:induction false} TunnelIsOpened(node: Node, src: uint32, p: seq<byte>)
    requires Intact(p)
    requires var h := Deserialize(p).value; h.dst in node.local && h.dst in node.tunnel && h.protocol == PROTO_IPIP
    ensures var h := Deserialize(p).value; Receive(node, src, p) == Receive(node, src, p[HeaderLen(h)..h.totalLen])
  {
    var h := Deserialize(p).value;
    assert p[..h.totalLen][HeaderLen(h)..] == p[HeaderLen(h)..h.totalLen];
  }

  /** Only an echo request and a packet in a tunnel that ends here make a node send anything when they are for the node itself. */
  lemma {:induction false} OtherwiseSilent(node: Node, src: uint32, p: seq<byte>)
    requires Deserialize(p).Ok? && Receive(node, src, p).Some?
    requires Deserialize(p).value.dst in node.local
    ensures var h := Deserialize(p).value;
            || (h.protocol == 1 && h.totalLen as int >= HeaderLen(h) + 8 && p[HeaderLen(h)] == 8)
            || (h.protocol == 4 && h.dst in node.tunnel)
  {
    var h := Deserialize(p).value;
    assert p[..h.totalLen][HeaderLen(h)..] == p[HeaderLen(h)..h.totalLen];
  }

  /** A packet for which there is no route vanishes, however many hops it has left. */
  lemma UnroutableVanishes(node: Node, src: uint32, p: seq<byte>)
    requires Deserialize(p).Ok? && Deserialize(p).value.dst !in node.local && !Routable(node.routes, Deserialize(p).value.dst)
    ensures Receive(node, src, p) == None
  {
  }

  /** A packet whose header fails its checksum, or does not parse, disappears without a word. */
  lemma {:induction false} DamageIsSilent(node: Node, src: uint32, p: seq<byte>)
    requires !Intact(p)
    ensures Receive(node, src, p) == None
  {
  }

  /** Nor does one with any one word of its header changed, past the word of version and length, except from plus zero to minus
      zero or back. */
  lemma {:induction false} OneWordIsNoticed(node: Node, src: uint32, p: seq<byte>, at: nat, w: uint16)
    requires Intact(p) && 2 <= at && at % 2 == 0 && at + 2 <= HeaderLen(Deserialize(p).value)
    requires var was := Get16(p[at..at + 2]); w != was && !(w == 65535 && was == 0) && !(w == 0 && was == 65535)
    ensures Receive(node, src, WithWord(p, at, w)) == None
  {
    var n, q := HeaderLen(Deserialize(p).value), WithWord(p, at, w);
    assert q[..n] == WithWord(p[..n], at, w) && p[..n][at..at + 2] == p[at..at + 2];
    OneWordErrorIsNoticed(p[..n], at, w);
    if Deserialize(q).Ok? {
      assert HeaderLen(Deserialize(q).value) == n;
    }
  }

  /** The sender of the original can read the quoted header back only if the packet was no longer than the quote. */
  lemma {:induction false} QuoteReadableOnlyIfShort(p: seq<byte>)
    requires Deserialize(p).Ok?
    ensures var h := Deserialize(p).value;
            && (Deserialize(p[..QuoteLen(p)]) == Ok(h) <==> h.totalLen as int <= HeaderLen(h) + 8)
            && (h.totalLen as int > HeaderLen(h) + 8 ==> Deserialize(p[..QuoteLen(p)]) == Err(BadTotalLength))
  {
    var q := p[..QuoteLen(p)];
    assert q[2..4] == p[2..4] && q[4..6] == p[4..6] && q[6..8] == p[6..8] && q[10..12] == p[10..12];
    assert q[12..16] == p[12..16] && q[16..20] == p[16..20];
  }
}
