/** A packet on its way over many routers: how far it gets, what comes back, and what is left of it when it arrives. */
module Journeys {
  import opened Bytes
  import opened Wrappers
  import opened Checksum
  import opened Ipv4Header
  import opened Forwarding

  /** A router on the way and the source address it would choose for a packet of its own. */
  datatype Stop = Stop(node: Node, src: uint32)

  /** What leaves the last of these routers when p comes to the first, each receiving what the one before it sent. */
  function Passed(stops: seq<Stop>, p: seq<byte>): Option<seq<byte>> {
    if stops == [] then Some(p)
    else
      match Receive(stops[0].node, stops[0].src, p)
      case None => None
      case Some(q) => Passed(stops[1..], q)
  }

  /** Each of these routers has a route to the address and none has it for its own. */
  predicate LeadTo(stops: seq<Stop>, dst: uint32) {
    forall i :: 0 <= i < |stops| ==> dst !in stops[i].node.local && Routable(stops[i].node.routes, dst)
  }

  /** q is p after so many hops: only the time to live and the checksum differ. */
  predicate OnlyOlder(p: seq<byte>, q: seq<byte>, hops: nat) {
    && Intact(p) && Intact(q) && |q| == |p|
    && var h, g := Deserialize(p).value, Deserialize(q).value;
       && h.ttl >= hops && g == h.(ttl := h.ttl - hops, checksum := g.checksum)
       && q[20..] == p[20..]
  }

  lemma OlderTwice(p: seq<byte>, q: seq<byte>, r: seq<byte>, m: nat, n: nat)
    requires OnlyOlder(p, q, m) && OnlyOlder(q, r, n)
    ensures OnlyOlder(p, r, m + n)
  {
  }

  lemma OneStop(stop: Stop, p: seq<byte>) returns (q: seq<byte>)
    requires Intact(p) && Deserialize(p).value.ttl > 1 && LeadTo([stop], Deserialize(p).value.dst)
    ensures Receive(stop.node, stop.src, p) == Some(q) && OnlyOlder(p, q, 1)
  {
    var h := Deserialize(p).value;
    assert [stop][0] == stop;
    TransitIsForwarded(stop.node, stop.src, p);
    q := Forwarded(p, HeaderLen(h));
    ForwardingIsFaithful(p, q);
    assert q[20..] == p[20..];
  }

  /** A packet with more hops left than there are routers on its way gets over all of them, and only its time to live and
      checksum are not what they were. */
  lemma {:induction false} PassesOver(stops: seq<Stop>, p: seq<byte>) returns (q: seq<byte>)
    requires Intact(p) && LeadTo(stops, Deserialize(p).value.dst) && Deserialize(p).value.ttl as int > |stops|
    ensures Passed(stops, p) == Some(q) && OnlyOlder(p, q, |stops|)
  {
    if stops == [] {
      q := p;
    } else {
      assert stops[0] == [stops[0]][0];
      var next := OneStop(stops[0], p);
      assert forall i :: 0 <= i < |stops[1..]| ==> stops[1..][i] == stops[i + 1];
      q := PassesOver(stops[1..], next);
      OlderTwice(p, next, q, 1, |stops| - 1);
    }
  }

  /** The answer to an echo request comes back over any 63 routers that know the way, with its code, identifier, sequence
      number and data as they were sent. */
  lemma EchoReturns(node: Node, src: uint32, p: seq<byte>, stops: seq<Stop>) returns (q: seq<byte>)
    requires Intact(p) && |stops| <= 63 && LeadTo(stops, Deserialize(p).value.src)
    requires var h := Deserialize(p).value;
             && h.dst in node.local && h.protocol == 1 && h.totalLen as int >= HeaderLen(h) + 8
             && p[HeaderLen(h)] == 8 && Routable(node.routes, h.src)
    ensures Passed([Stop(node, src)] + stops, p) == Some(q) && Intact(q)
    ensures var h, g := Deserialize(p).value, Deserialize(q).value;
            && |q| == 20 + h.totalLen - HeaderLen(h)
            && g.dst == h.src && g.src == src && g.protocol == 1 && g.ttl as int == 64 - |stops| && HeaderLen(g) == 20 && g.totalLen as int == |q|
            && q[20] == 0 && q[21] == p[HeaderLen(h) + 1] && q[24..] == p[HeaderLen(h) + 4..h.totalLen] && InternetSum(q[20..]) == 0
  {
    EchoIsAnswered(node, src, p);
    var reply := Receive(node, src, p).value;
    q := PassesOver(stops, reply);
    assert ([Stop(node, src)] + stops)[1..] == stops;
    assert q[20] == q[20..][0] && q[21] == q[20..][1] && q[24..] == q[20..][4..];
    assert reply[20] == reply[20..][0] && reply[21] == reply[20..][1] && reply[24..] == reply[20..][4..];
  }

  /** A packet that has as many hops as there are routers on its way, or fewer, gets to the one at which they run out, and no
      further: if it may be reported and there is a way back, that router tells its source, from its own address, what became of
      it. That is how a route is traced. */
  lemma RunsOut(stops: seq<Stop>, p: seq<byte>, n: nat) returns (x: seq<byte>, q: seq<byte>)
    requires Intact(p) && LeadTo(stops, Deserialize(p).value.dst) && Deserialize(p).value.ttl as int == n + 1 <= |stops|
    requires var h := Deserialize(p).value;
             && 0 < h.src < 0xE000_0000 && h.dst < 0xE000_0000 && h.fragOffset == 0 && Routable(stops[n].node.routes, h.src)
             && !(h.protocol == 1 && (|p| == HeaderLen(h) || p[HeaderLen(h)] in [3, 4, 5, 11, 12]))
    ensures Passed(stops[..n], p) == Some(x) && OnlyOlder(p, x, n) && Receive(stops[n].node, stops[n].src, x) == Some(q)
    ensures Intact(q) && |q| >= 28 && q[20..22] == [11, 0] && q[28..] <= x && InternetSum(q[20..]) == 0
    ensures var h, g := Deserialize(p).value, Deserialize(q).value; g.dst == h.src && g.src == stops[n].src && g.protocol == 1 && g.ttl == 64
  {
    var h := Deserialize(p).value;
    assert forall i :: 0 <= i < n ==> stops[..n][i] == stops[i];
    x := PassesOver(stops[..n], p);
    if |p| > HeaderLen(h) {
      assert x[HeaderLen(h)] == x[20..][HeaderLen(h) - 20] && p[HeaderLen(h)] == p[20..][HeaderLen(h) - 20];
    }
    ExpiryReport(stops[n].node, stops[n].src, x);
    q := Receive(stops[n].node, stops[n].src, x).value;
  }
}
