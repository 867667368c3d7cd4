/** A frame flooded over a ready spanning tree, one copy at a time in any order. */
module Flooding {
  import opened StpNetwork
  import opened StpPaths
  import opened ForwardingTree

  // ----- One bridge -----

  /** A data frame of the VLAN is taken in on this port: it may learn and forward, and the VLAN is allowed. */
  predicate Accepts(s: Fabric, allowed: set<Endpoint>, e: Endpoint)
    requires e.bridge < |s.bridges| && e.port < |s.bridges[e.bridge].ports|
  {
    CanForward(s, e) && e in allowed
  }

  /** The ports a frame that came in on `ingress` is flooded to, among the first k. */
  function Sends(s: Fabric, allowed: set<Endpoint>, ingress: Endpoint, k: nat): (out: seq<Endpoint>)
    requires ingress.bridge < |s.bridges| && k <= |s.bridges[ingress.bridge].ports|
    ensures forall o :: o in out <==>
              o.bridge == ingress.bridge && o.port < k && o != ingress && Accepts(s, allowed, o)
    ensures forall i, j :: 0 <= i < j < |out| ==> out[i].port < out[j].port
  {
    if k == 0 then []
    else
      var rest := Sends(s, allowed, ingress, k - 1);
      var o := Endpoint(ingress.bridge, k - 1);
      if o != ingress && Accepts(s, allowed, o) then rest + [o] else rest
  }

  // ----- Copies in flight -----

  /** The copies still in flight, the ones taken in by a bridge so far, and the ports they were sent from.
      A copy is the walk it has made so far. */
  datatype Flood = Flood(pending: seq<Walk>, processed: seq<Walk>, sent: seq<Endpoint>)

  /** Where a copy arrives: at the far end of its last link, or at the host port it entered by. */
  function Ingress(entry: Endpoint, w: Walk): Endpoint {
    match w case Origin(_) => entry case Hop(_, e) => e
  }

  function Copies(net: Net, w: Walk, out: seq<Endpoint>): (copies: seq<Walk>)
    ensures |copies| <= |out|
    ensures forall c :: c in copies <==> exists o :: o in out && o in net.peer && c == Hop(w, net.peer[o])
  {
    if out == [] then []
    else if out[0] in net.peer then [Hop(w, net.peer[out[0]])] + Copies(net, w, out[1..])
    else Copies(net, w, out[1..])
  }

  function FloodStep(net: Net, s: Fabric, allowed: set<Endpoint>, entry: Endpoint, f: Flood, k: nat): Flood
    requires Matches(net, s) && k < |f.pending| && IsEndpoint(net, Ingress(entry, f.pending[k]))
  {
    var w := f.pending[k];
    var rest := Without(f.pending, k);
    if !Accepts(s, allowed, Ingress(entry, w)) then f.(pending := rest)
    else
      var out := Sends(s, allowed, Ingress(entry, w), |s.bridges[Ingress(entry, w).bridge].ports|);
      Flood(rest + Copies(net, w, out), f.processed + [w], f.sent + out)
  }

  // ----- The walks a flood makes -----

  /** An onward walk on which the VLAN is allowed at both ends of every link. */
  ghost predicate Carried(net: Net, s: Fabric, allowed: set<Endpoint>, w: Walk)
    requires Matches(net, s)
  {
    Onward(net, s, w) && (w.Hop? ==> Carried(net, s, allowed, w.prior) && w.via in allowed && net.peer[w.via] in allowed)
  }

  predicate Distinct<T(==)>(s: seq<T>) {
    forall i, j :: 0 <= i < j < |s| ==> s[i] != s[j]
  }

  /** A copy in flight left a bridge that processed it, by a port other than the one it came in by. */
  ghost predicate Underway(net: Net, s: Fabric, allowed: set<Endpoint>, entry: Endpoint, f: Flood, w: Walk)
    requires Matches(net, s)
  {
    match w
    case Origin(b) => b == entry.bridge
    case Hop(p, e) =>
      && p in f.processed && e in net.peer && net.peer[e].bridge == Last(p)
      && IsEndpoint(net, e) && IsEndpoint(net, net.peer[e])
      && net.peer[e] != Ingress(entry, p) && Accepts(s, allowed, net.peer[e])
  }

  ghost predicate Taken(net: Net, s: Fabric, allowed: set<Endpoint>, entry: Endpoint, w: Walk)
    requires Matches(net, s)
  {
    Carried(net, s, allowed, w) && First(w) == entry.bridge
  }

  /** A port on which copy w is sent on to a bridge that takes it in. */
  predicate PassesOn(net: Net, s: Fabric, allowed: set<Endpoint>, entry: Endpoint, w: Walk, o: Endpoint)
    requires Matches(net, s)
  {
    && o in net.peer && IsEndpoint(net, o) && IsEndpoint(net, net.peer[o])
    && o.bridge == Last(w) && o != Ingress(entry, w)
    && Accepts(s, allowed, o) && Accepts(s, allowed, net.peer[o])
  }

  /** Every copy that will be taken in is in flight or has been taken in. */
  ghost predicate Closed(net: Net, s: Fabric, allowed: set<Endpoint>, entry: Endpoint, f: Flood)
    requires Matches(net, s)
  {
    && (Origin(entry.bridge) in f.pending || Origin(entry.bridge) in f.processed)
    && forall w, o | w in f.processed && PassesOn(net, s, allowed, entry, w, o) ::
         Hop(w, net.peer[o]) in f.pending || Hop(w, net.peer[o]) in f.processed
  }

  ghost predicate PendingOk(net: Net, s: Fabric, allowed: set<Endpoint>, entry: Endpoint, f: Flood)
    requires Matches(net, s)
  {
    Distinct(f.pending) && forall w :: w in f.pending ==> Underway(net, s, allowed, entry, f, w) && w !in f.processed
  }

  /** No bridge has taken in two copies. */
  ghost predicate ProcessedOk(net: Net, s: Fabric, allowed: set<Endpoint>, entry: Endpoint, f: Flood)
    requires Matches(net, s)
  {
    && (forall w :: w in f.processed ==> Taken(net, s, allowed, entry, w) && (w.Hop? ==> w.prior in f.processed))
    && (forall i, j :: 0 <= i < j < |f.processed| ==> Last(f.processed[i]) != Last(f.processed[j]))
  }

  ghost predicate SentOk(f: Flood) {
    Distinct(f.sent) && forall o :: o in f.sent ==> exists w :: w in f.processed && Last(w) == o.bridge
  }

  ghost predicate FloodInv(net: Net, s: Fabric, allowed: set<Endpoint>, entry: Endpoint, f: Flood)
    requires Matches(net, s)
  {
    && PendingOk(net, s, allowed, entry, f)
    && ProcessedOk(net, s, allowed, entry, f)
    && SentOk(f)
    && Closed(net, s, allowed, entry, f)
  }

  lemma DistinctWithout<T>(s: seq<T>, k: nat)
    requires Distinct(s) && k < |s|
    ensures Distinct(Without(s, k)) && s[k] !in Without(s, k)
    ensures forall x :: x in Without(s, k) <==> x in s && x != s[k]
  {
    forall x | x in s && x != s[k] ensures x in Without(s, k) {
      var j :| 0 <= j < |s| && s[j] == x;
      assert x == Without(s, k)[if j < k then j else j - 1];
    }
  }

  lemma DistinctConcat<T>(a: seq<T>, b: seq<T>)
    requires Distinct(a) && Distinct(b) && forall x :: x in a ==> x !in b
    ensures Distinct(a + b)
  {
    forall i, j | 0 <= i < j < |a + b| ensures (a + b)[i] != (a + b)[j] {
      if i < |a| <= j {
        assert a[i] in a && b[j - |a|] in b;
      }
    }
  }

  lemma {:induction false} CopiesDistinct(net: Net, w: Walk, out: seq<Endpoint>)
    requires WellFormed(net) && Distinct(out)
    ensures Distinct(Copies(net, w, out))
  {
    if out != [] {
      CopiesDistinct(net, w, out[1..]);
      if out[0] in net.peer {
        forall c | c in Copies(net, w, out[1..]) ensures c != Hop(w, net.peer[out[0]]) {
          var o :| o in out[1..] && o in net.peer && c == Hop(w, net.peer[o]);
          assert net.peer[net.peer[o]] == o;
        }
        DistinctConcat([Hop(w, net.peer[out[0]])], Copies(net, w, out[1..]));
      }
    }
  }

  /** A copy that is taken in has made an onward walk that no copy made before, to a bridge that has seen none. */
  lemma TakenIsNew(net: Net, s: Fabric, allowed: set<Endpoint>, entry: Endpoint, f: Flood, w: Walk)
    requires Ready(net, s) && IsEndpoint(net, entry) && entry !in net.peer
    requires FloodInv(net, s, allowed, entry, f) && w in f.pending && Accepts(s, allowed, Ingress(entry, w))
    ensures Taken(net, s, allowed, entry, w)
    ensures forall v :: v in f.processed ==> Last(v) != Last(w)
  {
    assert Underway(net, s, allowed, entry, f, w);
    if w.Hop? {
      assert Taken(net, s, allowed, entry, w.prior);
      assert net.peer[net.peer[w.via]] == w.via;
      assert Open(net, s, net.peer[w.via]);
    }
    forall v | v in f.processed ensures Last(v) != Last(w) {
      assert Taken(net, s, allowed, entry, v);
      if Last(v) == Last(w) {
        OneWay(net, s, v, w);
        assert false;
      }
    }
  }

  lemma CopiesAreNew(net: Net, s: Fabric, allowed: set<Endpoint>, entry: Endpoint, f: Flood, w: Walk, out: seq<Endpoint>)
    requires Matches(net, s) && FloodInv(net, s, allowed, entry, f) && w in f.pending
    ensures forall c :: c in Copies(net, w, out) ==> c !in f.processed && c !in f.pending && c != w
  {
    forall c | c in Copies(net, w, out) ensures c !in f.processed && c !in f.pending && c != w {
      assert c.prior == w;
    }
  }

  lemma DropKeepsInv(net: Net, s: Fabric, allowed: set<Endpoint>, entry: Endpoint, f: Flood, k: nat)
    requires Matches(net, s) && FloodInv(net, s, allowed, entry, f) && k < |f.pending|
    requires IsEndpoint(net, Ingress(entry, f.pending[k])) && !Accepts(s, allowed, Ingress(entry, f.pending[k]))
    requires IsEndpoint(net, entry) && Accepts(s, allowed, entry)
    ensures FloodInv(net, s, allowed, entry, FloodStep(net, s, allowed, entry, f, k))
  {
    DistinctWithout(f.pending, k);
  }

  lemma TakeKeepsPending(net: Net, s: Fabric, allowed: set<Endpoint>, entry: Endpoint, f: Flood, k: nat)
    requires Ready(net, s) && FloodInv(net, s, allowed, entry, f) && k < |f.pending|
    requires IsEndpoint(net, Ingress(entry, f.pending[k])) && Accepts(s, allowed, Ingress(entry, f.pending[k]))
    requires Ingress(entry, f.pending[k]).bridge == Last(f.pending[k])
    ensures PendingOk(net, s, allowed, entry, FloodStep(net, s, allowed, entry, f, k))
  {
    var w, g := f.pending[k], FloodStep(net, s, allowed, entry, f, k);
    var out := Sends(s, allowed, Ingress(entry, w), |s.bridges[Ingress(entry, w).bridge].ports|);
    DistinctWithout(f.pending, k);
    CopiesDistinct(net, w, out);
    CopiesAreNew(net, s, allowed, entry, f, w, out);
    DistinctConcat(Without(f.pending, k), Copies(net, w, out));
    forall c | c in g.pending ensures Underway(net, s, allowed, entry, g, c) && c !in g.processed {
      if c in Copies(net, w, out) {
        var o :| o in out && o in net.peer && c == Hop(w, net.peer[o]);
        assert net.peer[net.peer[o]] == o;
      }
    }
  }

  lemma TakeKeepsProcessed(net: Net, s: Fabric, allowed: set<Endpoint>, entry: Endpoint, f: Flood, k: nat)
    requires Ready(net, s) && IsEndpoint(net, entry) && entry !in net.peer
    requires FloodInv(net, s, allowed, entry, f) && k < |f.pending|
    requires IsEndpoint(net, Ingress(entry, f.pending[k])) && Accepts(s, allowed, Ingress(entry, f.pending[k]))
    requires Ingress(entry, f.pending[k]).bridge == Last(f.pending[k])
    ensures ProcessedOk(net, s, allowed, entry, FloodStep(net, s, allowed, entry, f, k))
    ensures SentOk(FloodStep(net, s, allowed, entry, f, k))
  {
    var w := f.pending[k];
    TakenIsNew(net, s, allowed, entry, f, w);
    assert Underway(net, s, allowed, entry, f, w);
    var out := Sends(s, allowed, Ingress(entry, w), |s.bridges[Ingress(entry, w).bridge].ports|);
    var g := FloodStep(net, s, allowed, entry, f, k);
    ProcessedAndNew(net, s, allowed, entry, f, w, g);
    SentFromNew(f, w, out, g);
  }

  lemma ProcessedAndNew(net: Net, s: Fabric, allowed: set<Endpoint>, entry: Endpoint, f: Flood, w: Walk, g: Flood)
    requires Matches(net, s) && ProcessedOk(net, s, allowed, entry, f) && g.processed == f.processed + [w]
    requires Taken(net, s, allowed, entry, w) && (w.Hop? ==> w.prior in f.processed)
    requires forall v :: v in f.processed ==> Last(v) != Last(w)
    ensures ProcessedOk(net, s, allowed, entry, g)
  {
  }

  /** A bridge that has sent nothing before sends on several ports. */
  lemma SentFromNew(f: Flood, w: Walk, out: seq<Endpoint>, g: Flood)
    requires SentOk(f) && Distinct(out) && g.processed == f.processed + [w] && g.sent == f.sent + out
    requires forall o :: o in out ==> o.bridge == Last(w)
    requires forall v :: v in f.processed ==> Last(v) != Last(w)
    ensures SentOk(g)
  {
    DistinctConcat(f.sent, out);
    assert w in g.processed;
    forall o | o in g.sent ensures exists v :: v in g.processed && Last(v) == o.bridge {
      if o in f.sent {
        var v :| v in f.processed && Last(v) == o.bridge;
        assert v in g.processed;
      } else {
        assert Last(w) == o.bridge;
      }
    }
  }

  lemma TakeKeepsClosed(net: Net, s: Fabric, allowed: set<Endpoint>, entry: Endpoint, f: Flood, k: nat)
    requires Ready(net, s) && FloodInv(net, s, allowed, entry, f) && k < |f.pending|
    requires IsEndpoint(net, Ingress(entry, f.pending[k])) && Accepts(s, allowed, Ingress(entry, f.pending[k]))
    requires Ingress(entry, f.pending[k]).bridge == Last(f.pending[k])
    ensures Closed(net, s, allowed, entry, FloodStep(net, s, allowed, entry, f, k))
  {
    var w, g := f.pending[k], FloodStep(net, s, allowed, entry, f, k);
    var out := Sends(s, allowed, Ingress(entry, w), |s.bridges[Ingress(entry, w).bridge].ports|);
    DistinctWithout(f.pending, k);
    forall v, o | v in g.processed && PassesOn(net, s, allowed, entry, v, o)
      ensures Hop(v, net.peer[o]) in g.pending || Hop(v, net.peer[o]) in g.processed
    {
      if v == w {
        assert o in out;
        assert Hop(w, net.peer[o]) in Copies(net, w, out);
      }
    }
  }

  lemma FloodStepKeepsInv(net: Net, s: Fabric, allowed: set<Endpoint>, entry: Endpoint, f: Flood, k: nat)
    requires Ready(net, s) && IsEndpoint(net, entry) && entry !in net.peer && Accepts(s, allowed, entry)
    requires FloodInv(net, s, allowed, entry, f) && k < |f.pending|
    ensures IsEndpoint(net, Ingress(entry, f.pending[k]))
    ensures FloodInv(net, s, allowed, entry, FloodStep(net, s, allowed, entry, f, k))
  {
    assert Underway(net, s, allowed, entry, f, f.pending[k]);
    if Accepts(s, allowed, Ingress(entry, f.pending[k])) {
      TakeKeepsPending(net, s, allowed, entry, f, k);
      TakeKeepsProcessed(net, s, allowed, entry, f, k);
      TakeKeepsClosed(net, s, allowed, entry, f, k);
    } else {
      DropKeepsInv(net, s, allowed, entry, f, k);
    }
  }

  // ----- The whole flood -----

  /** When nothing is in flight, every walk on which the VLAN is allowed has been made. */
  lemma {:induction false} FloodMakesEveryWalk(net: Net, s: Fabric, allowed: set<Endpoint>, entry: Endpoint, f: Flood, w: Walk)
    requires Ready(net, s) && IsEndpoint(net, entry) && entry !in net.peer
    requires FloodInv(net, s, allowed, entry, f) && f.pending == []
    requires Carried(net, s, allowed, w) && First(w) == entry.bridge
    ensures w in f.processed
  {
    if w.Hop? {
      FloodMakesEveryWalk(net, s, allowed, entry, f, w.prior);
      assert net.peer[net.peer[w.via]] == w.via;
      assert PassesOn(net, s, allowed, entry, w.prior, net.peer[w.via]);
    }
  }

  function Visited(ws: seq<Walk>): (bs: seq<nat>)
    ensures |bs| == |ws| && forall i :: 0 <= i < |ws| ==> bs[i] == Last(ws[i])
  {
    seq(|ws|, i requires 0 <= i < |ws| => Last(ws[i]))
  }

  function Elements(bs: seq<nat>): set<nat> {
    set b | b in bs
  }

  lemma {:induction false} DistinctCount(bs: seq<nat>)
    requires Distinct(bs)
    ensures |Elements(bs)| == |bs|
  {
    if bs != [] {
      DistinctCount(bs[1..]);
      assert bs[0] !in bs[1..];
      assert Elements(bs) == {bs[0]} + Elements(bs[1..]);
    }
  }

  lemma DistinctIsFew(bs: seq<nat>, n: nat)
    requires Distinct(bs) && forall b :: b in bs ==> b < n
    ensures |bs| <= n
  {
    DistinctCount(bs);
    BoundedSet(Elements(bs), n);
  }

  lemma ProcessedFew(net: Net, s: Fabric, allowed: set<Endpoint>, entry: Endpoint, f: Flood)
    requires Matches(net, s) && ProcessedOk(net, s, allowed, entry, f)
    ensures |f.processed| <= |net.bridges|
  {
    forall b | b in Visited(f.processed) ensures b < |net.bridges| {
      var i :| 0 <= i < |f.processed| && b == Visited(f.processed)[i];
      assert f.processed[i] in f.processed;
    }
    DistinctIsFew(Visited(f.processed), |net.bridges|);
  }

  /** The VLAN is allowed on every link that the spanning tree leaves open in the component of bridge a. */
  ghost predicate AllowedOnTree(net: Net, s: Fabric, allowed: set<Endpoint>, a: nat)
    requires Matches(net, s)
  {
    forall f :: f in net.peer && Open(net, s, f) && Reaches(net, a, f.bridge) ==> f in allowed
  }

  lemma {:induction false} OnwardIsCarried(net: Net, s: Fabric, allowed: set<Endpoint>, w: Walk)
    requires Ready(net, s) && AllowedOnTree(net, s, allowed, First(w)) && Onward(net, s, w)
    ensures Carried(net, s, allowed, w)
  {
    if w.Hop? {
      OnwardIsCarried(net, s, allowed, w.prior);
      assert net.peer[net.peer[w.via]] == w.via;
      assert Open(net, s, w.via);
      assert Reaches(net, First(w), w.via.bridge) && Reaches(net, First(w), net.peer[w.via].bridge);
    }
  }

  /** A frame that enters at a host port and is flooded, its copies handled in any order, comes to rest; no bridge
      takes it in twice, no port sends it twice, and it visits exactly the bridges its VLAN is carried to: all
      connected ones when the VLAN is allowed on their tree. */
  method FloodAll(net: Net, s: Fabric, allowed: set<Endpoint>, entry: Endpoint)
    returns (visited: seq<nat>, sent: seq<Endpoint>)
    requires Ready(net, s) && IsEndpoint(net, entry) && entry !in net.peer && Accepts(s, allowed, entry)
    ensures Distinct(visited) && |visited| <= |net.bridges|
    ensures Distinct(sent) && forall o :: o in sent ==> o.bridge in visited
    ensures forall b :: b in visited <==> exists w :: Carried(net, s, allowed, w) && First(w) == entry.bridge && Last(w) == b
    ensures AllowedOnTree(net, s, allowed, entry.bridge) ==> forall b: nat :: b in visited <==> b < |net.bridges| && Reaches(net, entry.bridge, b)
  {
    var f := Flood([Origin(entry.bridge)], [], []);
    while f.pending != []
      invariant FloodInv(net, s, allowed, entry, f)
      invariant |f.processed| <= |net.bridges|
      decreases |net.bridges| - |f.processed|, |f.pending|
    {
      var k :| 0 <= k < |f.pending|;
      FloodStepKeepsInv(net, s, allowed, entry, f, k);
      f := FloodStep(net, s, allowed, entry, f, k);
      ProcessedFew(net, s, allowed, entry, f);
    }
    visited, sent := Visited(f.processed), f.sent;
    VisitedExactly(net, s, allowed, entry, f);
  }

  lemma VisitedExactly(net: Net, s: Fabric, allowed: set<Endpoint>, entry: Endpoint, f: Flood)
    requires Ready(net, s) && IsEndpoint(net, entry) && entry !in net.peer
    requires FloodInv(net, s, allowed, entry, f) && f.pending == []
    ensures var visited := Visited(f.processed);
            && Distinct(visited)
            && (forall o :: o in f.sent ==> o.bridge in visited)
            && (forall b :: b in visited <==> exists w :: Carried(net, s, allowed, w) && First(w) == entry.bridge && Last(w) == b)
            && (AllowedOnTree(net, s, allowed, entry.bridge) ==> forall b: nat :: b in visited <==> b < |net.bridges| && Reaches(net, entry.bridge, b))
  {
    var visited := Visited(f.processed);
    forall w | w in f.processed ensures Last(w) in visited {
      var i :| 0 <= i < |f.processed| && f.processed[i] == w;
      assert visited[i] == Last(w);
    }
    forall b | b in visited ensures exists w :: Carried(net, s, allowed, w) && First(w) == entry.bridge && Last(w) == b {
      var i :| 0 <= i < |visited| && visited[i] == b;
      assert f.processed[i] in f.processed;
    }
    forall w | Carried(net, s, allowed, w) && First(w) == entry.bridge ensures Last(w) in visited {
      FloodMakesEveryWalk(net, s, allowed, entry, f, w);
    }
    if AllowedOnTree(net, s, allowed, entry.bridge) {
      forall b: nat | b < |net.bridges| && Reaches(net, entry.bridge, b) ensures b in visited {
        var w := TreeSpans(net, s, entry.bridge, b);
        OnwardIsCarried(net, s, allowed, w);
      }
    }
  }
}
