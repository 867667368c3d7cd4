/** Over a whole run, what bridges know about the spanning tree only gets better. */
module StpMonotone {
  import opened StpVector
  import opened StpNetwork
  import opened StpSafety
  import opened StpConvergence

  lemma {:induction false} ImprovementIsTransitive(s: Fabric, t: Fabric, u: Fabric)
    requires AllRecordsImprove(s, t) && AllRecordsImprove(t, u)
    ensures AllRecordsImprove(s, u)
  {
    forall b | 0 <= b < |s.bridges| ensures RecordsImprove(s.bridges[b], u.bridges[b]) {
      var x, y, z := s.bridges[b], t.bridges[b], u.bridges[b];
      assert RecordsImprove(x, y) && RecordsImprove(y, z);
      forall i | 0 <= i < |x.ports| && x.ports[i].received.Some?
        ensures z.ports[i].received.Some? && NotWorse(z.ports[i].received.value.vector, x.ports[i].received.value.vector)
      {
        var p, q, r := x.ports[i].received.value.vector, y.ports[i].received.value.vector, z.ports[i].received.value.vector;
        SuperiorIsTransitive(r, q, p);
      }
    }
  }

  lemma {:induction false} SuperiorIsTransitive(a: Vector, b: Vector, c: Vector)
    ensures a.Superior(b) && b.Superior(c) ==> a.Superior(c)
  {
  }

  lemma {:induction false} ExecImprovesRecords(net: Net, s: Fabric, acts: seq<Action>)
    requires WellFormed(net) && Sound(net, s)
    ensures AllRecordsImprove(s, Exec(net, s, acts))
    decreases |acts|
  {
    if acts != [] {
      StepKeepsSound(net, s, acts[0]);
      StepImprovesRecords(net, s, acts[0]);
      var t := Step(net, s, acts[0]);
      ExecImprovesRecords(net, t, acts[1..]);
      ImprovementIsTransitive(s, t, Exec(net, t, acts[1..]));
    }
  }

  /** In every interleaving from a fresh start, from any point on: no bridge's root and cost get worse, and no port gives
      up a recorded vector except for a superior one. */
  lemma {:induction false} RunsOnlyImprove(net: Net, before: seq<Action>, after: seq<Action>)
    requires WellFormed(net)
    ensures var s := Exec(net, Start(net), before);
            && Sound(net, s) && Sound(net, Exec(net, s, after))
            && Progress(net, s, Exec(net, s, after)) && AllRecordsImprove(s, Exec(net, s, after))
  {
    EveryRunIsTraced(net, before);
    var s := Exec(net, Start(net), before);
    ExecKeepsSound(net, s, after);
    ExecImprovesRecords(net, s, after);
  }
}
