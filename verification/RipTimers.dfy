/** How long a RIP route lasts: what restarts its timeout, and that a route repeated in time is never lost. */
module RipTimers {
  import opened Bytes
  import opened Wrappers
  import opened RoutingTables
  import opened Rip
  import opened RipDaemon

  // ----- One record -----

  /** An entry from the router in use, and a better one from any router, counts as heard at that time. A route lost by it is
      remembered from then on, or from when it was lost before. */
  lemma EntryIsHeard(t: Tables, e: RipEntry, src: uint32, oif: nat, now: int, k: Prefix)
    requires e.family == 2 && k == PrefixOf(e)
    requires || (k in t.rip && t.rip[k].nextHop == src)
             || (LearnedMetric(e.metric) < 16 && (k in t.rip ==> LearnedMetric(e.metric) < t.rip[k].metric))
    ensures var t' := ProcessEntry(t, e, src, oif, now);
            && k in t'.rip && t'.rip[k].nextHop == src && t'.rip[k].lastUpdate == now
            && if LearnedMetric(e.metric) < 16 then !t'.rip[k].expired && t'.rip[k].expiredAt == None
               else t'.rip[k].expired && t'.rip[k].expiredAt == if t.rip[k].expired then t.rip[k].expiredAt else Some(now)
  {
  }

  /** A check gives up a route exactly when it has not been heard of for more than 180 seconds, and forgets it exactly when it
      was given up more than 120 seconds ago. */
  lemma CheckIs(rip: map<Prefix, RipRoute>, now: int, k: Prefix)
    requires k in rip
    ensures var r, after := rip[k], Checked(rip, now);
            if r.expired then
              && (k in after <==> !(r.expiredAt.Some? && now - r.expiredAt.value > 120))
              && (k in after ==> after[k] == r)
            else
              && k in after
              && after[k] == if now - r.lastUpdate > 180 then r.(expired := true, metric := 16, expiredAt := Some(now)) else r
  {
  }

  // ----- Whole runs -----

  /** The route is learned, in use in both stores, and was last heard of at that time. */
  predicate InUse(r: Router, k: Prefix, heard: int) {
    k in r.tables.rip && !r.tables.rip[k].expired && r.tables.rip[k].lastUpdate == heard && HasRip(r.tables.fib, k)
  }

  /** The step applies an entry for the prefix, from the router in use or with fewer hops. */
  ghost predicate Speaks(r: Router, a: Action, k: Prefix)
    requires Enabled(r, a)
  {
    a.Entry? &&
    var p := r.packets[r.holder.value];
    && p.entries[0].family == 2 && PrefixOf(p.entries[0]) == k && k in r.tables.rip
    && (p.src == r.tables.rip[k].nextHop || LearnedMetric(p.entries[0].metric) < r.tables.rip[k].metric)
  }

  /** When the prefix was last spoken of after the step. */
  ghost function HeardAfter(r: Router, a: Action, k: Prefix, heard: int): int
    requires Enabled(r, a)
  {
    if Speaks(r, a, k) then a.now else heard
  }

  /** The route is repeated in time: whoever speaks of it says that it can be reached, and every check comes at most 180 seconds
      after that was last said. The router is not stopped. */
  ghost predicate Repeated(r: Router, acts: seq<Action>, r': Router, k: Prefix, heard: int)
    requires IsRun(r, acts, r')
    decreases |acts|
  {
    acts != [] ==>
      && !acts[0].StopBegin?
      && (Speaks(r, acts[0], k) ==> LearnedMetric(r.packets[r.holder.value].entries[0].metric) < 16)
      && (acts[0].Expire? ==> acts[0].now - heard <= 180)
      && Repeated(Next(r, acts[0]), acts[1..], r', k, HeardAfter(r, acts[0], k, heard))
  }

  lemma InUseIs(t: Tables, k: Prefix)
    requires Agree(t)
    ensures HasRip(t.fib, k) <==> k in t.rip && !t.rip[k].expired
  {
  }

  /** A check takes the route away exactly when it was last heard of more than 180 seconds ago. */
  lemma CheckTakesExactly(r: Router, a: Action, k: Prefix, heard: int)
    requires Orderly(r) && r.phase == Running && Enabled(r, a) && a.Expire? && InUse(r, k, heard)
    ensures var n := Next(r, a);
            && (a.now - heard <= 180 ==> InUse(n, k, heard))
            && (a.now - heard > 180 ==> !HasRip(n.tables.fib, k) && k in n.tables.rip && n.tables.rip[k].expired)
  {
    StepKeepsOrderly(r, a);
    CheckIs(r.tables.rip, a.now, k);
    InUseIs(Next(r, a).tables, k);
  }

  lemma EntryKeepsInUse(r: Router, a: Action, k: Prefix, heard: int)
    requires Orderly(r) && r.phase == Running && Enabled(r, a) && a.Entry? && InUse(r, k, heard)
    requires Speaks(r, a, k) ==> LearnedMetric(r.packets[r.holder.value].entries[0].metric) < 16
    ensures InUse(Next(r, a), k, HeardAfter(r, a, k, heard))
  {
    var p := r.packets[r.holder.value];
    var e := p.entries[0];
    StepKeepsOrderly(r, a);
    EntryAt(r.tables, e, p.src, p.oif, a.now, k);
    InUseIs(Next(r, a).tables, k);
    if Speaks(r, a, k) {
      EntryIsHeard(r.tables, e, p.src, p.oif, a.now, k);
    }
  }

  lemma StepKeepsInUse(r: Router, a: Action, k: Prefix, heard: int)
    requires Orderly(r) && r.phase == Running && Enabled(r, a) && InUse(r, k, heard) && !a.StopBegin?
    requires Speaks(r, a, k) ==> LearnedMetric(r.packets[r.holder.value].entries[0].metric) < 16
    requires a.Expire? ==> a.now - heard <= 180
    ensures var n := Next(r, a); Orderly(n) && n.phase == Running && InUse(n, k, HeardAfter(r, a, k, heard))
  {
    StepKeepsOrderly(r, a);
    if a.Entry? {
      EntryKeepsInUse(r, a, k, heard);
    } else if a.Expire? {
      CheckTakesExactly(r, a, k, heard);
    }
  }

  /** The route is in use in both stores in every state of the run. */
  ghost predicate InUseThroughout(r: Router, acts: seq<Action>, r': Router, k: Prefix)
    requires IsRun(r, acts, r')
    decreases |acts|
  {
    && k in r.tables.rip && !r.tables.rip[k].expired
    && Get(r.tables.fib, k.net, k.mask, 120) == Some(FibRoute(k, r.tables.rip[k]))
    && (acts != [] ==> InUseThroughout(Next(r, acts[0]), acts[1..], r', k))
  }

  /** A route that is repeated in time stays in use in both stores, through every check and whatever other packets say and other
      routers offer meanwhile. */
  lemma {:induction false} RepeatedStaysInUse(r: Router, acts: seq<Action>, r': Router, k: Prefix, heard: int)
    requires Orderly(r) && r.phase == Running && IsRun(r, acts, r')
    requires InUse(r, k, heard) && Repeated(r, acts, r', k, heard)
    ensures InUseThroughout(r, acts, r', k)
    decreases |acts|
  {
    if acts != [] {
      StepKeepsInUse(r, acts[0], k, heard);
      RepeatedStaysInUse(Next(r, acts[0]), acts[1..], r', k, HeardAfter(r, acts[0], k, heard));
    }
  }

  // ----- Checks and stops can be made -----

  /** A forwarding table without the routes of these prefixes can be come by. */
  lemma {:induction false} RemovedExists(fib: seq<Route>, gone: set<Prefix>) returns (fib': seq<Route>)
    requires Valid(fib) && forall k :: k in gone ==> k.mask <= 32 && Network(k.net, k.mask) == k.net
    ensures RipRoutesRemoved(fib, fib', gone)
    decreases |gone|
  {
    if gone == {} {
      fib' := fib;
    } else {
      var k :| k in gone;
      var rest := RemovedExists(fib, gone - {k});
      RemoveOneMore(fib, rest, gone - {k}, k);
      fib' := Removed(rest, k.net, k.mask, SOURCE_RIP);
      assert gone - {k} + {k} == gone;
    }
  }

  /** A router that runs, or whose daemon is being stopped, can check its routes at any time that nobody holds the lock. */
  lemma CheckIsPossible(r: Router, now: int) returns (fib: seq<Route>)
    requires Sane(r) && r.holder == None && (r.phase == Running || r.phase == Stopping)
    ensures Enabled(r, Expire(fib, now))
  {
    fib := RemovedExists(r.tables.fib, TimingOut(r.tables.rip, now));
  }

  /** A router can be stopped and started again: it is left without RIP routes and runs. */
  lemma StopAndRestart(r: Router, r': Router)
    requires r.holder == None && r.phase == Running
    ensures IsRun(r, [StopBegin, StopFlush, StopClear, Restart], r') <==>
            r' == Router(Tables(map[], WithoutSource(r.tables.fib, 120)), Running, r.packets, None)
  {
    var acts := [StopBegin, StopFlush, StopClear, Restart];
    assert acts[1..] == [StopFlush, StopClear, Restart] && acts[1..][1..] == [StopClear, Restart];
    assert acts[1..][1..][1..] == [Restart] && acts[1..][1..][1..][1..] == [];
    var a := Next(r, StopBegin);
    var b := Next(a, StopFlush);
    var c := Next(b, StopClear);
    assert IsRun(c, [Restart], r') <==> r' == Next(c, Restart);
    assert IsRun(b, [StopClear, Restart], r') <==> IsRun(c, [Restart], r');
    assert IsRun(a, [StopFlush, StopClear, Restart], r') <==> IsRun(b, [StopClear, Restart], r');
  }
}
