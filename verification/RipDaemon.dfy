/** One RIP router as threads see it: packets, timers and a stop, one locked section at a time. */
module RipDaemon {
  import opened Bytes
  import opened Wrappers
  import opened RoutingTables
  import opened Rip

  /** The entries of a response that a thread has still to apply. */
  datatype Packet = Packet(entries: seq<RipEntry>, src: uint32, oif: nat)

  /** A stop disables the router, flushes the forwarding table, then forgets the learned routes. */
  datatype Phase = Running | Stopping | Flushed | Stopped

  /** The stores, the threads past the enabled check with their packets, and the one of them that holds the lock. */
  datatype Router = Router(tables: Tables, phase: Phase, packets: map<nat, Packet>, holder: Option<nat>)

  /** Flushing needs no lock but the forwarding table's, so it can fall between two entries of a packet. A router that has
      stopped, or has never run, can be started. */
  datatype Action =
    | Check(thread: nat, packet: Packet)
    | Begin(thread: nat)
    | Entry(now: int)
    | Finish
    | Expire(fib: seq<Route>, now: int)
    | StopBegin
    | StopFlush
    | StopClear
    | Restart

  ghost predicate Enabled(r: Router, a: Action) {
    match a
    case Check(t, _) => r.holder == None && t !in r.packets
    case Begin(t) => r.holder == None && t in r.packets
    case Entry(_) => r.holder.Some? && r.holder.value in r.packets && r.packets[r.holder.value].entries != []
    case Finish => r.holder.Some? && r.holder.value in r.packets && r.packets[r.holder.value].entries == []
    case Expire(fib, now) =>
      r.holder == None && (r.phase == Running || r.phase == Stopping)
      && RipRoutesRemoved(r.tables.fib, fib, TimingOut(r.tables.rip, now))
    case StopBegin => r.holder == None && r.phase == Running
    case StopFlush => r.phase == Stopping
    case StopClear => r.holder == None && r.phase == Flushed
    case Restart => r.holder == None && r.phase == Stopped
  }

  ghost function Next(r: Router, a: Action): Router
    requires Enabled(r, a)
  {
    match a
    case Check(t, p) => if r.phase == Running then r.(packets := r.packets[t := p]) else r
    case Begin(t) => r.(holder := Some(t))
    case Entry(now) =>
      var t, p := r.holder.value, r.packets[r.holder.value];
      r.(tables := ProcessEntry(r.tables, p.entries[0], p.src, p.oif, now), packets := r.packets[t := p.(entries := p.entries[1..])])
    case Finish => r.(packets := r.packets - {r.holder.value}, holder := None)
    case Expire(fib, now) => r.(tables := Tables(Checked(r.tables.rip, now), fib))
    case StopBegin => r.(phase := Stopping)
    case StopFlush => r.(tables := Tables(r.tables.rip, WithoutSource(r.tables.fib, SOURCE_RIP)), phase := Flushed)
    case StopClear => r.(tables := Tables(map[], r.tables.fib), phase := Stopped)
    case Restart => r.(phase := Running)
  }

  ghost predicate IsRun(r: Router, acts: seq<Action>, r': Router)
    decreases |acts|
  {
    if acts == [] then r' == r else Enabled(r, acts[0]) && IsRun(Next(r, acts[0]), acts[1..], r')
  }

  lemma {:induction false} RunsJoin(a: Router, first: seq<Action>, b: Router, rest: seq<Action>, c: Router)
    requires IsRun(a, first, b) && IsRun(b, rest, c)
    ensures IsRun(a, first + rest, c)
    decreases |first|
  {
    if first == [] {
      assert first + rest == rest;
    } else {
      RunsJoin(Next(a, first[0]), first[1..], b, rest, c);
      assert (first + rest)[1..] == first[1..] + rest && (first + rest)[0] == first[0];
    }
  }

  // ----- Traces of RIP in the stores -----

  predicate HasRip(fib: seq<Route>, k: Prefix) {
    Get(fib, k.net, k.mask, SOURCE_RIP).Some?
  }

  ghost predicate NoRip(fib: seq<Route>) {
    forall k: Prefix :: !HasRip(fib, k)
  }

  lemma {:induction false} NoRipIs(fib: seq<Route>)
    requires Valid(fib)
    ensures NoRip(fib) <==> forall r :: r in fib ==> r.source != SOURCE_RIP
  {
    if NoRip(fib) {
      forall r | r in fib ensures r.source != SOURCE_RIP {
        var i :| 0 <= i < |fib| && fib[i] == r;
        GetIs(fib, i);
        assert !HasRip(fib, Prefix(r.dest, r.mask));
      }
    }
  }

  /** What a stop is to leave. */
  ghost predicate NoTrace(t: Tables) {
    t.rip == map[] && NoRip(t.fib)
  }

  ghost predicate Stored(t: Tables) {
    Valid(t.fib) && forall k :: k in t.rip ==> RipRouteOk(k, t.rip[k])
  }

  /** Every RIP route of the forwarding table is a learned route; some learned routes may be missing from it. */
  ghost predicate Within(t: Tables) {
    && Stored(t)
    && forall k: Prefix :: HasRip(t.fib, k) ==>
         k in t.rip && !t.rip[k].expired && Get(t.fib, k.net, k.mask, SOURCE_RIP) == Some(FibRoute(k, t.rip[k]))
  }

  // ----- One entry -----

  predicate IsFor(e: RipEntry, k: Prefix) {
    e.family == AF_IP && PrefixOf(e) == k
  }

  predicate Reachable(e: RipEntry) {
    e.family == AF_IP && LearnedMetric(e.metric) < MAX_METRIC
  }

  predicate Owned(rip: map<Prefix, RipRoute>, src: uint32, k: Prefix) {
    k in rip && rip[k].nextHop == src
  }

  predicate Improves(rip: map<Prefix, RipRoute>, e: RipEntry, k: Prefix) {
    IsFor(e, k) && Reachable(e) && (k in rip ==> LearnedMetric(e.metric) < rip[k].metric)
  }

  /** The entry changes its own prefix only, and that one only if it improves on it or comes from the router in use. */
  lemma {:induction false} EntryAt(t: Tables, e: RipEntry, src: uint32, oif: nat, now: int, k: Prefix)
    requires Stored(t)
    ensures var t' := ProcessEntry(t, e, src, oif, now);
            && Stored(t')
            && (!IsFor(e, k) ==>
                  && (k in t'.rip <==> k in t.rip) && (k in t.rip ==> t'.rip[k] == t.rip[k])
                  && Get(t'.fib, k.net, k.mask, SOURCE_RIP) == Get(t.fib, k.net, k.mask, SOURCE_RIP))
            && (IsFor(e, k) && !Improves(t.rip, e, k) && !Owned(t.rip, src, k) ==> t' == t)
            && (IsFor(e, k) && (Improves(t.rip, e, k) || Owned(t.rip, src, k)) ==>
                  && Owned(t'.rip, src, k) && t'.rip[k].metric == LearnedMetric(e.metric) && t'.rip[k].oif == oif
                  && t'.rip[k].expired == !Reachable(e)
                  && Get(t'.fib, k.net, k.mask, SOURCE_RIP) == if Reachable(e) then Some(FibRoute(k, t'.rip[k])) else None)
  {
    var t', p := ProcessEntry(t, e, src, oif, now), PrefixOf(e);
    EntryPrefixIsMasked(e);
    if t' != t {
      var r := t'.rip[p];
      if r.expired {
        RemovedIsValid(t.fib, p.net, p.mask, SOURCE_RIP);
        RemovedGet(t.fib, p.net, p.mask, SOURCE_RIP, k.net, k.mask, SOURCE_RIP);
      } else {
        AddedIsValid(t.fib, FibRoute(p, r));
        AddedGet(t.fib, FibRoute(p, r), k.net, k.mask, SOURCE_RIP);
      }
    }
  }

  /** A table without RIP routes gets one exactly from an entry that is reachable and improves or comes from the router in use. */
  lemma {:induction false} EntryInstallsExactly(t: Tables, e: RipEntry, src: uint32, oif: nat, now: int)
    requires Stored(t) && NoRip(t.fib)
    ensures var k := PrefixOf(e);
            NoRip(ProcessEntry(t, e, src, oif, now).fib) <==>
            !(Reachable(e) && (k !in t.rip || LearnedMetric(e.metric) < t.rip[k].metric || t.rip[k].nextHop == src))
  {
    var t' := ProcessEntry(t, e, src, oif, now);
    forall k ensures HasRip(t'.fib, k) <==> IsFor(e, k) && Reachable(e) && (Improves(t.rip, e, k) || Owned(t.rip, src, k)) {
      EntryAt(t, e, src, oif, now, k);
      assert !HasRip(t.fib, k);
    }
    assert NoRip(t'.fib) ==> !HasRip(t'.fib, PrefixOf(e));
  }

  // ----- What every interleaving keeps -----

  ghost predicate Sane(r: Router) {
    Stored(r.tables) && (r.holder.Some? ==> r.holder.value in r.packets)
  }

  ghost predicate SameOthers(fib: seq<Route>, fib': seq<Route>) {
    forall d: uint32, m: byte, s: byte :: s != SOURCE_RIP ==> Get(fib', d, m, s) == Get(fib, d, m, s)
  }

  lemma {:induction false} StepKeepsSane(r: Router, a: Action)
    requires Sane(r) && Enabled(r, a)
    ensures Sane(Next(r, a)) && SameOthers(r.tables.fib, Next(r, a).tables.fib)
  {
    match a
    case Entry(now) =>
      var p := r.packets[r.holder.value];
      var e := p.entries[0];
      EntryAt(r.tables, e, p.src, p.oif, now, PrefixOf(e));
      forall d: uint32, m: byte, s: byte | s != SOURCE_RIP {
        EntryKeepsOthers(r.tables, e, p.src, p.oif, now, d, m, s);
      }
    case StopFlush =>
      FlushIsWithin(r.tables);
      forall d: uint32, m: byte, s: byte | s != SOURCE_RIP {
        WithoutSourceGet(r.tables.fib, SOURCE_RIP, d, m, s);
      }
    case _ =>
  }

  /** In every interleaving, races and restarts included, the forwarding table has one masked route per key, routes of other
      sources stay as they were, and each learned route is well formed. */
  lemma {:induction false} EveryRunIsSane(r: Router, acts: seq<Action>, r': Router)
    requires Sane(r) && IsRun(r, acts, r')
    ensures Sane(r') && SameOthers(r.tables.fib, r'.tables.fib)
    decreases |acts|
  {
    if acts != [] {
      StepKeepsSane(r, acts[0]);
      EveryRunIsSane(Next(r, acts[0]), acts[1..], r');
    }
  }

  // ----- Agreement between the sections -----

  /** The forwarding table has exactly the learned routes, or, between flush and clear, some of them. */
  ghost predicate Orderly(r: Router) {
    && (if r.phase == Flushed then Within(r.tables) else Agree(r.tables))
    && (r.holder.Some? ==> r.holder.value in r.packets)
  }

  lemma {:induction false} EntryKeepsWithin(t: Tables, e: RipEntry, src: uint32, oif: nat, now: int)
    requires Within(t)
    ensures Within(ProcessEntry(t, e, src, oif, now))
  {
    var t' := ProcessEntry(t, e, src, oif, now);
    EntryAt(t, e, src, oif, now, PrefixOf(e));
    forall k: Prefix | HasRip(t'.fib, k)
      ensures k in t'.rip && !t'.rip[k].expired && Get(t'.fib, k.net, k.mask, SOURCE_RIP) == Some(FibRoute(k, t'.rip[k]))
    {
      EntryAt(t, e, src, oif, now, k);
      assert HasRip(t.fib, k) || t' != t;
    }
  }

  lemma {:induction false} FlushIsWithin(t: Tables)
    requires Stored(t)
    ensures var fib := WithoutSource(t.fib, SOURCE_RIP); Within(Tables(t.rip, fib)) && NoRip(fib)
  {
    WithoutSourceIs(t.fib, SOURCE_RIP);
    forall k: Prefix ensures !HasRip(WithoutSource(t.fib, SOURCE_RIP), k) {
      WithoutSourceGet(t.fib, SOURCE_RIP, k.net, k.mask, SOURCE_RIP);
    }
  }

  /** Forgetting the learned routes keeps the stores in agreement exactly if no RIP route is left in the forwarding table. */
  lemma {:induction false} ClearAgreesExactly(t: Tables)
    requires Within(t)
    ensures Agree(Tables(map[], t.fib)) <==> NoRip(t.fib)
  {
    var cleared := Tables(map[], t.fib);
    if NoRip(t.fib) {
      forall k: Prefix ensures Get(cleared.fib, k.net, k.mask, SOURCE_RIP) == None {
        assert !HasRip(t.fib, k);
      }
    }
    if Agree(cleared) {
      forall k: Prefix ensures !HasRip(t.fib, k) {
        assert Get(cleared.fib, k.net, k.mask, SOURCE_RIP) == None;
      }
    }
  }

  /** Every section keeps the stores in order, but for a clear that finds a RIP route. */
  lemma {:induction false} StepKeepsOrderly(r: Router, a: Action)
    requires Orderly(r) && Enabled(r, a) && (a == StopClear ==> NoRip(r.tables.fib))
    ensures Orderly(Next(r, a))
  {
    match a
    case Entry(now) =>
      var p := r.packets[r.holder.value];
      if r.phase == Flushed {
        EntryKeepsWithin(r.tables, p.entries[0], p.src, p.oif, now);
      } else {
        EntryKeepsAgree(r.tables, p.entries[0], p.src, p.oif, now);
      }
    case Expire(fib, now) => CheckKeepsAgree(r.tables, fib, now);
    case StopFlush => FlushIsWithin(r.tables);
    case StopClear => ClearAgreesExactly(r.tables);
    case _ =>
  }

  /** No clear of the run finds a RIP route in the forwarding table. */
  ghost predicate CleanStops(r: Router, acts: seq<Action>, r': Router)
    requires IsRun(r, acts, r')
    decreases |acts|
  {
    acts != [] ==> (acts[0] == StopClear ==> NoRip(r.tables.fib)) && CleanStops(Next(r, acts[0]), acts[1..], r')
  }

  /** In every interleaving whose stops are clean the two stores agree, except between flush and clear, where the forwarding
      table holds learned routes only. */
  lemma {:induction false} EveryCleanRun(r: Router, acts: seq<Action>, r': Router)
    requires Orderly(r) && IsRun(r, acts, r') && CleanStops(r, acts, r')
    ensures Orderly(r')
    decreases |acts|
  {
    if acts != [] {
      StepKeepsOrderly(r, acts[0]);
      EveryCleanRun(Next(r, acts[0]), acts[1..], r');
    }
  }

  // ----- What the rest of a packet leaves -----

  /** What the last entry for the prefix says: whether it is reachable; none if there is no such entry. */
  function Verdict(es: seq<RipEntry>, k: Prefix): Option<bool> {
    if es == [] then None
    else
      var v := Verdict(es[1..], k);
      if v.Some? then v else if IsFor(es[0], k) then Some(Reachable(es[0])) else None
  }

  /** Some entry improves on what is known of the prefix. */
  predicate TakesOver(rip: map<Prefix, RipRoute>, es: seq<RipEntry>, k: Prefix) {
    es != [] && (Improves(rip, es[0], k) || TakesOver(rip, es[1..], k))
  }

  /** The packet puts a route for the prefix into the forwarding table and leaves it there: its last entry for the prefix is
      reachable, and its sender is the router in use or comes into use by some entry. */
  predicate Leaves(rip: map<Prefix, RipRoute>, p: Packet, k: Prefix) {
    Verdict(p.entries, k) == Some(true) && (Owned(rip, p.src, k) || TakesOver(rip, p.entries, k))
  }

  /** Whether the forwarding table has a RIP route for the prefix once the packet has been applied. */
  predicate Stays(t: Tables, p: Packet, k: Prefix) {
    if Verdict(p.entries, k).Some? && (Owned(t.rip, p.src, k) || TakesOver(t.rip, p.entries, k))
    then Verdict(p.entries, k).value
    else HasRip(t.fib, k)
  }

  lemma {:induction false} TakesOverReads(rip: map<Prefix, RipRoute>, rip': map<Prefix, RipRoute>, es: seq<RipEntry>, k: Prefix)
    requires (k in rip <==> k in rip') && (k in rip ==> rip[k] == rip'[k])
    ensures TakesOver(rip, es, k) <==> TakesOver(rip', es, k)
  {
    if es != [] {
      TakesOverReads(rip, rip', es[1..], k);
    }
  }

  lemma {:induction false} TakesOverMentions(rip: map<Prefix, RipRoute>, es: seq<RipEntry>, k: Prefix)
    requires TakesOver(rip, es, k)
    ensures Verdict(es, k).Some?
  {
    if !Improves(rip, es[0], k) {
      TakesOverMentions(rip, es[1..], k);
    }
  }

  /** Applying one entry does not change what the packet comes to. */
  lemma {:induction false} EntryKeepsStays(t: Tables, p: Packet, k: Prefix, now: int)
    requires Stored(t) && p.entries != []
    ensures Stays(ProcessEntry(t, p.entries[0], p.src, p.oif, now), p.(entries := p.entries[1..]), k) == Stays(t, p, k)
  {
    var e, rest := p.entries[0], p.entries[1..];
    var t' := ProcessEntry(t, e, p.src, p.oif, now);
    EntryAt(t, e, p.src, p.oif, now, k);
    if !IsFor(e, k) {
      TakesOverReads(t.rip, t'.rip, rest, k);
    } else if !Improves(t.rip, e, k) && !Owned(t.rip, p.src, k) {
      if TakesOver(t.rip, rest, k) {
        TakesOverMentions(t.rip, rest, k);
      }
    }
  }

  predicate Silent(p: Packet) {
    forall i :: 0 <= i < |p.entries| ==> !Reachable(p.entries[i])
  }

  lemma {:induction false} SilentSaysNo(p: Packet, k: Prefix)
    requires Silent(p)
    ensures Verdict(p.entries, k) != Some(true)
    decreases |p.entries|
  {
    if p.entries != [] {
      var q := p.(entries := p.entries[1..]);
      assert forall i :: 0 <= i < |q.entries| ==> q.entries[i] == p.entries[i + 1];
      SilentSaysNo(q, k);
    }
  }

  // ----- A stop with packets past the check -----

  /** No packet that waits for the lock has a reachable entry, and the rest of the packet being applied leaves no route. */
  ghost predicate Harmless(r: Router) {
    && (forall t :: t in r.packets && r.holder != Some(t) ==> Silent(r.packets[t]))
    && (r.holder.Some? && r.holder.value in r.packets ==>
          forall k: Prefix :: !Leaves(r.tables.rip, r.packets[r.holder.value], k))
  }

  /** The same, whatever the forwarding table has come to hold since the flush. */
  ghost predicate WillBeClean(r: Router) {
    && Sane(r)
    && (forall t :: t in r.packets && r.holder != Some(t) ==> Silent(r.packets[t]))
    && match r.phase
       case Flushed =>
         if r.holder == None then NoRip(r.tables.fib)
         else forall k: Prefix :: !Stays(r.tables, r.packets[r.holder.value], k)
       case Stopped => NoTrace(r.tables) && (r.holder.Some? ==> Silent(r.packets[r.holder.value]))
       case _ => false
  }

  lemma {:induction false} StepKeepsClean(r: Router, a: Action)
    requires WillBeClean(r) && Enabled(r, a) && a != Restart
    ensures WillBeClean(Next(r, a))
  {
    match a
    case Check(_, _) =>
    case Begin(t) => BeginKeepsClean(r, t);
    case Entry(now) => EntryKeepsClean(r, now);
    case Finish => FinishKeepsClean(r);
    case StopClear =>
  }

  lemma {:induction false} BeginKeepsClean(r: Router, t: nat)
    requires WillBeClean(r) && r.holder == None && t in r.packets
    ensures WillBeClean(r.(holder := Some(t)))
  {
    if r.phase == Flushed {
      forall k: Prefix ensures !Stays(r.tables, r.packets[t], k) {
        SilentSaysNo(r.packets[t], k);
        assert !HasRip(r.tables.fib, k);
      }
    }
  }

  lemma {:induction false} EntryKeepsClean(r: Router, now: int)
    requires WillBeClean(r) && Enabled(r, Entry(now))
    ensures WillBeClean(Next(r, Entry(now)))
  {
    var p := r.packets[r.holder.value];
    var r', q := Next(r, Entry(now)), p.(entries := p.entries[1..]);
    EntryAt(r.tables, p.entries[0], p.src, p.oif, now, PrefixOf(p.entries[0]));
    if r.phase == Flushed {
      forall k: Prefix ensures !Stays(r'.tables, q, k) {
        EntryKeepsStays(r.tables, p, k, now);
      }
    } else {
      assert forall i :: 0 <= i < |q.entries| ==> q.entries[i] == p.entries[i + 1];
    }
  }

  lemma {:induction false} FinishKeepsClean(r: Router)
    requires WillBeClean(r) && Enabled(r, Finish)
    ensures WillBeClean(Next(r, Finish))
  {
    if r.phase == Flushed {
      forall k: Prefix ensures !HasRip(r.tables.fib, k) {
        assert !Stays(r.tables, r.packets[r.holder.value], k);
      }
    }
  }

  lemma {:induction false} RunKeepsClean(r: Router, acts: seq<Action>, r': Router)
    requires WillBeClean(r) && IsRun(r, acts, r') && Restart !in acts
    ensures WillBeClean(r')
    decreases |acts|
  {
    if acts != [] {
      assert acts[0] in acts;
      StepKeepsClean(r, acts[0]);
      RunKeepsClean(Next(r, acts[0]), acts[1..], r');
    }
  }

  lemma {:induction false} FlushWillBeClean(r: Router)
    requires Sane(r) && Enabled(r, StopFlush) && Harmless(r)
    ensures WillBeClean(Next(r, StopFlush))
  {
    var f := Next(r, StopFlush);
    FlushIsWithin(r.tables);
    if f.holder.Some? {
      forall k: Prefix ensures !Stays(f.tables, f.packets[f.holder.value], k) {
        assert !Leaves(r.tables.rip, r.packets[r.holder.value], k) && !HasRip(f.tables.fib, k);
      }
    }
  }

  /** The thread that holds the lock applies the rest of its packet: what comes of each prefix, and what is then known. */
  lemma {:induction false} HolderFinishes(r: Router) returns (acts: seq<Action>, r': Router)
    requires Stored(r.tables) && r.holder.Some? && r.holder.value in r.packets
    ensures IsRun(r, acts, r') && Restart !in acts
    ensures r'.phase == r.phase && r'.holder == None && r'.packets == r.packets - {r.holder.value} && Stored(r'.tables)
    ensures forall k: Prefix :: HasRip(r'.tables.fib, k) == Stays(r.tables, r.packets[r.holder.value], k)
    ensures !Silent(r.packets[r.holder.value]) || r.tables.rip != map[] ==> r'.tables.rip != map[]
    decreases |r.packets[r.holder.value].entries|
  {
    var t, p := r.holder.value, r.packets[r.holder.value];
    if p.entries == [] {
      acts, r' := [Finish], Next(r, Finish);
      assert acts[1..] == [];
    } else {
      var m, e, q := Next(r, Entry(0)), p.entries[0], p.(entries := p.entries[1..]);
      EntryAt(r.tables, e, p.src, p.oif, 0, PrefixOf(e));
      var rest;
      rest, r' := HolderFinishes(m);
      acts := [Entry(0)] + rest;
      assert acts[1..] == rest;
      forall k: Prefix ensures HasRip(r'.tables.fib, k) == Stays(r.tables, p, k) {
        EntryKeepsStays(r.tables, p, k, 0);
      }
      assert r'.packets == r.packets - {t};
      if !Reachable(e) && Silent(q) {
        SilentAgain(p);
      }
    }
  }

  lemma {:induction false} SilentAgain(p: Packet)
    requires p.entries != [] && !Reachable(p.entries[0]) && Silent(p.(entries := p.entries[1..]))
    ensures Silent(p)
  {
    forall i | 0 <= i < |p.entries| ensures !Reachable(p.entries[i]) {
      if i > 0 {
        assert p.entries[i] == p.entries[1..][i - 1];
      }
    }
  }

  /** The thread that holds the lock, if any, finishes, and the stop is completed. */
  lemma {:induction false} StopCompletes(r: Router) returns (acts: seq<Action>, r': Router)
    requires Sane(r) && r.phase == Flushed
    ensures IsRun(r, acts, r') && Restart !in acts && r'.phase == Stopped && r'.holder == None
    ensures r'.tables.rip == map[] && Stored(r'.tables)
    ensures r'.packets == if r.holder == None then r.packets else r.packets - {r.holder.value}
    ensures r.holder.Some? ==>
              forall k: Prefix :: HasRip(r'.tables.fib, k) == Stays(r.tables, r.packets[r.holder.value], k)
  {
    var m, first := r, [];
    if r.holder.Some? {
      first, m := HolderFinishes(r);
    }
    r', acts := Next(m, StopClear), first + [StopClear];
    assert [StopClear][1..] == [] && IsRun(m, [StopClear], r');
    RunsJoin(r, first, m, [StopClear], r');
  }

  /** A thread that waits with a reachable entry can come after everything else. */
  lemma {:induction false} LateThread(r: Router, t: nat) returns (acts: seq<Action>, r': Router)
    requires Stored(r.tables) && r.phase == Stopped && r.holder == None && t in r.packets && !Silent(r.packets[t])
    ensures IsRun(r, acts, r') && Restart !in acts && r'.phase == Stopped && !NoTrace(r'.tables)
  {
    var rest;
    rest, r' := HolderFinishes(Next(r, Begin(t)));
    acts := [Begin(t)] + rest;
    assert acts[1..] == rest;
  }

  lemma {:induction false} HarmIsDone(f: Router) returns (acts: seq<Action>, r': Router)
    requires Sane(f) && f.phase == Flushed && !Harmless(f)
    ensures IsRun(f, acts, r') && Restart !in acts && r'.phase == Stopped && !NoTrace(r'.tables)
  {
    acts, r' := StopCompletes(f);
    if t :| t in f.packets && f.holder != Some(t) && !Silent(f.packets[t]) {
      var m, first, rest := r', acts, [];
      rest, r' := LateThread(m, t);
      RunsJoin(f, first, m, rest, r');
      acts := first + rest;
    } else {
      var p := f.packets[f.holder.value];
      var k: Prefix :| Leaves(f.tables.rip, p, k);
      assert Stays(f.tables, p, k);
      assert HasRip(r'.tables.fib, k);
    }
  }

  /** Whatever comes after the flush, a completed stop has left no RIP route in either store, exactly if no thread past the
      enabled check holds a packet that does harm. */
  lemma {:induction false} StopIsClean(r: Router)
    requires Sane(r) && Enabled(r, StopFlush)
    ensures (forall acts, r' :: IsRun(Next(r, StopFlush), acts, r') && Restart !in acts && r'.phase == Stopped ==> NoTrace(r'.tables))
       <==> Harmless(r)
  {
    var f := Next(r, StopFlush);
    FlushIsWithin(r.tables);
    assert Harmless(f) <==> Harmless(r);
    if Harmless(f) {
      FlushWillBeClean(r);
      forall acts, r' | IsRun(f, acts, r') && Restart !in acts && r'.phase == Stopped ensures NoTrace(r'.tables) {
        RunKeepsClean(f, acts, r');
      }
    } else {
      var acts, r' := HarmIsDone(f);
    }
  }

  /** At each flush of the run, the packets past the check do no harm. */
  ghost predicate HarmlessStops(r: Router, acts: seq<Action>, r': Router)
    requires IsRun(r, acts, r')
    decreases |acts|
  {
    acts != [] ==> (acts[0] == StopFlush ==> Harmless(r)) && HarmlessStops(Next(r, acts[0]), acts[1..], r')
  }

  lemma {:induction false} HarmlessIsClean(r: Router, acts: seq<Action>, r': Router)
    requires Sane(r) && (r.phase == Flushed ==> WillBeClean(r)) && IsRun(r, acts, r') && HarmlessStops(r, acts, r')
    ensures CleanStops(r, acts, r')
    decreases |acts|
  {
    if acts != [] {
      var a := acts[0];
      StepKeepsSane(r, a);
      if a == StopFlush {
        FlushWillBeClean(r);
      } else if r.phase == Flushed {
        StepKeepsClean(r, a);
      }
      HarmlessIsClean(Next(r, a), acts[1..], r');
    }
  }

  /** In every interleaving in which no stop flushes while a packet past the check can do harm, the two stores agree, except
      between flush and clear, where the forwarding table holds learned routes only. */
  lemma {:induction false} EveryRunAgrees(r: Router, acts: seq<Action>, r': Router)
    requires Orderly(r) && r.phase != Flushed && IsRun(r, acts, r') && HarmlessStops(r, acts, r')
    ensures Orderly(r')
  {
    HarmlessIsClean(r, acts, r');
    EveryCleanRun(r, acts, r');
  }

  lemma {:induction false} RunFrom(r: Router, a: Action, rest: seq<Action>, r': Router)
    requires Enabled(r, a) && IsRun(Next(r, a), rest, r')
    ensures IsRun(r, [a] + rest, r')
  {
    assert ([a] + rest)[1..] == rest;
  }

  /** A thread applies its only entry. */
  lemma {:induction false} OneEntryRun(r: Router, e: RipEntry, src: uint32, oif: nat, now: int) returns (r': Router)
    requires r.holder == None && r.packets == map[0 := Packet([e], src, oif)]
    ensures r' == Router(ProcessEntry(r.tables, e, src, oif, now), r.phase, map[], None)
    ensures IsRun(r, [Begin(0), Entry(now), Finish], r')
  {
    var a, b := Next(r, Begin(0)), Next(Next(r, Begin(0)), Entry(now));
    r' := Next(b, Finish);
    assert r'.packets == map[];
    RunFrom(b, Finish, [], r');
    RunFrom(a, Entry(now), [Finish], r');
    RunFrom(r, Begin(0), [Entry(now), Finish], r');
    assert [Begin(0)] + [Entry(now), Finish] == [Begin(0), Entry(now), Finish] && [Entry(now)] + [Finish] == [Entry(now), Finish];
  }

  /** A packet passes the check, then the stop flushes an empty table. */
  lemma {:induction false} CheckedThenFlushed(p: Packet)
    ensures IsRun(Router(Tables(map[], []), Running, map[], None), [Check(0, p), StopBegin, StopFlush],
                  Router(Tables(map[], []), Flushed, map[0 := p], None))
  {
    var r := Router(Tables(map[], []), Running, map[], None);
    var a, b := Next(r, Check(0, p)), Next(Next(r, Check(0, p)), StopBegin);
    var c := Next(b, StopFlush);
    assert a.packets == map[0 := p];
    RunFrom(b, StopFlush, [], c);
    RunFrom(a, StopBegin, [StopFlush], c);
    RunFrom(r, Check(0, p), [StopBegin, StopFlush], c);
    assert [Check(0, p)] + [StopBegin, StopFlush] == [Check(0, p), StopBegin, StopFlush] && [StopBegin] + [StopFlush] == [StopBegin, StopFlush];
  }

  /** With one reachable entry past the check: applied between flush and clear, it leaves the forwarding table with a route
      that the learned routes do not know; applied after the clear, it leaves a stopped router with a route in both. */
  lemma {:induction false} StopRaces(e: RipEntry, src: uint32, oif: nat, now: int) returns (between: Router, after: Router)
    requires Reachable(e)
    ensures var r, check, apply := Router(Tables(map[], []), Running, map[], None), [Check(0, Packet([e], src, oif))], [Begin(0), Entry(now), Finish];
            && IsRun(r, check + [StopBegin, StopFlush] + apply + [StopClear], between)
            && IsRun(r, check + [StopBegin, StopFlush] + [StopClear] + apply, after)
    ensures between.phase == Stopped && PrefixOf(e) !in between.tables.rip && HasRip(between.tables.fib, PrefixOf(e))
    ensures !Agree(between.tables)
    ensures after.phase == Stopped && PrefixOf(e) in after.tables.rip && HasRip(after.tables.fib, PrefixOf(e))
  {
    var p, k := Packet([e], src, oif), PrefixOf(e);
    var r, first := Router(Tables(map[], []), Running, map[], None), [Check(0, p), StopBegin, StopFlush];
    var f, apply := Router(Tables(map[], []), Flushed, map[0 := p], None), [Begin(0), Entry(now), Finish];
    CheckedThenFlushed(p);
    assert [Check(0, p)] + [StopBegin, StopFlush] == first;
    EntryAt(Tables(map[], []), e, src, oif, now, k);
    var m := OneEntryRun(f, e, src, oif, now);
    between := Next(m, StopClear);
    RunFrom(m, StopClear, [], between);
    RunsJoin(r, first, f, apply, m);
    RunsJoin(r, first + apply, m, [StopClear], between);
    assert [StopClear] + [] == [StopClear];
    assert HasRip(between.tables.fib, k);
    ClearAgreesExactly(m.tables);
    var c := Next(f, StopClear);
    RunFrom(f, StopClear, [], c);
    after := OneEntryRun(c, e, src, oif, now);
    RunsJoin(r, first, f, [StopClear], c);
    RunsJoin(r, first + [StopClear], c, apply, after);
  }
}
