/** What addresses resolve to over whole runs of the ARP table, and what the queued packets and reports carry. */
module ArpBindings {
  import opened Wrappers
  import opened StpVector
  import opened Arp
  import opened ArpRuns

  lemma ResolvedIsAt(es: seq<Entry>, ip: nat)
    requires Valid(es)
    ensures Resolved(es, ip) == match At(es, ip) case None => None case Some(e) => if e.incomplete then None else Some(e.mac)
  {
    match IndexOf(es, ip)
    case Some(i) => AtIs(es, i);
    case None =>
  }

  /** Once a binding has been learned its address resolves to it, unless it was only to update an entry and there was none; no
      other address resolves differently. */
  lemma LearnedIsResolved(es: seq<Entry>, ip: nat, mac: Mac, oif: nat, existingOnly: bool, now: int, x: nat)
    requires Valid(es)
    ensures Resolved(Learn(es, ip, mac, oif, existingOnly, now), x) ==
            if x == ip && (!existingOnly || exists i :: 0 <= i < |es| && es[i].ip == ip) then Some(mac) else Resolved(es, x)
  {
    var es' := Learn(es, ip, mac, oif, existingOnly, now);
    LearnKeepsValid(es, ip, mac, oif, existingOnly, now);
    LearnAt(es, ip, mac, oif, existingOnly, now, x);
    ResolvedIsAt(es, x);
    ResolvedIsAt(es', x);
    if exists i :: 0 <= i < |es| && es[i].ip == ip {
      var i :| 0 <= i < |es| && es[i].ip == ip;
      AtIs(es, i);
    }
  }

  /** A packet queued for an address is the first to be handed on when the address is learned: packets that wait for the same
      address leave in the reverse of the order they came in. */
  lemma LastQueuedIsFirst(es: seq<Entry>, ip: nat, oif: nat, p: Pending, retry: Option<nat>, now: int)
    requires Valid(es) && Resolved(es, ip) == None
    ensures Released(Queue(es, ip, oif, p, retry, now), ip) == [p] + Released(es, ip)
  {
    var es' := Queue(es, ip, oif, p, retry, now);
    QueueKeepsValid(es, ip, oif, p, retry, now);
    AtIs(es', match IndexOf(es, ip) case None => 0 case Some(i) => i);
  }

  // ----- What reports say -----

  /** Each retry names the interface and the number of its request, and is sent as the first packet that could say how said. */
  lemma {:induction false} RetriesSay(es: seq<Entry>, now: int, k: nat)
    requires Valid(es) && k < |Retries(es, now)|
    ensures var r := Retries(es, now)[k];
            At(es, r.ip).Some? && var e := At(es, r.ip).value; r == Retry(e.ip, e.oif, e.requests + 1, e.retry)
  {
    var front, last := es[..|es| - 1], es[|es| - 1];
    FrontIsValid(es);
    if k < |Retries(front, now)| {
      RetriesSay(front, now, k);
    }
  }

  /** The way to send a request is the one that came with the first packet that had one, and the interface that of the first. */
  lemma FirstWayIsKept(es: seq<Entry>, ip: nat, oif: nat, p: Pending, retry: Option<nat>, now: int)
    requires Valid(es) && Resolved(es, ip) == None
    ensures At(Queue(es, ip, oif, p, retry, now), ip).Some?
    ensures var e := At(Queue(es, ip, oif, p, retry, now), ip).value;
            match At(es, ip)
            case None => e.retry == retry && e.oif == oif && e.createdAt == now && e.updatedAt == now && e.requests == 1
            case Some(was) => e == was.(pending := [p] + was.pending, retry := if was.retry.Some? then was.retry else retry)
  {
    var es' := Queue(es, ip, oif, p, retry, now);
    QueueKeepsValid(es, ip, oif, p, retry, now);
    ResolvedIsAt(es, ip);
    match IndexOf(es, ip)
    case None => AtIs(es', 0);
    case Some(i) => AtIs(es, i); AtIs(es', i);
  }

  lemma {:induction false} FailuresSay(es: seq<Entry>, now: int, k: nat)
    requires Valid(es) && k < |Failures(es, now)|
    ensures var f := Failures(es, now)[k];
            At(es, f.ip).Some? && var e := At(es, f.ip).value;
            f.ip == e.ip && f.oif == e.oif && f.attempts == e.requests && f.pendingCount == |e.pending|
  {
    var front, last := es[..|es| - 1], es[|es| - 1];
    FrontIsValid(es);
    if k < |Failures(front, now)| {
      FailuresSay(front, now, k);
    }
  }

  // ----- Bindings over whole runs -----

  /** The bindings there are after a run, told without the table: each learned one, with the time it was last heard of. A
      message that is only to update an entry counts if its address is bound or being asked for. A cleanup drops the bindings
      not heard of for more than a minute. */
  function Bound(ts: seq<Timed>): map<nat, (Mac, int)> {
    if ts == [] then map[]
    else
      var was, t := Bound(ts[..|ts| - 1]), ts[|ts| - 1];
      match t.action
      case Arrive(ip, mac, _, existingOnly) =>
        if existingOnly && ip !in was && ip !in Run(START, ts[..|ts| - 1]).open then was else was[ip := (mac, t.at)]
      case Cleanup => map ip | ip in was && t.at - was[ip].1 <= 60000 :: was[ip]
      case _ => was
  }

  /** The complete entry for the address, if any, is this binding. */
  ghost predicate Binds(es: seq<Entry>, ip: nat, bound: map<nat, (Mac, int)>) {
    && (ip in bound <==> At(es, ip).Some? && !At(es, ip).value.incomplete)
    && (ip in bound ==> At(es, ip).value.mac == bound[ip].0 && At(es, ip).value.updatedAt == bound[ip].1)
  }

  lemma StepBinds(w: World, t: Timed, was: map<nat, (Mac, int)>, now: map<nat, (Mac, int)>, x: nat)
    requires Tracked(w) && forall ip :: Binds(w.table, ip, was)
    requires now == match t.action
                    case Arrive(ip, mac, _, existingOnly) => if existingOnly && ip !in was && ip !in w.open then was else was[ip := (mac, t.at)]
                    case Cleanup => map ip | ip in was && t.at - was[ip].1 <= 60000 :: was[ip]
                    case _ => was
    ensures Binds(Next(w, t).table, x, now)
  {
    assert Binds(w.table, x, was);
    match t.action
    case Resolve(ip, oif, p, retry) => QueueAt(w.table, ip, oif, p, retry, t.at, x);
    case Arrive(ip, mac, oif, existingOnly) =>
      LearnAt(w.table, ip, mac, oif, existingOnly, t.at, x);
      assert Binds(w.table, ip, was);
    case Maintain => KeptAt(w.table, t.at);
    case Cleanup => CleanedAt(w.table, t.at);
  }

  lemma {:induction false} RunBinds(ts: seq<Timed>, ip: nat)
    ensures Binds(Run(START, ts).table, ip, Bound(ts))
    decreases |ts|
  {
    if ts != [] {
      var n := |ts| - 1;
      EveryRun(ts[..n]);
      forall x ensures Binds(Run(START, ts[..n]).table, x, Bound(ts[..n])) {
        RunBinds(ts[..n], x);
      }
      StepBinds(Run(START, ts[..n]), ts[n], Bound(ts[..n]), Bound(ts), ip);
    }
  }

  /** In every run an address resolves to what it was last said to be, as long as that has not been cleaned up. */
  lemma EveryRunResolves(ts: seq<Timed>, ip: nat)
    ensures Resolved(Run(START, ts).table, ip) == if ip in Bound(ts) then Some(Bound(ts)[ip].0) else None
  {
    EveryRun(ts);
    RunBinds(ts, ip);
    ResolvedIsAt(Run(START, ts).table, ip);
  }

  /** The packets a run hands to the table while their address is not bound, told without the table. */
  function Unanswered(ts: seq<Timed>): seq<(nat, Pending)> {
    if ts == [] then []
    else
      var was, t := Unanswered(ts[..|ts| - 1]), ts[|ts| - 1];
      if t.action.Resolve? && t.action.ip !in Bound(ts[..|ts| - 1]) then was + [(t.action.ip, t.action.p)] else was
  }

  /** Exactly those are accepted: with the conservation of packets, each of them waits, or has been released, or has failed. */
  lemma {:induction false} UnansweredAreAccepted(ts: seq<Timed>)
    ensures Run(START, ts).accepted == Unanswered(ts)
    decreases |ts|
  {
    if ts != [] {
      var n := |ts| - 1;
      UnansweredAreAccepted(ts[..n]);
      EveryRun(ts[..n]);
      var w := Run(START, ts[..n]);
      match ts[n].action
      case Resolve(ip, _, _, _) =>
        RunBinds(ts[..n], ip);
        match IndexOf(w.table, ip) {
          case Some(i) => AtIs(w.table, i);
          case None =>
        }
      case _ =>
    }
  }

  /** A maintenance pass ends, as failed, exactly the resolutions whose first request was three seconds ago, and leaves no other
      without a request for a second, until it has had three. */
  lemma MaintenanceActs(w: World, now: int, w': World, ip: nat)
    requires Tracked(w) && w' == Next(w, Timed(Maintain, now)) && ip in w.open
    ensures ip in w'.open <==> now - w.open[ip][0] < 3000
    ensures ip !in w'.open ==> Episode(ip, w.open[ip], true, now) in w'.closed
    ensures ip in w'.open ==>
              var last := w.open[ip][|w.open[ip]| - 1];
              w'.open[ip] == if |w.open[ip]| < 3 && now - last >= 1000 then w.open[ip] + [now] else w.open[ip]
  {
    ActionsAt(w.table, ip, now);
    assert Matches(At(w.table, ip).value, w.open[ip]);
    var fs := Failures(w.table, now);
    if HasFailure(fs, ip) {
      var k :| 0 <= k < |fs| && fs[k].ip == ip;
      assert GivenUp(w.open, fs, now)[k] == Episode(ip, w.open[ip], true, now);
      assert w'.closed[|w.closed| + k] == GivenUp(w.open, fs, now)[k];
    }
  }
}
