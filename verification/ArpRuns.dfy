/** Whole runs of the ARP table: no packet is lost or handed on twice, and requests are paced and bounded. */
module ArpRuns {
  import opened Wrappers
  import opened StpVector
  import opened Arp

  /** One locked section of the table, at a time read from the clock. */
  datatype Action =
    | Resolve(ip: nat, oif: nat, p: Pending, retry: Option<nat>)
    | Arrive(ip: nat, mac: Mac, oif: nat, existingOnly: bool)
    | Maintain
    | Cleanup

  datatype Timed = Timed(action: Action, at: int)

  /** One attempt to resolve an address: the times of the requests it was told to send, and how it ended. */
  datatype Episode = Episode(ip: nat, requests: seq<int>, failed: bool, ended: int)

  /** The table and what an observer of its answers has recorded. Packets are recorded with the address they wait for. */
  datatype World = World(
    table: seq<Entry>,
    accepted: seq<(nat, Pending)>, released: seq<(nat, Pending)>, failed: seq<(nat, Pending)>,
    open: map<nat, seq<int>>, closed: seq<Episode>)

  const START := World([], [], [], [], map[], [])

  function Tagged(ip: nat, ps: seq<Pending>): (r: seq<(nat, Pending)>)
    ensures |r| == |ps| && forall i :: 0 <= i < |ps| ==> r[i] == (ip, ps[i])
  {
    seq(|ps|, i requires 0 <= i < |ps| => (ip, ps[i]))
  }

  /** Everything still waiting in the table. */
  function Waiting(es: seq<Entry>): multiset<(nat, Pending)> {
    if es == [] then multiset{} else Waiting(es[..|es| - 1]) + Load(es[|es| - 1])
  }

  function Load(e: Entry): multiset<(nat, Pending)> {
    multiset(Tagged(e.ip, e.pending))
  }

  /** The packets behind the reported failures. */
  function FailedPackets(es: seq<Entry>, now: int): seq<(nat, Pending)> {
    if es == [] then []
    else
      var e := es[|es| - 1];
      if TimedOut(e, now) then FailedPackets(es[..|es| - 1], now) + Tagged(e.ip, e.pending) else FailedPackets(es[..|es| - 1], now)
  }

  predicate HasRetry(rs: seq<Retry>, ip: nat) {
    exists i :: 0 <= i < |rs| && rs[i].ip == ip
  }

  predicate HasFailure(fs: seq<Failure>, ip: nat) {
    exists i :: 0 <= i < |fs| && fs[i].ip == ip
  }

  function Requests(open: map<nat, seq<int>>, ip: nat): seq<int> {
    if ip in open then open[ip] else []
  }

  function Maintained(open: map<nat, seq<int>>, rs: seq<Retry>, fs: seq<Failure>, now: int): map<nat, seq<int>> {
    map ip | ip in open && !HasFailure(fs, ip) :: if HasRetry(rs, ip) then open[ip] + [now] else open[ip]
  }

  /** The resolutions that failed, each with the requests sent for it. */
  function GivenUp(open: map<nat, seq<int>>, fs: seq<Failure>, now: int): (es: seq<Episode>)
    ensures |es| == |fs| && forall i :: 0 <= i < |fs| ==> es[i] == Episode(fs[i].ip, Requests(open, fs[i].ip), true, now)
  {
    seq(|fs|, i requires 0 <= i < |fs| => Episode(fs[i].ip, Requests(open, fs[i].ip), true, now))
  }

  function Next(w: World, t: Timed): World {
    var now := t.at;
    match t.action
    case Resolve(ip, oif, p, retry) =>
      var found := IndexOf(w.table, ip);
      var queued := found == None || w.table[found.value].incomplete;
      w.(table := Queue(w.table, ip, oif, p, retry, now),
         accepted := if queued then w.accepted + [(ip, p)] else w.accepted,
         open := if found == None then w.open[ip := [now]] else w.open)
    case Arrive(ip, mac, oif, existingOnly) =>
      w.(table := Learn(w.table, ip, mac, oif, existingOnly, now),
         released := w.released + Tagged(ip, Released(w.table, ip)),
         open := w.open - {ip},
         closed := if ip in w.open then w.closed + [Episode(ip, w.open[ip], false, now)] else w.closed)
    case Maintain =>
      var fs := Failures(w.table, now);
      w.(table := Kept(w.table, now),
         failed := w.failed + FailedPackets(w.table, now),
         open := Maintained(w.open, Retries(w.table, now), fs, now),
         closed := w.closed + GivenUp(w.open, fs, now))
    case Cleanup => w.(table := Cleaned(w.table, now))
  }

  function Run(w: World, ts: seq<Timed>): World
    decreases |ts|
  {
    if ts == [] then w else Next(Run(w, ts[..|ts| - 1]), ts[|ts| - 1])
  }

  predicate Ordered(ts: seq<Timed>) {
    forall i, j :: 0 <= i < j < |ts| ==> ts[i].at <= ts[j].at
  }

  // ----- The table, address by address -----

  function At(es: seq<Entry>, ip: nat): (r: Option<Entry>)
    ensures r == None ==> forall i :: 0 <= i < |es| ==> es[i].ip != ip
    ensures r.Some? ==> r.value in es && r.value.ip == ip
  {
    if es == [] then None
    else if es[|es| - 1].ip == ip then Some(es[|es| - 1])
    else At(es[..|es| - 1], ip)
  }

  /** With unique addresses, every search finds the one entry there is. */
  lemma {:induction false} AtIs(es: seq<Entry>, i: nat)
    requires Valid(es) && i < |es|
    ensures At(es, es[i].ip) == Some(es[i]) && IndexOf(es, es[i].ip) == Some(i)
  {
    var ip := es[i].ip;
    var r := At(es, ip);
    assert r.Some?;
    var j :| 0 <= j < |es| && es[j] == r.value;
    assert j == i;
  }

  lemma {:induction false} AtPrepend(e: Entry, es: seq<Entry>, ip: nat)
    requires Valid([e] + es)
    ensures At([e] + es, ip) == if e.ip == ip then Some(e) else At(es, ip)
  {
    var all := [e] + es;
    if e.ip == ip {
      AtIs(all, 0);
    } else if At(es, ip).Some? {
      var j :| 0 <= j < |es| && es[j] == At(es, ip).value;
      AtIs(all, j + 1);
    } else {
      assert At(all, ip) == None;
    }
  }

  lemma {:induction false} AtUpdate(es: seq<Entry>, i: nat, e: Entry, ip: nat)
    requires i < |es| && e.ip == es[i].ip && Valid(es) && Valid(es[i := e])
    ensures At(es[i := e], ip) == if e.ip == ip then Some(e) else At(es, ip)
  {
    var all := es[i := e];
    if e.ip == ip {
      AtIs(all, i);
    } else if At(es, ip).Some? {
      var j :| 0 <= j < |es| && es[j] == At(es, ip).value;
      AtIs(all, j);
    } else {
      assert At(all, ip) == None;
    }
  }

  lemma {:induction false} FrontIsValid(es: seq<Entry>)
    requires Valid(es) && es != []
    ensures Valid(es[..|es| - 1]) && At(es[..|es| - 1], es[|es| - 1].ip) == None
  {
    var front := es[..|es| - 1];
    assert forall i :: 0 <= i < |front| ==> front[i] == es[i];
  }

  lemma {:induction false} AppendIsValid(es: seq<Entry>, e: Entry)
    requires Valid(es) && At(es, e.ip) == None
    requires if e.incomplete then 1 <= e.requests <= ARP_REQUEST_MAX_ATTEMPTS else e.pending == []
    ensures Valid(es + [e])
    ensures forall ip :: At(es + [e], ip) == if e.ip == ip then Some(e) else At(es, ip)
  {
    var all := es + [e];
    assert all[..|es|] == es;
    forall i, j | 0 <= i < j < |all| ensures all[i].ip != all[j].ip {
    }
  }

  function KeptEntry(e: Option<Entry>, now: int): Option<Entry> {
    if e == None || TimedOut(e.value, now) then None else Some(Retried(e.value, now))
  }

  function CleanedEntry(e: Option<Entry>, now: int): Option<Entry> {
    if e == None || Stale(e.value, now) then None else e
  }

  /** A maintenance pass drops the entries that have timed out and advances the others. */
  lemma {:induction false} KeptAt(es: seq<Entry>, now: int)
    requires Valid(es)
    ensures Valid(Kept(es, now))
    ensures forall ip :: At(Kept(es, now), ip) == KeptEntry(At(es, ip), now)
  {
    if es != [] {
      var front, last := es[..|es| - 1], es[|es| - 1];
      FrontIsValid(es);
      KeptAt(front, now);
      if !TimedOut(last, now) {
        assert At(Kept(front, now), last.ip) == None;
        AppendIsValid(Kept(front, now), Retried(last, now));
      }
    }
  }

  lemma {:induction false} CleanedAt(es: seq<Entry>, now: int)
    requires Valid(es)
    ensures Valid(Cleaned(es, now))
    ensures forall ip :: At(Cleaned(es, now), ip) == CleanedEntry(At(es, ip), now)
  {
    if es != [] {
      var front, last := es[..|es| - 1], es[|es| - 1];
      FrontIsValid(es);
      CleanedAt(front, now);
      if !Stale(last, now) {
        assert At(Cleaned(front, now), last.ip) == None;
        AppendIsValid(Cleaned(front, now), last);
      }
    }
  }

  /** A pass gives an address up exactly when it has been waited for three seconds, and retries it exactly when it has not, a
      second has gone by since the last request, and there have been fewer than three. */
  lemma {:induction false} ActionsAt(es: seq<Entry>, ip: nat, now: int)
    requires Valid(es)
    ensures HasRetry(Retries(es, now), ip) <==>
              At(es, ip).Some? && var e := At(es, ip).value;
                                  e.incomplete && now - e.createdAt < 3000 && now - e.updatedAt >= 1000 && e.requests < 3
    ensures HasFailure(Failures(es, now), ip) <==>
              At(es, ip).Some? && At(es, ip).value.incomplete && now - At(es, ip).value.createdAt >= 3000
  {
    if es != [] {
      var front, last := es[..|es| - 1], es[|es| - 1];
      FrontIsValid(es);
      ActionsAt(front, ip, now);
      if RetryDue(last, now) {
        RetryAppend(Retries(front, now), Retry(last.ip, last.oif, last.requests + 1, last.retry), ip);
      }
      if TimedOut(last, now) {
        FailureAppend(Failures(front, now), FailureOf(last), ip);
      }
    }
  }

  lemma {:induction false} RetryAppend(rs: seq<Retry>, r: Retry, ip: nat)
    ensures HasRetry(rs + [r], ip) <==> HasRetry(rs, ip) || r.ip == ip
  {
    var all := rs + [r];
    assert all[|rs|] == r && forall i :: 0 <= i < |rs| ==> all[i] == rs[i];
    if HasRetry(rs, ip) {
      var i :| 0 <= i < |rs| && rs[i].ip == ip;
      assert all[i].ip == ip;
    }
  }

  lemma {:induction false} FailureAppend(fs: seq<Failure>, f: Failure, ip: nat)
    ensures HasFailure(fs + [f], ip) <==> HasFailure(fs, ip) || f.ip == ip
  {
    var all := fs + [f];
    assert all[|fs|] == f && forall i :: 0 <= i < |fs| ==> all[i] == fs[i];
    if HasFailure(fs, ip) {
      var i :| 0 <= i < |fs| && fs[i].ip == ip;
      assert all[i].ip == ip;
    }
  }

  /** A pass retries no address twice. */
  lemma {:induction false} RetriesAreDistinct(es: seq<Entry>, now: int)
    requires Valid(es)
    ensures forall i, j :: 0 <= i < j < |Retries(es, now)| ==> Retries(es, now)[i].ip != Retries(es, now)[j].ip
  {
    if es != [] {
      var front, last := es[..|es| - 1], es[|es| - 1];
      FrontIsValid(es);
      RetriesAreDistinct(front, now);
      ActionsAt(front, last.ip, now);
      assert !HasRetry(Retries(front, now), last.ip);
    }
  }

  lemma {:induction false} QueueKeepsValid(es: seq<Entry>, ip: nat, oif: nat, p: Pending, retry: Option<nat>, now: int)
    requires Valid(es)
    ensures Valid(Queue(es, ip, oif, p, retry, now))
  {
  }

  lemma {:induction false} LearnKeepsValid(es: seq<Entry>, ip: nat, mac: Mac, oif: nat, existingOnly: bool, now: int)
    requires Valid(es)
    ensures Valid(Learn(es, ip, mac, oif, existingOnly, now))
  {
  }

  lemma {:induction false} QueueAt(es: seq<Entry>, ip: nat, oif: nat, p: Pending, retry: Option<nat>, now: int, x: nat)
    requires Valid(es)
    ensures var es' := Queue(es, ip, oif, p, retry, now);
            && (x != ip ==> At(es', x) == At(es, x))
            && (IndexOf(es, ip) == None <==> At(es, ip) == None)
            && match At(es, ip)
               case None => At(es', ip) == Some(Fresh(ip, oif, p, retry, now))
               case Some(e) => At(es', ip).Some? && e.incomplete == At(es', ip).value.incomplete
                               && SameTimes(e, At(es', ip).value) && (!e.incomplete ==> At(es', ip) == Some(e))
  {
    QueueKeepsValid(es, ip, oif, p, retry, now);
    match IndexOf(es, ip)
    case None =>
      var e := Fresh(ip, oif, p, retry, now);
      AtPrepend(e, es, x);
      AtPrepend(e, es, ip);
    case Some(i) =>
      AtIs(es, i);
      if es[i].incomplete {
        var e := Queue(es, ip, oif, p, retry, now)[i];
        AtUpdate(es, i, e, x);
        AtUpdate(es, i, e, ip);
      }
  }

  predicate SameTimes(a: Entry, b: Entry) {
    a.requests == b.requests && a.createdAt == b.createdAt && a.updatedAt == b.updatedAt
  }

  lemma {:induction false} LearnAt(es: seq<Entry>, ip: nat, mac: Mac, oif: nat, existingOnly: bool, now: int, x: nat)
    requires Valid(es)
    ensures var es' := Learn(es, ip, mac, oif, existingOnly, now);
            && (x != ip ==> At(es', x) == At(es, x))
            && (At(es', ip).Some? ==>
                  var e := At(es', ip).value; !e.incomplete && e.mac == mac && e.updatedAt == now && e.oif == oif)
            && (At(es', ip) == None <==> At(es, ip) == None && existingOnly)
  {
    LearnKeepsValid(es, ip, mac, oif, existingOnly, now);
    match IndexOf(es, ip)
    case None =>
      if !existingOnly {
        var e := Entry(ip, mac, oif, false, now, now, [], None, 0);
        AtPrepend(e, es, x);
        AtPrepend(e, es, ip);
      }
    case Some(i) =>
      AtIs(es, i);
      var e := Learn(es, ip, mac, oif, existingOnly, now)[i];
      AtUpdate(es, i, e, x);
      AtUpdate(es, i, e, ip);
  }

  // ----- Conservation -----

  ghost predicate Conserved(w: World) {
    multiset(w.accepted) == Waiting(w.table) + multiset(w.released) + multiset(w.failed)
  }

  lemma {:induction false} WaitingOfCons(e: Entry, es: seq<Entry>)
    ensures Waiting([e] + es) == Load(e) + Waiting(es)
  {
    if es == [] {
      assert [e] + es == [] + [e];
      WaitingOfAppend([], e);
    } else {
      var front, last := es[..|es| - 1], es[|es| - 1];
      assert [e] + es == ([e] + front) + [last];
      WaitingOfCons(e, front);
      WaitingOfAppend([e] + front, last);
    }
  }

  lemma {:induction false} Swap<T(!new)>(a: multiset<T>, x: multiset<T>, b: multiset<T>, c: multiset<T>, d: multiset<T>)
    requires a + b == c + d
    ensures a + x + b == c + x + d
  {
    assert a + x + b == a + b + x;
  }

  lemma {:induction false} Cancel<T(!new)>(a: multiset<T>, b: multiset<T>, m: multiset<T>, l: multiset<T>)
    requires a + l == b + (m + l)
    ensures a == b + m
  {
    forall x ensures a[x] == (b + m)[x] {
      assert (a + l)[x] == (b + (m + l))[x];
    }
  }

  /** Replacing one entry changes what waits by exactly that entry's queue. */
  lemma {:induction false} WaitingOfUpdate(es: seq<Entry>, i: nat, e: Entry)
    requires i < |es|
    ensures Waiting(es[i := e]) + Load(es[i]) == Waiting(es) + Load(e)
  {
    var n := |es| - 1;
    var front := es[..n];
    if i == n {
      assert es[i := e][..n] == front;
    } else {
      assert es[i := e][..n] == front[i := e];
      WaitingOfUpdate(front, i, e);
      assert Waiting(es[i := e]) == Waiting(front[i := e]) + Load(es[n]) && front[i] == es[i];
      Swap(Waiting(front[i := e]), Load(es[n]), Load(es[i]), Waiting(front), Load(e));
    }
  }

  lemma {:induction false} WaitingOfAppend(es: seq<Entry>, e: Entry)
    ensures Waiting(es + [e]) == Waiting(es) + Load(e)
  {
    assert (es + [e])[..|es|] == es;
  }

  lemma {:induction false} MaintenanceConserves(es: seq<Entry>, now: int)
    ensures Waiting(es) == Waiting(Kept(es, now)) + multiset(FailedPackets(es, now))
  {
    if es != [] {
      var n := |es| - 1;
      MaintenanceConserves(es[..n], now);
      if !TimedOut(es[n], now) {
        WaitingOfAppend(Kept(es[..n], now), Retried(es[n], now));
      }
    }
  }

  lemma {:induction false} CleanupConserves(es: seq<Entry>, now: int)
    requires Valid(es)
    ensures Waiting(Cleaned(es, now)) == Waiting(es)
  {
    if es != [] {
      var n := |es| - 1;
      FrontIsValid(es);
      CleanupConserves(es[..n], now);
      if Stale(es[n], now) {
        assert Tagged(es[n].ip, es[n].pending) == [];
      } else {
        WaitingOfAppend(Cleaned(es[..n], now), es[n]);
      }
    }
  }

  lemma {:induction false} LoadOfPush(e: Entry, p: Pending, retry: Option<nat>)
    ensures Load(e.(pending := [p] + e.pending, retry := retry)) == multiset{(e.ip, p)} + Load(e)
  {
    assert Tagged(e.ip, [p] + e.pending) == [(e.ip, p)] + Tagged(e.ip, e.pending);
  }

  lemma {:induction false} QueueConserves(es: seq<Entry>, ip: nat, oif: nat, p: Pending, retry: Option<nat>, now: int)
    requires Valid(es)
    ensures var f := IndexOf(es, ip);
            Waiting(Queue(es, ip, oif, p, retry, now))
            == Waiting(es) + (if f == None || es[f.value].incomplete then multiset{(ip, p)} else multiset{})
  {
    match IndexOf(es, ip)
    case None =>
      WaitingOfCons(Fresh(ip, oif, p, retry, now), es);
      assert Tagged(ip, [p]) == [(ip, p)];
    case Some(i) =>
      if es[i].incomplete {
        var r := if es[i].retry == None then retry else es[i].retry;
        var e := es[i].(pending := [p] + es[i].pending, retry := r);
        LoadOfPush(es[i], p, r);
        WaitingOfUpdate(es, i, e);
        Cancel(Waiting(es[i := e]), Waiting(es), multiset{(ip, p)}, Load(es[i]));
      }
  }

  lemma {:induction false} LearnConserves(es: seq<Entry>, ip: nat, mac: Mac, oif: nat, existingOnly: bool, now: int)
    requires Valid(es)
    ensures Waiting(Learn(es, ip, mac, oif, existingOnly, now)) + multiset(Tagged(ip, Released(es, ip))) == Waiting(es)
  {
    match IndexOf(es, ip)
    case None =>
      if !existingOnly {
        WaitingOfCons(Entry(ip, mac, oif, false, now, now, [], None, 0), es);
      }
    case Some(i) =>
      WaitingOfUpdate(es, i, Learn(es, ip, mac, oif, existingOnly, now)[i]);
  }

  lemma {:induction false} StepConserves(w: World, t: Timed)
    requires Valid(w.table) && Conserved(w)
    ensures Conserved(Next(w, t))
  {
    var a, q, r, f := multiset(w.accepted), Waiting(w.table), multiset(w.released), multiset(w.failed);
    var q' := Waiting(Next(w, t).table);
    match t.action
    case Resolve(ip, oif, p, retry) =>
      QueueConserves(w.table, ip, oif, p, retry, t.at);
      assert multiset(w.accepted + [(ip, p)]) == a + multiset{(ip, p)};
    case Arrive(ip, mac, oif, existingOnly) =>
      var out := Tagged(ip, Released(w.table, ip));
      LearnConserves(w.table, ip, mac, oif, existingOnly, t.at);
      assert multiset(w.released + out) == r + multiset(out);
      Moved(q, q', multiset(out), r, f);
    case Maintain =>
      var out := FailedPackets(w.table, t.at);
      MaintenanceConserves(w.table, t.at);
      assert multiset(w.failed + out) == f + multiset(out);
      Moved(q, q', multiset(out), f, r);
    case Cleanup =>
      CleanupConserves(w.table, t.at);
  }

  lemma {:induction false} Moved<T(!new)>(q: multiset<T>, q': multiset<T>, m: multiset<T>, a: multiset<T>, b: multiset<T>)
    requires q == q' + m
    ensures q + a + b == q' + (a + m) + b == q' + b + (a + m)
    ensures q + b + a == q' + b + (a + m)
  {
    forall x ensures (q + a + b)[x] == (q' + (a + m) + b)[x] {
    }
  }

  /** The failure reports account for exactly the packets that were given up, and call each of their callbacks. */
  lemma {:induction false} FailureReportsAreComplete(es: seq<Entry>, now: int)
    ensures Reported(Failures(es, now)) == |FailedPackets(es, now)|
    ensures Callbacks(Failures(es, now)) == CallbacksOf(FailedPackets(es, now))
  {
    if es != [] {
      var n := |es| - 1;
      FailureReportsAreComplete(es[..n], now);
      var fs, ps := Failures(es[..n], now), FailedPackets(es[..n], now);
      if TimedOut(es[n], now) {
        assert (fs + [FailureOf(es[n])])[..|fs|] == fs;
        CallbacksOfTagged(es[n].ip, es[n].pending);
        CallbacksOfConcat(ps, Tagged(es[n].ip, es[n].pending));
      }
    }
  }

  function Reported(fs: seq<Failure>): nat {
    if fs == [] then 0 else Reported(fs[..|fs| - 1]) + fs[|fs| - 1].pendingCount
  }

  function Callbacks(fs: seq<Failure>): seq<nat> {
    if fs == [] then [] else Callbacks(fs[..|fs| - 1]) + fs[|fs| - 1].callbacks
  }

  function CallbacksOf(ps: seq<(nat, Pending)>): seq<nat> {
    if ps == [] then []
    else
      var p := ps[|ps| - 1].1;
      if p.failureCallback.Some? then CallbacksOf(ps[..|ps| - 1]) + [p.failureCallback.value] else CallbacksOf(ps[..|ps| - 1])
  }

  lemma {:induction false} CallbacksOfTagged(ip: nat, ps: seq<Pending>)
    ensures CallbacksOf(Tagged(ip, ps)) == FailureCallbacks(ps)
  {
    if ps != [] {
      CallbacksOfTagged(ip, ps[..|ps| - 1]);
      assert Tagged(ip, ps)[..|ps| - 1] == Tagged(ip, ps[..|ps| - 1]);
    }
  }

  lemma {:induction false} CallbacksOfConcat(a: seq<(nat, Pending)>, b: seq<(nat, Pending)>)
    ensures CallbacksOf(a + b) == CallbacksOf(a) + CallbacksOf(b)
  {
    if b == [] {
      assert a + b == a;
    } else {
      CallbacksOfConcat(a, b[..|b| - 1]);
      assert (a + b)[..|a + b| - 1] == a + b[..|b| - 1];
    }
  }

  // ----- Pacing -----

  ghost predicate Paced(requests: seq<int>) {
    && 1 <= |requests| <= 3
    && forall i :: 0 < i < |requests| ==> requests[i] - requests[i - 1] >= 1000
  }

  /** Requests a second apart, three at most, and no failure within three seconds of the first. */
  ghost predicate EpisodePaced(e: Episode) {
    Paced(e.requests) && (e.failed ==> e.ended - e.requests[0] >= 3000)
  }

  /** The open episode of an incomplete entry, as the entry itself records it. */
  ghost predicate Matches(e: Entry, requests: seq<int>) {
    && Paced(requests) && |requests| == e.requests
    && requests[0] == e.createdAt && requests[|requests| - 1] == e.updatedAt
  }

  ghost predicate Open(es: seq<Entry>, ip: nat) {
    At(es, ip).Some? && At(es, ip).value.incomplete
  }

  ghost predicate Tracked(w: World) {
    && Valid(w.table)
    && (forall ip :: ip in w.open <==> Open(w.table, ip))
    && (forall ip :: ip in w.open ==> Matches(At(w.table, ip).value, w.open[ip]))
    && (forall i :: 0 <= i < |w.closed| ==> EpisodePaced(w.closed[i]))
  }

  lemma {:induction false} StepKeepsTracked(w: World, t: Timed)
    requires Tracked(w)
    ensures Tracked(Next(w, t))
  {
    match t.action
    case Resolve(ip, oif, p, retry) => ResolveKeepsTracked(w, t);
    case Arrive(ip, mac, oif, existingOnly) => ArriveKeepsTracked(w, t);
    case Maintain => MaintainKeepsTracked(w, t);
    case Cleanup => CleanedAt(w.table, t.at);
  }

  lemma {:induction false} ResolveKeepsTracked(w: World, t: Timed)
    requires Tracked(w) && t.action.Resolve?
    ensures Tracked(Next(w, t))
  {
    var Resolve(ip, oif, p, retry) := t.action;
    var w' := Next(w, t);
    QueueKeepsValid(w.table, ip, oif, p, retry, t.at);
    forall x
      ensures x in w'.open <==> Open(w'.table, x)
      ensures x in w'.open ==> Matches(At(w'.table, x).value, w'.open[x])
    {
      QueueAt(w.table, ip, oif, p, retry, t.at, x);
      QueueAt(w.table, ip, oif, p, retry, t.at, ip);
    }
  }

  lemma {:induction false} ArriveKeepsTracked(w: World, t: Timed)
    requires Tracked(w) && t.action.Arrive?
    ensures Tracked(Next(w, t))
  {
    var Arrive(ip, mac, oif, existingOnly) := t.action;
    var w' := Next(w, t);
    LearnKeepsValid(w.table, ip, mac, oif, existingOnly, t.at);
    forall x
      ensures x in w'.open <==> Open(w'.table, x)
      ensures x in w'.open ==> Matches(At(w'.table, x).value, w'.open[x])
    {
      LearnAt(w.table, ip, mac, oif, existingOnly, t.at, x);
    }
    if ip in w.open {
      assert EpisodePaced(Episode(ip, w.open[ip], false, t.at));
    }
  }

  lemma {:induction false} MaintainKeepsTracked(w: World, t: Timed)
    requires Tracked(w) && t.action == Maintain
    ensures Tracked(Next(w, t))
  {
    var w', now := Next(w, t), t.at;
    KeptAt(w.table, now);
    forall ip
      ensures ip in w'.open <==> Open(w'.table, ip)
      ensures ip in w'.open ==> Matches(At(w'.table, ip).value, w'.open[ip])
    {
      MaintainedAt(w, ip, now);
    }
    forall k | 0 <= k < |w'.closed| ensures EpisodePaced(w'.closed[k]) {
      if k >= |w.closed| {
        FailedIsPaced(w, k - |w.closed|, now);
      }
    }
  }

  /** What a pass does to one address: its episode goes on as its entry does, or both end. */
  lemma {:induction false} MaintainedAt(w: World, ip: nat, now: int)
    requires Tracked(w)
    ensures var open := Maintained(w.open, Retries(w.table, now), Failures(w.table, now), now);
            var e := KeptEntry(At(w.table, ip), now);
            && (ip in open <==> e.Some? && e.value.incomplete)
            && (ip in open ==> Matches(e.value, open[ip]))
  {
    ActionsAt(w.table, ip, now);
    if ip in w.open {
      assert Matches(At(w.table, ip).value, w.open[ip]);
    }
  }

  lemma {:induction false} FailedIsPaced(w: World, k: nat, now: int)
    requires Tracked(w) && k < |Failures(w.table, now)|
    ensures var ip := Failures(w.table, now)[k].ip;
            ip in w.open && EpisodePaced(Episode(ip, Requests(w.open, ip), true, now))
  {
    var ip := Failures(w.table, now)[k].ip;
    ActionsAt(w.table, ip, now);
    assert Open(w.table, ip) && ip in w.open;
    assert Matches(At(w.table, ip).value, w.open[ip]);
  }

  // ----- With a clock that does not go back -----

  ghost predicate LastBy(requests: seq<int>, time: int) {
    requests != [] && requests[|requests| - 1] <= time
  }

  ghost predicate OpenBy(open: map<nat, seq<int>>, clock: int) {
    forall ip :: ip in open ==> LastBy(open[ip], clock)
  }

  ghost predicate ClosedAfter(closed: seq<Episode>) {
    forall i :: 0 <= i < |closed| ==> LastBy(closed[i].requests, closed[i].ended)
  }

  /** No request lies in the future, and none was sent for an address after its resolution had ended. */
  ghost predicate InOrder(w: World, clock: int) {
    OpenBy(w.open, clock) && ClosedAfter(w.closed)
  }

  lemma OpenLater(open: map<nat, seq<int>>, ip: nat, clock: int, now: int)
    requires OpenBy(open, clock) && clock <= now
    ensures OpenBy(open, now) && OpenBy(open[ip := [now]], now) && OpenBy(open - {ip}, now)
  {
  }

  lemma MaintainedBy(open: map<nat, seq<int>>, rs: seq<Retry>, fs: seq<Failure>, clock: int, now: int)
    requires OpenBy(open, clock) && clock <= now
    ensures OpenBy(Maintained(open, rs, fs, now), now)
  {
  }

  lemma GivenUpAfter(open: map<nat, seq<int>>, fs: seq<Failure>, clock: int, now: int)
    requires OpenBy(open, clock) && clock <= now && forall k :: 0 <= k < |fs| ==> fs[k].ip in open
    ensures ClosedAfter(GivenUp(open, fs, now))
  {
  }

  lemma ClosedConcat(a: seq<Episode>, b: seq<Episode>)
    requires ClosedAfter(a) && ClosedAfter(b)
    ensures ClosedAfter(a + b)
  {
  }

  lemma {:induction false} StepKeepsInOrder(w: World, t: Timed, clock: int)
    requires Tracked(w) && InOrder(w, clock) && clock <= t.at
    ensures InOrder(Next(w, t), t.at)
  {
    match t.action
    case Resolve(ip, _, _, _) => OpenLater(w.open, ip, clock, t.at);
    case Arrive(ip, _, _, _) => ArriveKeepsInOrder(w, ip, clock, t);
    case Maintain => MaintainKeepsInOrder(w, clock, t);
    case Cleanup => OpenLater(w.open, 0, clock, t.at);
  }

  lemma ArriveKeepsInOrder(w: World, ip: nat, clock: int, t: Timed)
    requires InOrder(w, clock) && clock <= t.at && t.action.Arrive? && t.action.ip == ip
    ensures InOrder(Next(w, t), t.at)
  {
    OpenLater(w.open, ip, clock, t.at);
    if ip in w.open {
      assert LastBy(w.open[ip], clock);
      ClosedConcat(w.closed, [Episode(ip, w.open[ip], false, t.at)]);
    }
  }

  lemma MaintainKeepsInOrder(w: World, clock: int, t: Timed)
    requires Tracked(w) && InOrder(w, clock) && clock <= t.at && t.action == Maintain
    ensures InOrder(Next(w, t), t.at)
  {
    var fs := Failures(w.table, t.at);
    MaintainedBy(w.open, Retries(w.table, t.at), fs, clock, t.at);
    forall k | 0 <= k < |fs| ensures fs[k].ip in w.open {
      FailedIsPaced(w, k, t.at);
    }
    GivenUpAfter(w.open, fs, clock, t.at);
    ClosedConcat(w.closed, GivenUp(w.open, fs, t.at));
  }

  // ----- Main results -----

  /** In every run, whatever order the clock readings come in: addresses are unique and complete entries hold no packet; each
      accepted packet is still waiting, or was released once to a binding for its own address, or failed once; every
      resolution sends at most three requests, at least a second apart, and fails no earlier than three seconds after
      its first request. */
  lemma {:induction false} EveryRun(ts: seq<Timed>)
    ensures Conserved(Run(START, ts)) && Tracked(Run(START, ts))
    decreases |ts|
  {
    if ts != [] {
      var n := |ts| - 1;
      EveryRun(ts[..n]);
      StepConserves(Run(START, ts[..n]), ts[n]);
      StepKeepsTracked(Run(START, ts[..n]), ts[n]);
    }
  }

  /** Where the readings come in order, no address is asked for after its resolution has ended. */
  lemma {:induction false} OrderedRun(ts: seq<Timed>)
    requires Ordered(ts)
    ensures InOrder(Run(START, ts), if ts == [] then 0 else ts[|ts| - 1].at)
    decreases |ts|
  {
    if ts != [] {
      var n := |ts| - 1;
      OrderedRun(ts[..n]);
      EveryRun(ts[..n]);
      StepKeepsInOrder(Run(START, ts[..n]), ts[n], if n == 0 then ts[n].at else ts[n - 1].at);
    }
  }

  /** That needs the order: a caller that reads the clock, then waits for the lock while the reply is handled, ends it before
      its request. */
  lemma {:induction false} LateReader(ip: nat, mac: Mac, oif: nat, p: Pending)
    ensures var ts := [Timed(Resolve(ip, oif, p, None), 1), Timed(Arrive(ip, mac, oif, true), 0)];
            Run(START, ts).closed == [Episode(ip, [1], false, 0)]
  {
    var ts := [Timed(Resolve(ip, oif, p, None), 1), Timed(Arrive(ip, mac, oif, true), 0)];
    assert ts[..1] == [ts[0]] && ts[..1][..0] == [];
    assert Run(START, ts[..1]) == Next(START, ts[0]);
  }

  /** When every submitted packet is told apart, each accepted one is in exactly one place, once. */
  lemma {:induction false} ExactlyOnePlace(ts: seq<Timed>, i: nat)
    requires var a := Run(START, ts).accepted; i < |a| && forall j, k :: 0 <= j < k < |a| ==> a[j] != a[k]
    ensures var w := Run(START, ts);
            var x := w.accepted[i];
            Waiting(w.table)[x] + multiset(w.released)[x] + multiset(w.failed)[x] == 1
  {
    EveryRun(ts);
    DistinctCountsOnce(Run(START, ts).accepted, i);
  }

  lemma {:induction false} DistinctCountsOnce<T>(s: seq<T>, i: nat)
    requires i < |s| && forall j, k :: 0 <= j < k < |s| ==> s[j] != s[k]
    ensures multiset(s)[s[i]] == 1
  {
    assert s == s[..i] + [s[i]] + s[i + 1..];
    assert s[i] !in s[..i] && s[i] !in s[i + 1..];
  }

  /** A maintenance pass leaves nothing overdue, and drops nothing that is not. */
  lemma {:induction false} MaintenanceLeavesNothingOverdue(es: seq<Entry>, now: int)
    requires Valid(es)
    ensures forall k :: 0 <= k < |Kept(es, now)| && Kept(es, now)[k].incomplete ==> now - Kept(es, now)[k].createdAt < 3000
    ensures forall i :: 0 <= i < |es| ==>
              (IndexOf(Kept(es, now), es[i].ip) == None <==> es[i].incomplete && now - es[i].createdAt >= 3000)
  {
    KeptAt(es, now);
    var ks := Kept(es, now);
    forall k | 0 <= k < |ks| && ks[k].incomplete ensures now - ks[k].createdAt < 3000 {
      AtIs(ks, k);
    }
    forall i | 0 <= i < |es| ensures IndexOf(ks, es[i].ip) == None <==> TimedOut(es[i], now) {
      AtIs(es, i);
    }
  }
}
