/** The ARP table: resolving or queueing packets, learning bindings, retrying requests and giving up. */
module Arp {
  import opened Wrappers
  import opened StpVector

  // Times are in milliseconds.
  const ARP_ENTRY_TIMEOUT: int := 60000
  const ARP_REQUEST_RETRY_INTERVAL: int := 1000
  const ARP_REQUEST_MAX_ATTEMPTS: nat := 3
  const ARP_PENDING_TIMEOUT: int := 3000

  /** A queued packet, with the callbacks it was given. */
  datatype Pending = Pending(packet: nat, callback: Option<nat>, failureCallback: Option<nat>)

  /** An entry is incomplete while its address is being resolved. The pending list is newest first. */
  datatype Entry = Entry(
    ip: nat, mac: Mac, oif: nat, incomplete: bool, createdAt: int, updatedAt: int,
    pending: seq<Pending>, retry: Option<nat>, requests: nat)

  datatype Retry = Retry(ip: nat, oif: nat, attempt: nat, retry: Option<nat>)

  datatype Failure = Failure(ip: nat, oif: nat, attempts: nat, pendingCount: nat, callbacks: seq<nat>)

  const UNSET_MAC: Mac := [0, 0, 0, 0, 0, 0]

  // ----- The table as a value -----

  function IndexOf(es: seq<Entry>, ip: nat): (r: Option<nat>)
    ensures r == None ==> forall i :: 0 <= i < |es| ==> es[i].ip != ip
    ensures r.Some? ==> r.value < |es| && es[r.value].ip == ip && forall i :: 0 <= i < r.value ==> es[i].ip != ip
  {
    if es == [] then None
    else if es[0].ip == ip then Some(0)
    else
      var r := IndexOf(es[1..], ip);
      if r == None then None
      else
        assert es[1..][r.value] == es[r.value + 1];
        Some(r.value + 1)
  }

  predicate Valid(es: seq<Entry>) {
    && (forall i, j :: 0 <= i < j < |es| ==> es[i].ip != es[j].ip)
    && (forall i :: 0 <= i < |es| ==> if es[i].incomplete then 1 <= es[i].requests <= ARP_REQUEST_MAX_ATTEMPTS else es[i].pending == [])
  }

  function Fresh(ip: nat, oif: nat, p: Pending, retry: Option<nat>, now: int): Entry {
    Entry(ip, UNSET_MAC, oif, true, now, now, [p], retry, 1)
  }

  function Queue(es: seq<Entry>, ip: nat, oif: nat, p: Pending, retry: Option<nat>, now: int): seq<Entry> {
    match IndexOf(es, ip)
    case None => [Fresh(ip, oif, p, retry, now)] + es
    case Some(i) =>
      if !es[i].incomplete then es
      else es[i := es[i].(pending := [p] + es[i].pending, retry := if es[i].retry == None then retry else es[i].retry)]
  }

  function Learn(es: seq<Entry>, ip: nat, mac: Mac, oif: nat, existingOnly: bool, now: int): seq<Entry> {
    match IndexOf(es, ip)
    case None => if existingOnly then es else [Entry(ip, mac, oif, false, now, now, [], None, 0)] + es
    case Some(i) =>
      es[i := es[i].(mac := mac, incomplete := false, updatedAt := now, oif := oif, pending := [], retry := None)]
  }

  function Released(es: seq<Entry>, ip: nat): seq<Pending> {
    match IndexOf(es, ip) case None => [] case Some(i) => es[i].pending
  }

  /** What a lookup of the address answers. */
  function Resolved(es: seq<Entry>, ip: nat): Option<Mac> {
    match IndexOf(es, ip) case None => None case Some(i) => if es[i].incomplete then None else Some(es[i].mac)
  }

  // ----- Maintenance, entry by entry -----

  predicate TimedOut(e: Entry, now: int) {
    e.incomplete && now - e.createdAt >= ARP_PENDING_TIMEOUT
  }

  predicate RetryDue(e: Entry, now: int) {
    && e.incomplete && !TimedOut(e, now)
    && e.requests < ARP_REQUEST_MAX_ATTEMPTS
    && now - e.updatedAt >= ARP_REQUEST_RETRY_INTERVAL
  }

  function Retried(e: Entry, now: int): Entry {
    if RetryDue(e, now) then e.(requests := e.requests + 1, updatedAt := now) else e
  }

  function FailureCallbacks(ps: seq<Pending>): seq<nat> {
    if ps == [] then []
    else
      var p := ps[|ps| - 1];
      if p.failureCallback.Some? then FailureCallbacks(ps[..|ps| - 1]) + [p.failureCallback.value] else FailureCallbacks(ps[..|ps| - 1])
  }

  function FailureOf(e: Entry): Failure {
    Failure(e.ip, e.oif, e.requests, |e.pending|, FailureCallbacks(e.pending))
  }

  function Kept(es: seq<Entry>, now: int): seq<Entry> {
    if es == [] then []
    else
      var e := es[|es| - 1];
      if TimedOut(e, now) then Kept(es[..|es| - 1], now) else Kept(es[..|es| - 1], now) + [Retried(e, now)]
  }

  function Retries(es: seq<Entry>, now: int): seq<Retry> {
    if es == [] then []
    else
      var e := es[|es| - 1];
      if RetryDue(e, now) then Retries(es[..|es| - 1], now) + [Retry(e.ip, e.oif, e.requests + 1, e.retry)] else Retries(es[..|es| - 1], now)
  }

  function Failures(es: seq<Entry>, now: int): seq<Failure> {
    if es == [] then []
    else
      var e := es[|es| - 1];
      if TimedOut(e, now) then Failures(es[..|es| - 1], now) + [FailureOf(e)] else Failures(es[..|es| - 1], now)
  }

  predicate Stale(e: Entry, now: int) {
    !e.incomplete && now - e.updatedAt > ARP_ENTRY_TIMEOUT
  }

  function Cleaned(es: seq<Entry>, now: int): seq<Entry> {
    if es == [] then []
    else
      var e := es[|es| - 1];
      if Stale(e, now) then Cleaned(es[..|es| - 1], now) else Cleaned(es[..|es| - 1], now) + [e]
  }

  class ArpTable {
    var entries: seq<Entry>

    constructor ()
      ensures entries == []
    {
      entries := [];
    }

    method Lookup(ip: nat) returns (mac: Option<Mac>)
      requires Valid(entries)
      ensures mac == Resolved(entries, ip)
    {
      mac := None;
      var i := 0;
      while i < |entries|
        invariant 0 <= i <= |entries|
        invariant forall j :: 0 <= j < i ==> entries[j].ip != ip || entries[j].incomplete
      {
        if entries[i].ip == ip && !entries[i].incomplete {
          return Some(entries[i].mac);
        }
        i := i + 1;
      }
    }

    /** Looks up a complete binding, or queues the packet on an incomplete one, creating it when there is none.
        Only the creator is told to send the first request. */
    method ResolveOrQueue(ip: nat, oif: nat, p: Pending, size: int, length: nat, retry: Option<nat>, now: int)
      returns (mac: Option<Mac>, requestNeeded: bool, queued: bool)
      requires Valid(entries)
      modifies this
      ensures Valid(entries)
      ensures !(0 < size <= length) ==> entries == old(entries) && mac == None && !requestNeeded && !queued
      ensures 0 < size <= length ==>
                && entries == Queue(old(entries), ip, oif, p, retry, now)
                && (requestNeeded <==> IndexOf(old(entries), ip) == None)
                && (mac.Some? <==> !queued) && mac == Resolved(old(entries), ip)
    {
      if size <= 0 || size > length {
        return None, false, false;
      }
      var i := 0;
      while i < |entries|
        invariant 0 <= i <= |entries| && entries == old(entries)
        invariant forall j :: 0 <= j < i ==> entries[j].ip != ip
      {
        if entries[i].ip == ip {
          assert IndexOf(entries, ip) == Some(i);
          var e := entries[i];
          if !e.incomplete {
            return Some(e.mac), false, false;
          }
          entries := entries[i := e.(pending := [p] + e.pending, retry := if e.retry == None then retry else e.retry)];
          return None, false, true;
        }
        i := i + 1;
      }
      assert IndexOf(entries, ip) == None;
      entries := [Entry(ip, UNSET_MAC, oif, true, now, now, [p], retry, 1)] + entries;
      return None, true, true;
    }

    /** Installs a binding and takes the packets that were waiting for it. */
    method LearnBinding(ip: nat, mac: Mac, oif: nat, existingOnly: bool, now: int) returns (released: seq<Pending>)
      requires Valid(entries)
      modifies this
      ensures Valid(entries)
      ensures entries == Learn(old(entries), ip, mac, oif, existingOnly, now)
      ensures released == Released(old(entries), ip)
    {
      var i := 0;
      while i < |entries| && entries[i].ip != ip
        invariant 0 <= i <= |entries| && entries == old(entries)
        invariant forall j :: 0 <= j < i ==> entries[j].ip != ip
      {
        i := i + 1;
      }
      if i == |entries| {
        assert IndexOf(entries, ip) == None;
        if !existingOnly {
          entries := [Entry(ip, mac, oif, false, now, now, [], None, 0)] + entries;
        }
        return [];
      }
      assert IndexOf(entries, ip) == Some(i);
      released := entries[i].pending;
      entries := entries[i := entries[i].(mac := mac, incomplete := false, updatedAt := now, oif := oif, pending := [], retry := None)];
    }

    /** Advances every incomplete entry to time now: retry, fail or leave alone. */
    method CollectPendingActions(now: int) returns (retries: seq<Retry>, failures: seq<Failure>)
      modifies this
      ensures entries == Kept(old(entries), now)
      ensures retries == Retries(old(entries), now) && failures == Failures(old(entries), now)
    {
      retries, failures := [], [];
      var i, kept := 0, [];
      while i < |entries|
        invariant 0 <= i <= |entries| && entries == old(entries)
        invariant kept == Kept(entries[..i], now)
        invariant retries == Retries(entries[..i], now) && failures == Failures(entries[..i], now)
      {
        var e := entries[i];
        assert entries[..i + 1][..i] == entries[..i];
        if !e.incomplete {
          kept := kept + [e];
        } else if now - e.createdAt >= ARP_PENDING_TIMEOUT {
          var callbacks := CollectCallbacks(e.pending);
          failures := failures + [Failure(e.ip, e.oif, e.requests, |e.pending|, callbacks)];
        } else {
          if e.requests < ARP_REQUEST_MAX_ATTEMPTS && now - e.updatedAt >= ARP_REQUEST_RETRY_INTERVAL {
            e := e.(requests := e.requests + 1, updatedAt := now);
            retries := retries + [Retry(e.ip, e.oif, e.requests, e.retry)];
          }
          kept := kept + [e];
        }
        i := i + 1;
      }
      assert entries[..i] == entries;
      entries := kept;
    }

    static method CollectCallbacks(ps: seq<Pending>) returns (callbacks: seq<nat>)
      ensures callbacks == FailureCallbacks(ps)
    {
      callbacks := [];
      var i := 0;
      while i < |ps|
        invariant 0 <= i <= |ps| && callbacks == FailureCallbacks(ps[..i])
      {
        assert ps[..i + 1][..i] == ps[..i];
        if ps[i].failureCallback.Some? {
          callbacks := callbacks + [ps[i].failureCallback.value];
        }
        i := i + 1;
      }
      assert ps[..i] == ps;
    }

    /** Drops the complete entries not updated for longer than the timeout. */
    method CleanupExpired(now: int) returns (removed: nat)
      modifies this
      ensures entries == Cleaned(old(entries), now) && removed == |old(entries)| - |entries|
    {
      removed := 0;
      var i, kept := 0, [];
      while i < |entries|
        invariant 0 <= i <= |entries| && entries == old(entries)
        invariant kept == Cleaned(entries[..i], now) && removed == i - |kept|
      {
        assert entries[..i + 1][..i] == entries[..i];
        if !entries[i].incomplete && now - entries[i].updatedAt > ARP_ENTRY_TIMEOUT {
          removed := removed + 1;
        } else {
          kept := kept + [entries[i]];
        }
        i := i + 1;
      }
      assert entries[..i] == entries;
      entries := kept;
    }
  }
}
