/** The MAC table of a switch: a list of learned entries, newest first, updated in place. */
module MacTables {
  import opened Wrappers
  import opened StpVector

  // Times are in seconds.
  const MAC_TABLE_ENTRY_TIMEOUT: nat := 300
  const MAC_TABLE_REFRESH_THRESHOLD: nat := 30

  datatype MacEntry = MacEntry(mac: Mac, vlan: nat, port: nat, createdAt: nat, updatedAt: nat)

  /** No address and VLAN has two entries. */
  predicate UniqueKeys(es: seq<MacEntry>) {
    forall i, j :: 0 <= i < j < |es| ==> es[i].mac != es[j].mac || es[i].vlan != es[j].vlan
  }

  /** The port learned for an address and VLAN: the first match in the list. */
  function Find(es: seq<MacEntry>, mac: Mac, vlan: nat): Option<nat> {
    if es == [] then None
    else if es[0].mac == mac && es[0].vlan == vlan then Some(es[0].port)
    else Find(es[1..], mac, vlan)
  }

  lemma {:induction false} FindFirst(es: seq<MacEntry>, mac: Mac, vlan: nat, i: nat)
    requires i < |es| && es[i].mac == mac && es[i].vlan == vlan
    requires forall j :: 0 <= j < i ==> es[j].mac != mac || es[j].vlan != vlan
    ensures Find(es, mac, vlan) == Some(es[i].port)
  {
    if i > 0 {
      FindFirst(es[1..], mac, vlan, i - 1);
    }
  }

  lemma {:induction false} FindNone(es: seq<MacEntry>, mac: Mac, vlan: nat)
    requires forall j :: 0 <= j < |es| ==> es[j].mac != mac || es[j].vlan != vlan
    ensures Find(es, mac, vlan) == None
  {
    if es != [] {
      FindNone(es[1..], mac, vlan);
    }
  }

  /** The entries that stay when those on the given ports are flushed. */
  function OffPorts(es: seq<MacEntry>, ports: set<nat>): seq<MacEntry> {
    if es == [] then []
    else (if es[0].port in ports then [] else [es[0]]) + OffPorts(es[1..], ports)
  }

  /** The entries still young enough at time now. */
  function Unexpired(es: seq<MacEntry>, now: int): seq<MacEntry> {
    if es == [] then []
    else (if now - es[0].updatedAt > MAC_TABLE_ENTRY_TIMEOUT then [] else [es[0]]) + Unexpired(es[1..], now)
  }

  lemma {:induction false} OffNoPorts(es: seq<MacEntry>)
    ensures OffPorts(es, {}) == es
  {
    if es != [] {
      OffNoPorts(es[1..]);
    }
  }

  lemma {:induction false} OffPortsTwice(es: seq<MacEntry>, a: set<nat>, b: set<nat>)
    ensures OffPorts(OffPorts(es, a), b) == OffPorts(es, a + b)
  {
    if es != [] {
      OffPortsTwice(es[1..], a, b);
      var rest := OffPorts(es[1..], a);
      assert [] + rest == rest && ([es[0]] + rest)[1..] == rest;
    }
  }

  lemma {:induction false} OffPortsKeeps(es: seq<MacEntry>, ports: set<nat>)
    ensures forall e :: e in OffPorts(es, ports) <==> e in es && e.port !in ports
    ensures UniqueKeys(es) ==> UniqueKeys(OffPorts(es, ports))
  {
    if es != [] {
      OffPortsKeeps(es[1..], ports);
      assert es == [es[0]] + es[1..];
    }
  }

  lemma {:induction false} UnexpiredKeeps(es: seq<MacEntry>, now: int)
    ensures forall e :: e in Unexpired(es, now) <==> e in es && now - e.updatedAt <= 300
    ensures UniqueKeys(es) ==> UniqueKeys(Unexpired(es, now))
  {
    if es != [] {
      UnexpiredKeeps(es[1..], now);
      assert es == [es[0]] + es[1..];
    }
  }

  lemma {:induction false} OffPortsStep(es: seq<MacEntry>, i: nat, ports: set<nat>)
    requires i < |es|
    ensures OffPorts(es[..i + 1], ports) == OffPorts(es[..i], ports) + (if es[i].port in ports then [] else [es[i]])
  {
    assert es[..i + 1][0] == es[0];
    if i > 0 {
      OffPortsStep(es[1..], i - 1, ports);
      assert es[..i + 1][1..] == es[1..][..i] && es[..i][1..] == es[1..][..i - 1];
    }
  }

  lemma {:induction false} UnexpiredStep(es: seq<MacEntry>, i: nat, now: int)
    requires i < |es|
    ensures Unexpired(es[..i + 1], now)
         == Unexpired(es[..i], now) + (if now - es[i].updatedAt > MAC_TABLE_ENTRY_TIMEOUT then [] else [es[i]])
  {
    assert es[..i + 1][0] == es[0];
    if i > 0 {
      UnexpiredStep(es[1..], i - 1, now);
      assert es[..i + 1][1..] == es[1..][..i] && es[..i][1..] == es[1..][..i - 1];
    }
  }

  /** Learning at time now: a known address moves or, once old enough, is refreshed; a new one goes in front. */
  function Learned(es: seq<MacEntry>, mac: Mac, vlan: nat, port: nat, now: nat): seq<MacEntry> {
    match IndexOf(es, mac, vlan)
    case None => [MacEntry(mac, vlan, port, now, now)] + es
    case Some(i) =>
      if es[i].port != port || now - es[i].updatedAt >= MAC_TABLE_REFRESH_THRESHOLD
      then es[i := es[i].(port := port, updatedAt := now)]
      else es
  }

  function IndexOf(es: seq<MacEntry>, mac: Mac, vlan: nat): (r: Option<nat>)
    ensures r == None ==> forall i :: 0 <= i < |es| ==> es[i].mac != mac || es[i].vlan != vlan
    ensures r.Some? ==> r.value < |es| && es[r.value].mac == mac && es[r.value].vlan == vlan
    ensures r.Some? ==> forall i :: 0 <= i < r.value ==> es[i].mac != mac || es[i].vlan != vlan
  {
    if es == [] then None
    else if es[0].mac == mac && es[0].vlan == vlan then Some(0)
    else
      var r := IndexOf(es[1..], mac, vlan);
      if r == None then None
      else
        assert es[1..][r.value] == es[r.value + 1];
        Some(r.value + 1)
  }

  /** Learning sets the port of the one address and VLAN, and of no other. */
  lemma LearnedSetsOne(es: seq<MacEntry>, mac: Mac, vlan: nat, port: nat, now: nat, mac': Mac, vlan': nat)
    requires UniqueKeys(es)
    ensures UniqueKeys(Learned(es, mac, vlan, port, now))
    ensures Find(Learned(es, mac, vlan, port, now), mac', vlan')
         == if mac' == mac && vlan' == vlan then Some(port) else Find(es, mac', vlan')
  {
    var r := Learned(es, mac, vlan, port, now);
    match IndexOf(es, mac, vlan)
    case None => assert r[1..] == es;
    case Some(i) =>
      FindFirst(es, mac, vlan, i);
      FindFirst(r, mac, vlan, i);
      if mac' != mac || vlan' != vlan {
        FindSameKeys(es, r, i, mac', vlan');
      }
  }

  lemma {:induction false} FindSameKeys(es: seq<MacEntry>, r: seq<MacEntry>, i: nat, mac: Mac, vlan: nat)
    requires i < |es| == |r| && r == es[i := r[i]] && r[i].mac == es[i].mac && r[i].vlan == es[i].vlan
    requires es[i].mac != mac || es[i].vlan != vlan
    ensures Find(r, mac, vlan) == Find(es, mac, vlan)
  {
    if i == 0 {
      assert r[1..] == es[1..];
    } else {
      FindSameKeys(es[1..], r[1..], i - 1, mac, vlan);
    }
  }

  lemma {:induction false} FindAmong(es: seq<MacEntry>, mac: Mac, vlan: nat, e: MacEntry)
    requires UniqueKeys(es) && e in es && e.mac == mac && e.vlan == vlan
    ensures Find(es, mac, vlan) == Some(e.port)
  {
    var i :| 0 <= i < |es| && es[i] == e;
    FindFirst(es, mac, vlan, i);
  }

  /** An address stays known for four and a half minutes after each frame that was learned from, since its entry is refreshed
      when it is half a minute old; and for no longer than five minutes after the last. */
  lemma HeardIsKept(es: seq<MacEntry>, mac: Mac, vlan: nat, port: nat, now: nat, later: nat)
    requires UniqueKeys(es) && forall i :: 0 <= i < |es| ==> es[i].updatedAt <= now
    ensures later <= now + 270 ==> Find(Unexpired(Learned(es, mac, vlan, port, now), later), mac, vlan) == Some(port)
    ensures later > now + 300 ==> Find(Unexpired(Learned(es, mac, vlan, port, now), later), mac, vlan) == None
  {
    var r := Learned(es, mac, vlan, port, now);
    LearnedSetsOne(es, mac, vlan, port, now, mac, vlan);
    UnexpiredKeeps(r, later);
    var e := r[match IndexOf(es, mac, vlan) case None => 0 case Some(i) => i];
    if later <= now + 270 {
      FindAmong(Unexpired(r, later), mac, vlan, e);
    } else if later > now + 300 {
      assert forall i :: 0 <= i < |r| ==> r[i].updatedAt <= now;
      FindNone(Unexpired(r, later), mac, vlan);
    }
  }

  class MacTable {
    var entries: seq<MacEntry>

    ghost predicate Valid()
      reads this
    {
      UniqueKeys(entries)
    }

    constructor ()
      ensures Valid() && entries == []
    {
      entries := [];
    }

    method Lookup(mac: Mac, vlan: nat) returns (r: Option<nat>)
      ensures r == Find(entries, mac, vlan)
    {
      var i := 0;
      while i < |entries|
        invariant 0 <= i <= |entries|
        invariant forall j :: 0 <= j < i ==> entries[j].mac != mac || entries[j].vlan != vlan
      {
        if entries[i].mac == mac && entries[i].vlan == vlan {
          FindFirst(entries, mac, vlan, i);
          return Some(entries[i].port);
        }
        i := i + 1;
      }
      FindNone(entries, mac, vlan);
      r := None;
    }

    method AddOrUpdate(mac: Mac, vlan: nat, port: nat, now: nat) returns (changed: bool)
      requires Valid()
      modifies this
      ensures Valid() && entries == Learned(old(entries), mac, vlan, port, now)
      ensures changed <==> entries != old(entries)
      ensures forall m, v :: Find(entries, m, v) == if m == mac && v == vlan then Some(port) else Find(old(entries), m, v)
    {
      forall m, v
        ensures Find(Learned(entries, mac, vlan, port, now), m, v) == if m == mac && v == vlan then Some(port) else Find(entries, m, v)
      {
        LearnedSetsOne(entries, mac, vlan, port, now, m, v);
      }
      LearnedSetsOne(entries, mac, vlan, port, now, mac, vlan);
      var i := 0;
      while i < |entries|
        invariant 0 <= i <= |entries|
        invariant forall j :: 0 <= j < i ==> entries[j].mac != mac || entries[j].vlan != vlan
        invariant entries == old(entries)
      {
        if entries[i].mac == mac && entries[i].vlan == vlan {
          assert IndexOf(entries, mac, vlan) == Some(i);
          if entries[i].port != port || now - entries[i].updatedAt >= MAC_TABLE_REFRESH_THRESHOLD {
            entries := entries[i := entries[i].(port := port, updatedAt := now)];
            return true;
          }
          return false;
        }
        i := i + 1;
      }
      assert IndexOf(entries, mac, vlan) == None;
      entries := [MacEntry(mac, vlan, port, now, now)] + entries;
      changed := true;
    }

    /** Drops every entry; the spanning tree asks for it on a topology change notification. */
    method Flush() returns (removed: nat)
      modifies this
      ensures entries == [] && removed == |old(entries)|
    {
      removed := |entries|;
      entries := [];
    }

    /** Drops the entries learned on one port, keeping the order of the rest. */
    method FlushInterface(port: nat) returns (removed: nat)
      requires Valid()
      modifies this
      ensures Valid() && entries == OffPorts(old(entries), {port})
      ensures removed == |old(entries)| - |entries|
    {
      OffPortsKeeps(entries, {port});
      var i, kept := 0, [];
      removed := 0;
      while i < |entries|
        invariant 0 <= i <= |entries| && entries == old(entries)
        invariant kept == OffPorts(entries[..i], {port}) && removed == i - |kept|
      {
        OffPortsStep(entries, i, {port});
        if entries[i].port == port {
          removed := removed + 1;
        } else {
          kept := kept + [entries[i]];
        }
        i := i + 1;
      }
      assert entries[..i] == entries;
      entries := kept;
    }

    /** Drops the entries not refreshed for longer than the timeout. */
    method CleanupExpired(now: nat) returns (removed: nat)
      requires Valid()
      modifies this
      ensures Valid() && entries == Unexpired(old(entries), now)
      ensures removed == |old(entries)| - |entries|
    {
      UnexpiredKeeps(entries, now);
      var i, kept := 0, [];
      removed := 0;
      while i < |entries|
        invariant 0 <= i <= |entries| && entries == old(entries)
        invariant kept == Unexpired(entries[..i], now) && removed == i - |kept|
      {
        UnexpiredStep(entries, i, now);
        if now - entries[i].updatedAt > MAC_TABLE_ENTRY_TIMEOUT {
          removed := removed + 1;
        } else {
          kept := kept + [entries[i]];
        }
        i := i + 1;
      }
      assert entries[..i] == entries;
      entries := kept;
    }
  }
}
