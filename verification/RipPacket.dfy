/** RIP version 2 packets (section 4 of RFC 2453): a four-byte header and twenty bytes for each entry. */
module RipPacket {
  import opened Bytes
  import opened Rip
  import opened Wrappers

  const HEADER_SIZE: nat := 4
  const ENTRY_SIZE: nat := 20

  datatype Packet = Packet(command: byte, version: byte, zero: uint16, entries: seq<RipEntry>)

  datatype PacketError = TooShort

  function PutEntry(e: RipEntry): (r: seq<byte>)
    ensures |r| == ENTRY_SIZE
  {
    Put16(e.family) + Put16(e.tag) + Put32(e.address) + Put32(e.subnet) + Put32(e.nextHop) + Put32(e.metric)
  }

  function GetEntry(s: seq<byte>): RipEntry
    requires |s| == ENTRY_SIZE
  {
    RipEntry(Get16(s[..2]), Get16(s[2..4]), Get32(s[4..8]), Get32(s[8..12]), Get32(s[12..16]), Get32(s[16..20]))
  }

  function PutEntries(es: seq<RipEntry>): (r: seq<byte>)
    ensures |r| == ENTRY_SIZE * |es|
  {
    if es == [] then [] else PutEntry(es[0]) + PutEntries(es[1..])
  }

  /** As many whole entries as there are. */
  function GetEntries(s: seq<byte>): seq<RipEntry> {
    if |s| < ENTRY_SIZE then [] else [GetEntry(s[..ENTRY_SIZE])] + GetEntries(s[ENTRY_SIZE..])
  }

  function Serialized(p: Packet): seq<byte> {
    [p.command, p.version] + Put16(p.zero) + PutEntries(p.entries)
  }

  /** Where each field of an entry starts, most significant byte first. */
  lemma EntryLayout(e: RipEntry)
    ensures var s := PutEntry(e);
            && Get16(s[0..2]) == e.family && Get16(s[2..4]) == e.tag && Get32(s[4..8]) == e.address
            && Get32(s[8..12]) == e.subnet && Get32(s[12..16]) == e.nextHop && Get32(s[16..20]) == e.metric
  {
    var s := PutEntry(e);
    assert s[0..2] == Put16(e.family) && s[2..4] == Put16(e.tag) && s[4..8] == Put32(e.address);
    assert s[8..12] == Put32(e.subnet) && s[12..16] == Put32(e.nextHop) && s[16..20] == Put32(e.metric);
  }

  /** Command, version and zero, then the entries, twenty bytes each. */
  lemma PacketLayout(p: Packet, i: nat)
    requires i < |p.entries|
    ensures var s := Serialized(p);
            && |s| == 4 + 20 * |p.entries| && s[0] == p.command && s[1] == p.version && s[2..4] == Put16(p.zero)
            && s[4 + 20 * i..24 + 20 * i] == PutEntry(p.entries[i])
  {
    EntryPlace(p.entries, i);
    var rest := PutEntries(p.entries);
    assert Serialized(p)[4 + 20 * i..24 + 20 * i] == rest[20 * i..20 * i + 20];
    assert Serialized(p)[2..4] == Put16(p.zero);
  }

  lemma {:induction false} EntryPlace(es: seq<RipEntry>, i: nat)
    requires i < |es|
    ensures PutEntries(es)[20 * i..20 * i + 20] == PutEntry(es[i])
  {
    if i > 0 {
      EntryPlace(es[1..], i - 1);
      assert PutEntries(es)[20 * i..20 * i + 20] == PutEntries(es[1..])[20 * (i - 1)..20 * (i - 1) + 20];
    }
  }

  lemma {:induction false} EntryRoundTrip(e: RipEntry)
    ensures GetEntry(PutEntry(e)) == e
  {
    var s := PutEntry(e);
    assert s[..2] == Put16(e.family) && s[2..4] == Put16(e.tag) && s[4..8] == Put32(e.address);
    assert s[8..12] == Put32(e.subnet) && s[12..16] == Put32(e.nextHop) && s[16..20] == Put32(e.metric);
  }

  lemma {:induction false} EntryBytes(s: seq<byte>)
    requires |s| == ENTRY_SIZE
    ensures PutEntry(GetEntry(s)) == s
  {
    Put16OfGet16(s[..2]);
    Put16OfGet16(s[2..4]);
    Put32OfGet32(s[4..8]);
    Put32OfGet32(s[8..12]);
    Put32OfGet32(s[12..16]);
    Put32OfGet32(s[16..20]);
    assert s == s[..2] + s[2..4] + s[4..8] + s[8..12] + s[12..16] + s[16..20];
  }

  lemma {:induction false} EntriesRoundTrip(es: seq<RipEntry>, padding: seq<byte>)
    requires |padding| < ENTRY_SIZE
    ensures GetEntries(PutEntries(es) + padding) == es
  {
    if es != [] {
      var first, rest := PutEntry(es[0]), PutEntries(es[1..]) + padding;
      assert PutEntries(es) + padding == first + rest;
      assert (first + rest)[..ENTRY_SIZE] == first && (first + rest)[ENTRY_SIZE..] == rest;
      EntryRoundTrip(es[0]);
      EntriesRoundTrip(es[1..], padding);
    }
  }

  lemma {:induction false} EntriesBytes(s: seq<byte>)
    ensures PutEntries(GetEntries(s)) <= s && |s| - |PutEntries(GetEntries(s))| < ENTRY_SIZE
  {
    if |s| >= ENTRY_SIZE {
      EntryBytes(s[..ENTRY_SIZE]);
      EntriesBytes(s[ENTRY_SIZE..]);
      var es := GetEntries(s);
      assert es[1..] == GetEntries(s[ENTRY_SIZE..]);
      assert s == s[..ENTRY_SIZE] + s[ENTRY_SIZE..];
    }
  }

  function Parsed(buf: seq<byte>): Result<Packet, PacketError> {
    if |buf| < HEADER_SIZE then Err(TooShort)
    else Ok(Packet(buf[0], buf[1], Get16(buf[2..4]), GetEntries(buf[HEADER_SIZE..])))
  }

  lemma {:induction false} PutNext(head: seq<byte>, es: seq<RipEntry>, i: nat)
    requires i < |es|
    ensures head + PutEntries(es[i..]) == (head + PutEntry(es[i])) + PutEntries(es[i + 1..])
  {
    assert es[i..][0] == es[i] && es[i..][1..] == es[i + 1..];
  }

  method Copy(buf: array<byte>, at: nat, bytes: seq<byte>)
    requires at + |bytes| <= buf.Length
    modifies buf
    ensures buf[..at] == old(buf[..at]) && buf[..at + |bytes|] == buf[..at] + bytes
  {
    forall k | 0 <= k < |bytes| {
      buf[at + k] := bytes[k];
    }
  }

  /** Fills a buffer of the right size, entry after entry. */
  method SerializeRIPPacket(p: Packet) returns (buf: array<byte>)
    ensures fresh(buf) && buf[..] == Serialized(p)
  {
    buf := new byte[HEADER_SIZE + |p.entries| * ENTRY_SIZE](_ => 0);
    buf[0], buf[1] := p.command, p.version;
    Copy(buf, 2, Put16(p.zero));
    assert buf[..HEADER_SIZE] == [p.command, p.version] + Put16(p.zero);
    CopyEntries(buf, p.entries);
    assert buf[..] == buf[..HEADER_SIZE + ENTRY_SIZE * |p.entries|];
  }

  method CopyEntries(buf: array<byte>, es: seq<RipEntry>)
    requires buf.Length == HEADER_SIZE + ENTRY_SIZE * |es|
    modifies buf
    ensures buf[..] == old(buf[..HEADER_SIZE]) + PutEntries(es)
  {
    var offset := HEADER_SIZE;
    var i := 0;
    ghost var goal := buf[..HEADER_SIZE] + PutEntries(es);
    assert es[0..] == es;
    while i < |es|
      invariant 0 <= i <= |es| && offset == HEADER_SIZE + ENTRY_SIZE * i
      invariant buf[..offset] + PutEntries(es[i..]) == goal
    {
      ghost var head := buf[..offset];
      PutNext(head, es, i);
      var bytes := PutEntry(es[i]);
      Copy(buf, offset, bytes);
      assert buf[..offset + ENTRY_SIZE] == head + bytes;
      offset := offset + ENTRY_SIZE;
      i := i + 1;
    }
    assert buf[..offset] == buf[..];
  }

  method DeserializeRIPPacket(buf: seq<byte>) returns (r: Result<Packet, PacketError>)
    ensures r == Parsed(buf)
  {
    if |buf| < HEADER_SIZE {
      return Err(TooShort);
    }
    var entries := [];
    var offset := HEADER_SIZE;
    while offset + ENTRY_SIZE <= |buf|
      invariant HEADER_SIZE <= offset <= |buf|
      invariant GetEntries(buf[HEADER_SIZE..]) == entries + GetEntries(buf[offset..])
    {
      ghost var rest := buf[offset..];
      assert rest[..ENTRY_SIZE] == buf[offset..offset + ENTRY_SIZE] && rest[ENTRY_SIZE..] == buf[offset + ENTRY_SIZE..];
      entries := entries + [GetEntry(buf[offset..offset + ENTRY_SIZE])];
      offset := offset + ENTRY_SIZE;
    }
    assert GetEntries(buf[offset..]) == [] && entries + [] == entries;
    return Ok(Packet(buf[0], buf[1], Get16(buf[2..4]), entries));
  }

  /** Parsing what was serialized, padded with less than an entry, gives the packet back. */
  lemma {:induction false} PacketRoundTrip(p: Packet, padding: seq<byte>)
    requires |padding| < ENTRY_SIZE
    ensures Parsed(Serialized(p) + padding) == Ok(p)
  {
    var buf := Serialized(p) + padding;
    assert buf[2..4] == Put16(p.zero) && buf[HEADER_SIZE..] == PutEntries(p.entries) + padding;
    EntriesRoundTrip(p.entries, padding);
  }

  /** A parsed packet is its bytes, up to a remainder shorter than an entry. */
  lemma {:induction false} ParsedIsItsBytes(buf: seq<byte>)
    requires Parsed(buf).Ok?
    ensures var s := Serialized(Parsed(buf).value); s <= buf && |buf| - |s| < ENTRY_SIZE
  {
    Put16OfGet16(buf[2..4]);
    EntriesBytes(buf[HEADER_SIZE..]);
    var rest := PutEntries(GetEntries(buf[HEADER_SIZE..]));
    assert buf == [buf[0], buf[1]] + buf[2..4] + buf[HEADER_SIZE..];
    assert Serialized(Parsed(buf).value) == [buf[0], buf[1]] + buf[2..4] + rest;
  }
}
