/** 802.1Q tagging on switch ports: which VLAN a frame belongs to, and that it stays in it from switch to switch. */
module Vlan {
  import opened Bytes
  import opened Wrappers

  const TPID: uint16 := 0x8100
  const VLAN_MIN: uint16 := 1
  const VLAN_MAX: uint16 := 4094
  const VLAN_DEFAULT: uint16 := 1
  const ETHERNET_HDR_SIZE: nat := 14
  const VLAN_HEADER_SIZE: nat := 18
  const MAX_VLAN_MEMBERSHIP: nat := 10

  datatype Mode = L3 | Access | Trunk

  datatype Config = Config(ipConfigured: bool, mode: Mode, accessVlan: uint16, nativeVlan: uint16, allowed: seq<uint16>)

  datatype VlanError = FrameTooSmall

  // ----- Frames -----

  predicate IsTagged(f: seq<byte>) {
    |f| >= ETHERNET_HDR_SIZE && Get16(f[12..14]) == TPID
  }

  function MakeTci(pcp: byte, dei: byte, vlan: uint16): uint16 {
    pcp % 8 * 8192 + dei % 2 * 4096 + vlan % 4096
  }

  function FrameVlan(f: seq<byte>): uint16 {
    if |f| < VLAN_HEADER_SIZE || !IsTagged(f) then VLAN_DEFAULT else Get16(f[14..16]) % 4096
  }

  function AddTag(f: seq<byte>, vlan: uint16, pcp: byte, dei: byte): Result<seq<byte>, VlanError> {
    if |f| < ETHERNET_HDR_SIZE then Err(FrameTooSmall)
    else if IsTagged(f) then
      if |f| < 16 then Err(FrameTooSmall)  // the code would run past the end here
      else Ok(f[..14] + Put16(MakeTci(pcp, dei, vlan)) + f[16..])
    else Ok(f[..12] + Put16(TPID) + Put16(MakeTci(pcp, dei, vlan)) + f[12..])
  }

  function RemoveTag(f: seq<byte>): Result<seq<byte>, VlanError> {
    if |f| < VLAN_HEADER_SIZE then Err(FrameTooSmall)
    else if !IsTagged(f) then Ok(f)
    else Ok(f[..12] + f[16..])
  }

  /** The frame without its tag: addresses, EtherType and payload. */
  function Content(f: seq<byte>): seq<byte> {
    if IsTagged(f) && |f| >= 16 then f[..12] + f[16..] else f
  }

  // ----- Ports -----

  function DetermineVlan(c: Config, f: seq<byte>): uint16 {
    if c.ipConfigured then VLAN_DEFAULT
    else match c.mode
         case Access => if IsTagged(f) then 0 else c.accessVlan
         case Trunk => if IsTagged(f) then FrameVlan(f) else c.nativeVlan
         case L3 => VLAN_DEFAULT
  }

  predicate IsAllowed(c: Config, vlan: uint16) {
    if c.ipConfigured then true
    else match c.mode
         case Access => c.accessVlan != 0 && vlan == c.accessVlan
         case Trunk => vlan in c.allowed
         case L3 => false
  }

  function Prepare(c: Config, f: seq<byte>, vlan: uint16): Result<seq<byte>, VlanError> {
    if c.ipConfigured then Ok(f)
    else match c.mode
         case Access => RemoveTag(f)
         case Trunk => if vlan == c.nativeVlan then RemoveTag(f) else AddTag(f, vlan, 0, 0)
         case L3 => Ok(f)
  }

  /** A port set up for switching: valid VLANs, none listed twice. */
  predicate Switching(c: Config) {
    && !c.ipConfigured && c.mode != L3
    && (c.mode == Access ==> VLAN_MIN <= c.accessVlan <= VLAN_MAX)
    && (c.mode == Trunk ==>
          && VLAN_MIN <= c.nativeVlan <= VLAN_MAX && |c.allowed| <= MAX_VLAN_MEMBERSHIP
          && (forall i :: 0 <= i < |c.allowed| ==> VLAN_MIN <= c.allowed[i] <= VLAN_MAX)
          && (forall i, j :: 0 <= i < j < |c.allowed| ==> c.allowed[i] != c.allowed[j]))
  }

  /** The two ends of a link agree on how a VLAN travels over it. */
  predicate Matching(out: Config, inp: Config, vlan: uint16) {
    && Switching(out) && Switching(inp) && out.mode == inp.mode && IsAllowed(out, vlan) && IsAllowed(inp, vlan)
    && (out.mode == Trunk ==> out.nativeVlan == inp.nativeVlan)
  }

  /** A port that switches lets exactly its VLANs in and out: an access port its own, a trunk those on its list. */
  lemma AllowedExactly(c: Config, vlan: uint16)
    requires Switching(c)
    ensures IsAllowed(c, vlan) <==>
            if c.mode == Access then vlan == c.accessVlan else exists i :: 0 <= i < |c.allowed| && c.allowed[i] == vlan
  {
  }

  /** What comes in is taken in exactly if it belongs there: on an access port any frame without a tag, for that port's VLAN; on a
      trunk a frame whose tag, or the native VLAN where it has none, is on the list, for that VLAN. */
  lemma TakenInExactly(c: Config, f: seq<byte>)
    requires Switching(c) && (IsTagged(f) ==> |f| >= 18)
    ensures c.mode == Access ==>
              (IsAllowed(c, DetermineVlan(c, f)) <==> !IsTagged(f)) && (!IsTagged(f) ==> DetermineVlan(c, f) == c.accessVlan)
    ensures c.mode == Trunk ==>
              var vlan := if IsTagged(f) then Get16(f[14..16]) % 4096 else c.nativeVlan;
              DetermineVlan(c, f) == vlan && (IsAllowed(c, vlan) <==> exists i :: 0 <= i < |c.allowed| && c.allowed[i] == vlan)
  {
  }

  /** A port with an IP address takes and sends every frame as it is, in the default VLAN; one that is set to route but has none
      has no VLAN. */
  lemma OtherPorts(c: Config, f: seq<byte>, vlan: uint16)
    ensures c.ipConfigured ==> IsAllowed(c, vlan) && DetermineVlan(c, f) == 1 && Prepare(c, f, vlan) == Ok(f)
    ensures !c.ipConfigured && c.mode == L3 ==> !IsAllowed(c, vlan) && DetermineVlan(c, f) == 1 && Prepare(c, f, vlan) == Ok(f)
  {
  }

  /** Priority in the top three bits, the drop bit, then the VLAN; each cut off at its width. */
  lemma TciIs(pcp: byte, dei: byte, vlan: uint16)
    ensures var tci := MakeTci(pcp, dei, vlan);
            tci / 8192 == pcp % 8 && tci / 4096 % 2 == dei % 2 && tci % 4096 == vlan % 4096
  {
  }

  // ----- Tagging keeps the frame -----

  lemma {:induction false} TagRoundTrip(f: seq<byte>, vlan: uint16, pcp: byte, dei: byte)
    requires |f| >= VLAN_HEADER_SIZE && vlan < 4096
    ensures var r := AddTag(f, vlan, pcp, dei);
            && r.Ok? && IsTagged(r.value) && FrameVlan(r.value) == vlan && Content(r.value) == Content(f)
            && RemoveTag(r.value) == Ok(Content(f))
  {
    var tci := MakeTci(pcp, dei, vlan);
    var head, rest := f[..12], if IsTagged(f) then f[16..] else f[12..];
    TaggedParts(head, tci, rest);
    assert AddTag(f, vlan, pcp, dei) == Ok(head + Put16(TPID) + Put16(tci) + rest) by {
      if IsTagged(f) {
        Put16OfGet16(f[12..14]);
        assert f[..14] == head + f[12..14];
      }
    }
    assert head + rest == Content(f);
    TciHoldsVlan(vlan, pcp, dei);
  }

  lemma TciHoldsVlan(vlan: uint16, pcp: byte, dei: byte)
    requires vlan < 4096
    ensures MakeTci(pcp, dei, vlan) % 4096 == vlan
  {
  }

  /** A frame put together around a tag: the tag is found, and taking it out leaves the rest. */
  lemma {:induction false} TaggedParts(head: seq<byte>, tci: uint16, rest: seq<byte>)
    requires |head| == 12 && |rest| >= 2
    ensures var g := head + Put16(TPID) + Put16(tci) + rest;
            && IsTagged(g) && FrameVlan(g) == tci % 4096 && Content(g) == head + rest && RemoveTag(g) == Ok(head + rest)
  {
    var g := head + Put16(TPID) + Put16(tci) + rest;
    assert g[12..14] == Put16(TPID) && g[14..16] == Put16(tci) && g[..12] == head && g[16..] == rest;
  }

  /** Preparing a frame fails exactly when it is too short to untag, or to tag. */
  lemma {:induction false} PrepareSucceeds(c: Config, f: seq<byte>, vlan: uint16)
    requires Switching(c) && (IsTagged(f) ==> |f| >= VLAN_HEADER_SIZE)
    ensures Prepare(c, f, vlan).Ok? <==>
            |f| >= (if c.mode == Access || vlan == c.nativeVlan then VLAN_HEADER_SIZE else ETHERNET_HDR_SIZE)
  {
  }

  /** The port sends frames of this VLAN without a tag. */
  predicate Strips(c: Config, vlan: uint16) {
    c.mode == Access || vlan == c.nativeVlan
  }

  /** What a frame must be for its VLAN to be recognised at the other end: where tags are stripped, long enough to strip and
      without a second tag, unless that one names the VLAN again on a trunk; where tags are put on, long enough to hold one. */
  predicate Recognisable(c: Config, f: seq<byte>, vlan: uint16) {
    if Strips(c, vlan) then
      |f| >= VLAN_HEADER_SIZE && (!IsTagged(Content(f)) || (c.mode == Trunk && FrameVlan(Content(f)) == vlan))
    else
      |f| >= ETHERNET_HDR_SIZE && (IsTagged(f) ==> |f| >= VLAN_HEADER_SIZE || (|f| >= 16 && vlan == VLAN_DEFAULT))
  }

  /** Over a link with matching ends any frame is put in the same VLAN exactly if it is recognisable. */
  lemma {:induction false} LinkKeepsVlan(out: Config, inp: Config, f: seq<byte>, vlan: uint16)
    requires Matching(out, inp, vlan)
    ensures var r := Prepare(out, f, vlan);
            r.Ok? && DetermineVlan(inp, r.value) == vlan <==> Recognisable(out, f, vlan)
  {
    assert 1 <= vlan <= VLAN_MAX by {
      if out.mode == Trunk {
        assert exists i :: 0 <= i < |out.allowed| && out.allowed[i] == vlan;
      }
    }
    if Strips(out, vlan) {
      if |f| >= VLAN_HEADER_SIZE {
        assert RemoveTag(f) == Ok(Content(f));
      }
    } else if AddTag(f, vlan, 0, 0).Ok? {
      AddedTag(f, vlan);
    }
  }

  lemma AddedTag(f: seq<byte>, vlan: uint16)
    requires vlan < 4096 && AddTag(f, vlan, 0, 0).Ok?
    ensures var g := AddTag(f, vlan, 0, 0).value;
            IsTagged(g) && |g| >= 16 && Get16(g[14..16]) % 4096 == vlan && |g| == (if IsTagged(f) then |f| else |f| + 4)
            && Content(g) == Content(f)
  {
    var head, rest := f[..12], if IsTagged(f) then f[16..] else f[12..];
    var g := AddTag(f, vlan, 0, 0).value;
    assert g == head + Put16(TPID) + Put16(MakeTci(0, 0, vlan)) + rest by {
      if IsTagged(f) {
        Put16OfGet16(f[12..14]);
        assert f[..14] == head + f[12..14];
      }
    }
    TagPlaces(head, MakeTci(0, 0, vlan), rest);
    TciHoldsVlan(vlan, 0, 0);
    assert head + rest == Content(f);
  }

  lemma TagPlaces(head: seq<byte>, tci: uint16, rest: seq<byte>)
    requires |head| == 12
    ensures var g := head + Put16(TPID) + Put16(tci) + rest;
            |g| == 16 + |rest| && g[12..14] == Put16(TPID) && g[14..16] == Put16(tci) && g[..12] == head && g[16..] == rest
  {
  }

  /** Addresses, EtherType and payload are kept unless a second tag is exposed; then the frame only gets shorter. */
  lemma {:induction false} LinkKeepsContent(out: Config, f: seq<byte>, vlan: uint16)
    requires Switching(out) && IsAllowed(out, vlan) && Prepare(out, f, vlan).Ok?
    ensures var g := Prepare(out, f, vlan).value;
            && |Content(g)| <= |Content(f)|
            && (Content(g) == Content(f) <==> !(Strips(out, vlan) && IsTagged(Content(f)) && |Content(f)| >= 16))
  {
    assert vlan < 4096 by {
      if out.mode == Trunk {
        assert exists i :: 0 <= i < |out.allowed| && out.allowed[i] == vlan;
      }
    }
    if Strips(out, vlan) {
      assert RemoveTag(f) == Ok(Content(f));
      if IsTagged(Content(f)) && |Content(f)| >= 16 {
        assert |Content(Content(f))| == |Content(f)| - 4;
      }
    } else {
      AddedTag(f, vlan);
    }
  }

  datatype Link = Link(out: Config, inp: Config)

  /** At each link the frame leaves on a port that has its VLAN, and is taken in for a VLAN that the port at the other end has. */
  predicate StaysInVlans(path: seq<Link>, f: seq<byte>, vlan: uint16)
    decreases |path|
  {
    path != [] ==>
      && HasVlan(path[0].out, vlan)
      && var g := Prepare(path[0].out, f, vlan);
         g.Ok? && HasVlan(path[0].inp, DetermineVlan(path[0].inp, g.value))
         && StaysInVlans(path[1..], g.value, DetermineVlan(path[0].inp, g.value))
  }

  predicate HasVlan(c: Config, vlan: uint16) {
    if c.mode == Access then vlan == c.accessVlan else exists i :: 0 <= i < |c.allowed| && c.allowed[i] == vlan
  }

  /** What arrives at the end of a path of switches, and in which VLAN; nothing if some switch drops it. */
  function Traverse(path: seq<Link>, f: seq<byte>, vlan: uint16): Option<(seq<byte>, uint16)> {
    if path == [] then Some((f, vlan))
    else if !IsAllowed(path[0].out, vlan) then None
    else match Prepare(path[0].out, f, vlan)
         case Err(_) => None
         case Ok(g) =>
           var v := DetermineVlan(path[0].inp, g);
           if IsAllowed(path[0].inp, v) then Traverse(path[1..], g, v) else None
  }

  /** A frame gets over a path, whatever the ends of its links are set to, exactly if every port on it has the VLAN that the
      frame is in there. */
  lemma {:induction false} TraversesItsVlans(path: seq<Link>, f: seq<byte>, vlan: uint16)
    requires forall i :: 0 <= i < |path| ==> Switching(path[i].out) && Switching(path[i].inp)
    ensures Traverse(path, f, vlan).Some? <==> StaysInVlans(path, f, vlan)
    decreases |path|
  {
    if path != [] {
      AllowedExactly(path[0].out, vlan);
      if Prepare(path[0].out, f, vlan).Ok? {
        var g := Prepare(path[0].out, f, vlan).value;
        AllowedExactly(path[0].inp, DetermineVlan(path[0].inp, g));
        assert forall i :: 0 <= i < |path[1..]| ==> path[1..][i] == path[i + 1];
        TraversesItsVlans(path[1..], g, DetermineVlan(path[0].inp, g));
      }
    }
  }

  lemma {:induction false} TraverseNeverGrows(path: seq<Link>, f: seq<byte>, vlan: uint16)
    requires forall i :: 0 <= i < |path| ==> Switching(path[i].out)
    ensures var r := Traverse(path, f, vlan); r.Some? ==> |Content(r.value.0)| <= |Content(f)|
  {
    if path != [] && IsAllowed(path[0].out, vlan) && Prepare(path[0].out, f, vlan).Ok? {
      LinkKeepsContent(path[0].out, f, vlan);
      var g := Prepare(path[0].out, f, vlan).value;
      TraverseNeverGrows(path[1..], g, DetermineVlan(path[0].inp, g));
    }
  }

  /** No link strips tags from a frame that has none. */
  predicate StripsOnlyTags(path: seq<Link>, tagged: bool, vlan: uint16) {
    path != [] ==> (Strips(path[0].out, vlan) ==> tagged) && StripsOnlyTags(path[1..], !Strips(path[0].out, vlan), vlan)
  }

  /** The Ethernet header is whole, and so is the tag if there is one. */
  predicate Whole(f: seq<byte>) {
    |f| >= if IsTagged(f) then 16 else ETHERNET_HDR_SIZE
  }

  /** Over any path of switches whose links have matching ends, a frame keeps its VLAN and its contents exactly if it has no
      second tag or no link strips tags of its VLAN and, when it has fewer than four bytes of payload, no link strips it
      without a tag: the code then finds it too short. */
  lemma {:induction false} PathKeepsVlan(path: seq<Link>, f: seq<byte>, vlan: uint16)
    requires Whole(Content(f)) && forall i :: 0 <= i < |path| ==> Matching(path[i].out, path[i].inp, vlan)
    ensures var r := Traverse(path, f, vlan);
            r.Some? && r.value.1 == vlan && Content(r.value.0) == Content(f)
            <==> (!IsTagged(Content(f)) || forall i :: 0 <= i < |path| ==> !Strips(path[i].out, vlan))
                 && (|Content(f)| >= VLAN_HEADER_SIZE || StripsOnlyTags(path, IsTagged(f), vlan))
  {
    if path != [] {
      var out, inp, rest := path[0].out, path[0].inp, path[1..];
      assert forall i :: 0 <= i < |rest| ==> rest[i] == path[i + 1];
      assert forall i :: 0 <= i < |path| ==> path[i] == if i == 0 then path[0] else rest[i - 1];
      LinkKeepsVlan(out, inp, f, vlan);
      if Prepare(out, f, vlan).Ok? {
        var g := Prepare(out, f, vlan).value;
        LinkKeepsContent(out, f, vlan);
        if IsTagged(Content(f)) && Strips(out, vlan) {
          TraverseNeverGrows(rest, g, DetermineVlan(inp, g));
        } else {
          TagAfterLink(out, f, vlan);
          PathKeepsVlan(rest, g, vlan);
        }
      }
    }
  }

  lemma TagAfterLink(out: Config, f: seq<byte>, vlan: uint16)
    requires Switching(out) && IsAllowed(out, vlan) && Prepare(out, f, vlan).Ok?
    requires !(IsTagged(Content(f)) && Strips(out, vlan)) && |Content(f)| >= ETHERNET_HDR_SIZE
    ensures IsTagged(Prepare(out, f, vlan).value) <==> !Strips(out, vlan)
  {
    if Strips(out, vlan) {
      assert RemoveTag(f) == Ok(Content(f));
    } else {
      assert vlan < 4096 by {
        assert exists i :: 0 <= i < |out.allowed| && out.allowed[i] == vlan;
      }
      AddedTag(f, vlan);
    }
  }

  /** A frame of VLAN 7 that carries a second tag for VLAN 9. */
  const DOUBLE_TAGGED: seq<byte> := [1, 2, 3, 4, 5, 6, 7, 8, 9, 10, 11, 12, 0x81, 0, 0, 7, 0x81, 0, 0, 9, 8, 0, 1, 2, 3, 4]

  /** On a trunk whose native VLAN is 7 it leaves as a frame of VLAN 9. */
  lemma {:induction false} DoubleTagEscapes(c: Config)
    requires Switching(c) && c.mode == Trunk && c.nativeVlan == 7
    ensures FrameVlan(DOUBLE_TAGGED) == 7 && !Recognisable(c, DOUBLE_TAGGED, 7)
    ensures var r := Prepare(c, DOUBLE_TAGGED, 7); r.Ok? && DetermineVlan(c, r.value) == 9
  {
    var f := DOUBLE_TAGGED;
    var g := Content(f);
    assert f[12..14] == [0x81, 0] && f[14..16] == [0, 7];
    assert g[12..14] == [0x81, 0] && g[14..16] == [0, 9];
  }

  // ----- Priority, and copies that share a buffer -----

  /** The priority and drop bits of a frame's tag; none without a tag. */
  function Priority(f: seq<byte>): nat {
    if IsTagged(f) && |f| >= 16 then Get16(f[14..16]) / 4096 else 0
  }

  /** Where tags are put on, a frame keeps its priority exactly if it has none. */
  lemma {:induction false} PriorityIsReset(c: Config, f: seq<byte>, vlan: uint16)
    requires Switching(c) && IsAllowed(c, vlan) && !Strips(c, vlan) && Prepare(c, f, vlan).Ok?
    ensures Priority(Prepare(c, f, vlan).value) == Priority(f) <==> Priority(f) == 0
  {
    assert vlan < 4096 by {
      assert exists i :: 0 <= i < |c.allowed| && c.allowed[i] == vlan;
    }
    var g := Prepare(c, f, vlan).value;
    AddedTag(f, vlan);
    assert g[14..16] == Put16(MakeTci(0, 0, vlan));
    assert MakeTci(0, 0, vlan) == vlan;
  }

  /** A frame that another port has retagged where it was is prepared as the original is. */
  lemma {:induction false} RetaggedIsPrepared(c: Config, f: seq<byte>, vlan: uint16)
    requires Switching(c) && IsTagged(f) && |f| >= 16
    ensures Prepare(c, AddTag(f, vlan, 0, 0).value, vlan) == Prepare(c, f, vlan)
  {
    var g, tci := AddTag(f, vlan, 0, 0).value, Put16(MakeTci(0, 0, vlan));
    assert g == f[..14] + tci + f[16..];
    assert |g| == |f| && g[..14] == f[..14] && g[14..16] == tci && g[16..] == f[16..];
    assert g[12..14] == g[..14][12..] && f[12..14] == f[..14][12..];
    assert g[..12] == g[..14][..12] && f[..12] == f[..14][..12];
  }

  lemma {:induction false} RetaggedAgain(f: seq<byte>, vlan: uint16)
    requires IsTagged(f) && |f| >= 16
    ensures var g := AddTag(f, vlan, 0, 0).value; |g| == |f| && IsTagged(g) && AddTag(g, vlan, 0, 0) == Ok(g)
  {
    var g := AddTag(f, vlan, 0, 0).value;
    assert g[..14] == f[..14] && g[16..] == f[16..];
    assert g[12..14] == g[..14][12..] && f[12..14] == f[..14][12..];
  }

  // ----- Tagging in place -----

  /** Overwrites the tag of a tagged frame where it is, or builds a longer frame. */
  method AddVlanTag(f: array<byte>, vlan: uint16, pcp: byte, dei: byte) returns (out: Result<array<byte>, VlanError>)
    requires !(f.Length < 16 && IsTagged(f[..]))
    modifies f
    ensures out.Ok? <==> old(AddTag(f[..], vlan, pcp, dei)).Ok?
    ensures out.Ok? ==> out.value[..] == old(AddTag(f[..], vlan, pcp, dei)).value
    ensures old(IsTagged(f[..])) ==> out == Ok(f)
    ensures !old(IsTagged(f[..])) ==> f[..] == old(f[..])
  {
    if f.Length < ETHERNET_HDR_SIZE {
      return Err(FrameTooSmall);
    }
    var tci := MakeTci(pcp, dei, vlan);
    assert f[..][12..14] == f[12..14];
    if Get16(f[12..14]) == TPID {
      f[14], f[15] := tci / 256, tci % 256;
      assert f[..] == old(f[..])[..14] + Put16(tci) + old(f[..])[16..];
      return Ok(f);
    }
    ghost var before := f[..];
    var g := new byte[f.Length + 4](_ => 0);
    forall i | 0 <= i < 12 {
      g[i] := f[i];
    }
    g[12], g[13] := TPID / 256, TPID % 256;
    g[14], g[15] := tci / 256, tci % 256;
    forall i | 12 <= i < f.Length {
      g[i + 4] := f[i];
    }
    assert f[..] == before;
    assert g[..12] == before[..12] && g[12..14] == Put16(TPID) && g[14..16] == Put16(tci) && g[16..] == before[12..];
    assert g[..] == g[..12] + g[12..14] + g[14..16] + g[16..];
    return Ok(g);
  }

  method RemoveVlanTag(f: array<byte>) returns (out: Result<array<byte>, VlanError>)
    ensures out.Ok? <==> RemoveTag(f[..]).Ok?
    ensures out.Ok? ==> out.value[..] == RemoveTag(f[..]).value
  {
    if f.Length < VLAN_HEADER_SIZE {
      return Err(FrameTooSmall);
    }
    assert f[..][12..14] == f[12..14];
    if Get16(f[12..14]) != TPID {
      return Ok(f);
    }
    var g := new byte[f.Length - 4](_ => 0);
    forall i | 0 <= i < 12 {
      g[i] := f[i];
    }
    forall i | 12 <= i < g.Length {
      g[i] := f[i + 4];
    }
    assert g[..] == f[..][..12] + f[..][16..];
    return Ok(g);
  }

  /** Prepares a frame for a port, where it is if it already has a tag. */
  method PrepareFrame(c: Config, f: array<byte>, vlan: uint16) returns (out: Result<array<byte>, VlanError>)
    requires !(f.Length < 16 && IsTagged(f[..]))
    modifies f
    ensures out.Ok? <==> old(Prepare(c, f[..], vlan)).Ok?
    ensures out.Ok? ==> out.value[..] == old(Prepare(c, f[..], vlan)).value
    ensures out.Err? ==> out.error == FrameTooSmall
    ensures f[..] == old(f[..]) || (old(IsTagged(f[..])) && f[..] == old(AddTag(f[..], vlan, 0, 0)).value)
  {
    if c.ipConfigured || c.mode == L3 {
      return Ok(f);
    }
    if c.mode == Access || vlan == c.nativeVlan {
      out := RemoveVlanTag(f);
    } else {
      out := AddVlanTag(f, vlan, 0, 0);
    }
    match out
    case Ok(_) =>
    case Err(FrameTooSmall) =>
  }

  /** The copies of one frame for several ports are made one after the other from one buffer, which retagging overwrites: each
      is sent as if it were made from the frame as it came in. */
  method PrepareCopies(ports: seq<Config>, f: array<byte>, vlan: uint16) returns (sent: seq<Result<seq<byte>, VlanError>>)
    requires forall i :: 0 <= i < |ports| ==> Switching(ports[i])
    requires !(f.Length < 16 && IsTagged(f[..]))
    modifies f
    ensures |sent| == |ports| && forall i :: 0 <= i < |ports| ==> sent[i] == Prepare(ports[i], old(f[..]), vlan)
  {
    ghost var frame := f[..];
    sent := [];
    var i := 0;
    while i < |ports|
      invariant 0 <= i <= |ports| && |sent| == i
      invariant forall j :: 0 <= j < i ==> sent[j] == Prepare(ports[j], frame, vlan)
      invariant f[..] == frame || (IsTagged(frame) && f[..] == AddTag(frame, vlan, 0, 0).value)
    {
      if f[..] != frame {
        RetaggedIsPrepared(ports[i], frame, vlan);
        RetaggedAgain(frame, vlan);
      }
      var out := PrepareFrame(ports[i], f, vlan);
      sent := sent + [match out case Ok(copy) => Ok(copy[..]) case Err(e) => Err(e)];
      i := i + 1;
    }
  }

  // ----- Configuring a port -----

  class Interface {
    var config: Config

    /** A new interface is an access port of the default VLAN. */
    constructor ()
      ensures config == Config(false, Access, VLAN_DEFAULT, VLAN_DEFAULT, []) && Switching(config)
    {
      config := Config(false, Access, VLAN_DEFAULT, VLAN_DEFAULT, []);
    }

    /** Accepts exactly the settings that make a proper switch port, and changes nothing otherwise. */
    method SetL2Mode(mode: Mode, vlan: uint16, native: uint16, allowed: seq<uint16>) returns (ok: bool)
      modifies this
      ensures ok <==> Switching(Config(false, mode, vlan, native, if mode == Access then [] else allowed))
      ensures !ok ==> config == old(config)
      ensures ok && mode == Access ==> config == old(config).(ipConfigured := false, mode := Access, accessVlan := vlan, allowed := [])
      ensures ok && mode == Trunk ==> config == old(config).(ipConfigured := false, mode := Trunk, nativeVlan := native, allowed := allowed)
      ensures ok ==> Switching(config)
      ensures mode == L3 ==> !ok
      ensures mode == Access ==> (ok <==> 1 <= vlan <= 4094)
      ensures mode == Trunk ==>
                (ok <==> && 1 <= native <= 4094 && |allowed| <= 10
                         && (forall i :: 0 <= i < |allowed| ==> 1 <= allowed[i] <= 4094)
                         && (forall i, j :: 0 <= i < j < |allowed| ==> allowed[i] != allowed[j]))
    {
      if mode != Access && mode != Trunk {
        return false;
      }
      if mode == Access && (vlan < VLAN_MIN || vlan > VLAN_MAX) {
        return false;
      }
      if mode == Trunk {
        if native < VLAN_MIN || native > VLAN_MAX {
          return false;
        }
        if |allowed| > MAX_VLAN_MEMBERSHIP {
          return false;
        }
        var seen := {};
        var i := 0;
        while i < |allowed|
          invariant 0 <= i <= |allowed| && seen == set j | 0 <= j < i :: allowed[j]
          invariant forall j :: 0 <= j < i ==> VLAN_MIN <= allowed[j] <= VLAN_MAX
          invariant forall j, k :: 0 <= j < k < i ==> allowed[j] != allowed[k]
          invariant config == old(config)
        {
          if allowed[i] < VLAN_MIN || allowed[i] > VLAN_MAX || allowed[i] in seen {
            return false;
          }
          seen := seen + {allowed[i]};
          i := i + 1;
        }
      }
      config := config.(ipConfigured := false);
      if mode == Access {
        config := config.(mode := Access, accessVlan := vlan, allowed := []);
        return true;
      }
      config := config.(mode := Trunk, nativeVlan := native, allowed := allowed);
      return true;
    }
  }
}
