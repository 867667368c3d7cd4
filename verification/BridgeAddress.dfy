/** Where bridge identifiers come from: a counter numbers the interfaces, and a bridge takes its lowest address. */
module BridgeAddress {
  import opened Bytes
  import opened StpVector

  const COUNTER_LIMIT: nat := 0x100_0000_0000

  /** A locally administered address holding the low five bytes of the counter. */
  function MacOf(value: nat): Mac {
    [2, value / 0x1_0000_0000 % 256, value / 0x100_0000 % 256, value / 0x1_0000 % 256, value / 256 % 256, value % 256]
  }

  /** The counter an address holds, up to forty bits. */
  function ValueOf(m: Mac): nat {
    (((m[1] as int * 256 + m[2]) * 256 + m[3]) * 256 + m[4]) * 256 + m[5]
  }

  lemma Low16(x: nat)
    ensures x % 0x1_0000 == x / 256 % 256 * 256 + x % 256
  {
    var q, r := x / 256 / 256, x / 256 % 256 * 256 + x % 256;
    assert x == q * 0x1_0000 + r && 0 <= r < 0x1_0000;
  }

  lemma Low24(x: nat)
    ensures x % 0x100_0000 == x / 256 % 0x1_0000 * 256 + x % 256
  {
    var q, r := x / 256 / 0x1_0000, x / 256 % 0x1_0000 * 256 + x % 256;
    assert x == q * 0x100_0000 + r && 0 <= r < 0x100_0000;
  }

  lemma Low32(x: nat)
    ensures x % 0x1_0000_0000 == x / 256 % 0x100_0000 * 256 + x % 256
  {
    var q, r := x / 256 / 0x100_0000, x / 256 % 0x100_0000 * 256 + x % 256;
    assert x == q * 0x1_0000_0000 + r && 0 <= r < 0x1_0000_0000;
  }

  lemma Low40(x: nat)
    ensures x % COUNTER_LIMIT == x / 256 % 0x1_0000_0000 * 256 + x % 256
  {
    var q, r := x / 256 / 0x1_0000_0000, x / 256 % 0x1_0000_0000 * 256 + x % 256;
    assert x == q * COUNTER_LIMIT + r && 0 <= r < COUNTER_LIMIT;
  }

  lemma Shifts(x: nat)
    ensures x / 256 / 256 == x / 0x1_0000 && x / 0x1_0000 / 256 == x / 0x100_0000
    ensures x / 0x100_0000 / 256 == x / 0x1_0000_0000
  {
  }

  lemma {:induction false} MacHoldsCounter(x: nat)
    ensures MacOf(x)[0] == 2 && ValueOf(MacOf(x)) == x % 0x100_0000_0000
  {
    Shifts(x);
    Low40(x);
    Low32(x / 256);
    Low24(x / 0x1_0000);
    Low16(x / 0x100_0000);
  }

  /** Below forty bits, different counters give different addresses. */
  lemma {:induction false} MacsAreDistinct(x: nat, y: nat)
    requires x < COUNTER_LIMIT && y < COUNTER_LIMIT && MacOf(x) == MacOf(y)
    ensures x == y
  {
    MacHoldsCounter(x);
    MacHoldsCounter(y);
    SmallModulo(x, COUNTER_LIMIT);
    SmallModulo(y, COUNTER_LIMIT);
  }

  /** The lowest of a node's interface addresses. */
  method LowestAddress(macs: seq<Mac>) returns (address: Mac)
    requires macs != []
    ensures address in macs
    ensures forall i :: 0 <= i < |macs| ==> BridgeID(0, address).Rank() <= BridgeID(0, macs[i]).Rank()
  {
    address := macs[0];
    var i := 1;
    while i < |macs|
      invariant 1 <= i <= |macs| && address in macs
      invariant forall j :: 0 <= j < i ==> BridgeID(0, address).Rank() <= BridgeID(0, macs[j]).Rank()
    {
      var candidate, current := BridgeID(0, macs[i]), BridgeID(0, address);
      if candidate.Compare(current) < 0 {
        address := macs[i];
      }
      i := i + 1;
    }
  }

  /** Nodes whose interfaces were numbered by one counter, below its limit, have different bridge identifiers, whatever
      their priorities. */
  lemma {:induction false} BridgesAreDistinct(p: seq<nat>, q: seq<nat>, a: BridgeID, b: BridgeID)
    requires forall i :: 0 <= i < |p| ==> p[i] < COUNTER_LIMIT
    requires forall i :: 0 <= i < |q| ==> q[i] < COUNTER_LIMIT
    requires forall i, j :: 0 <= i < |p| && 0 <= j < |q| ==> p[i] != q[j]
    requires exists i :: 0 <= i < |p| && a.address == MacOf(p[i])
    requires exists i :: 0 <= i < |q| && b.address == MacOf(q[i])
    ensures a != b && a.Rank() != b.Rank() && a.Compare(b) != 0
  {
    var i :| 0 <= i < |p| && a.address == MacOf(p[i]);
    var j :| 0 <= j < |q| && b.address == MacOf(q[j]);
    if MacOf(p[i]) == MacOf(q[j]) {
      MacsAreDistinct(p[i], q[j]);
    }
    assert a.Compare(b) != 0;
  }
}
