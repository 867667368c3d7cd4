/** Subnet masks as numbers: from prefix length to mask and back by counting ones. */
module SubnetMasks {
  import opened Bytes
  import opened RoutingTables

  /** The number of one bits. */
  function OneBits(m: nat): (r: nat)
    ensures r == 0 <==> m == 0
  {
    if m == 0 then 0 else m % 2 + OneBits(m / 2)
  }

  function SubnetMask(mask: byte): uint32
    requires mask <= 32
  {
    ClearLow(0xFFFF_FFFF, 32 - mask)
  }

  lemma {:induction false} OneBitsTop(m: nat, k: nat)
    requires Power(k) <= m < 2 * Power(k)
    ensures OneBits(m) == 1 + OneBits(m - Power(k))
    decreases k
  {
    if k > 0 {
      OneBitsTop(m / 2, k - 1);
      assert (m - Power(k)) / 2 == m / 2 - Power(k - 1) && (m - Power(k)) % 2 == m % 2;
    }
  }

  lemma {:induction false} OneBitsBound(m: nat, k: nat)
    requires m < Power(k)
    ensures OneBits(m) <= k
    decreases k
  {
    if m > 0 {
      OneBitsBound(m / 2, k - 1);
    }
  }

  lemma {:induction false} OneBitsOfCleared(x: nat, n: nat)
    ensures OneBits(ClearLow(x, n)) == OneBits(Shifted(x, n))
  {
    if n > 0 {
      OneBitsOfCleared(x / 2, n - 1);
      var c := ClearLow(x / 2, n - 1);
      assert (2 * c) / 2 == c && (2 * c) % 2 == 0;
    }
  }

  function Shifted(x: nat, n: nat): nat {
    if n == 0 then x else Shifted(x / 2, n - 1)
  }

  lemma {:induction false} ShiftedOnes(k: nat, n: nat)
    requires n <= k
    ensures Shifted(Power(k) - 1, n) == Power(k - n) - 1
  {
    if n > 0 {
      assert (Power(k) - 1) / 2 == Power(k - 1) - 1;
      ShiftedOnes(k - 1, n - 1);
    }
  }

  lemma {:induction false} OnesOfAllOnes(k: nat)
    ensures OneBits(Power(k) - 1) == k
  {
    if k > 0 {
      OnesOfAllOnes(k - 1);
      assert (Power(k) - 1) / 2 == Power(k - 1) - 1 && (Power(k) - 1) % 2 == 1;
    }
  }

  /** The mask a router sends for a prefix length is counted back to that length. */
  lemma {:induction false} MaskRoundTrip(mask: byte)
    requires mask <= 32
    ensures OneBits(SubnetMask(mask)) == mask
  {
    Power32();
    OneBitsOfCleared(0xFFFF_FFFF, 32 - mask);
    ShiftedOnes(32, 32 - mask);
    OnesOfAllOnes(mask);
  }

  lemma {:induction false} ClearLowOfOnes(k: nat, n: nat)
    requires n <= k
    ensures ClearLow(Power(k) - 1, n) == Power(k) - Power(n)
  {
    if n > 0 {
      assert (Power(k) - 1) / 2 == Power(k - 1) - 1;
      ClearLowOfOnes(k - 1, n - 1);
    }
  }

  /** A mask of that length is 2^32 less the size of the prefix. */
  lemma MaskIs(mask: byte)
    requires mask <= 32
    ensures SubnetMask(mask) == 0x1_0000_0000 - Power(32 - mask)
  {
    Power32();
    ClearLowOfOnes(32, 32 - mask);
  }

  /** Ones are counted wherever they stand: those of both parts of a number, wherever it is cut. */
  lemma {:induction false} OneBitsAddUp(high: nat, k: nat, low: nat)
    requires low < Power(k)
    ensures OneBits(high * Power(k) + low) == OneBits(high) + OneBits(low) && OneBits(1) == 1
    decreases k
  {
    if k > 0 {
      var m := high * Power(k) + low;
      assert high * Power(k) == 2 * (high * Power(k - 1));
      assert m / 2 == high * Power(k - 1) + low / 2 && m % 2 == low % 2;
      OneBitsAddUp(high, k - 1, low / 2);
    }
  }

  lemma {:induction false} MaskBitsBound(subnet: uint32)
    ensures OneBits(subnet) <= 32
  {
    Power32();
    OneBitsBound(subnet, 32);
  }

  lemma {:induction false} ClearLowOfTop(x: nat, k: nat, n: nat)
    requires n <= k
    ensures ClearLow(x + Power(k), n) == ClearLow(x, n) + Power(k)
    decreases n
  {
    if n > 0 {
      assert (x + Power(k)) / 2 == x / 2 + Power(k - 1);
      ClearLowOfTop(x / 2, k - 1, n - 1);
    }
  }

  lemma {:induction false} ClearLowOfSmall(x: nat, n: nat)
    requires x < Power(n)
    ensures ClearLow(x, n) == 0
    decreases n
  {
    if n > 0 {
      ClearLowOfSmall(x / 2, n - 1);
    }
  }

  /** Shifting left drops the top bit, keeps the other ones, and adds a trailing zero. */
  lemma {:induction false} ShiftStep(m: uint32, shifts: nat)
    requires m != 0 && shifts <= 32 && ClearLow(m, shifts) == m
    ensures shifts < 32
    ensures ClearLow((m * 2) % TWO_32, shifts + 1) == (m * 2) % TWO_32
    ensures OneBits((m * 2) % TWO_32) + (if m >= 0x8000_0000 then 1 else 0) == OneBits(m)
  {
    Power32();
    if shifts == 32 {
      ClearLowOfSmall(m, 32);
    }
    var rest: nat := m;
    if m >= 0x8000_0000 {
      OneBitsTop(m, 31);
      rest := m - 0x8000_0000;
      ClearLowOfTop(rest, 31, shifts);
    }
    assert (m * 2) % TWO_32 == 2 * rest;
    assert 2 * rest / 2 == rest;
  }

  /** Counts ones by shifting left until nothing is left; contiguity is not checked. */
  method SubnetMaskToMaskBits(subnet: uint32) returns (bits: byte)
    ensures bits as int == OneBits(subnet) <= 32
  {
    MaskBitsBound(subnet);
    bits := 0;
    var m: uint32 := subnet;
    ghost var shifts: nat := 0;
    while m != 0
      invariant shifts <= 32 && ClearLow(m, shifts) == m
      invariant bits as int + OneBits(m) == OneBits(subnet)
      decreases 32 - shifts
    {
      ShiftStep(m, shifts);
      if m >= 0x8000_0000 {
        bits := bits + 1;
      }
      m := (m * 2) % TWO_32;
      shifts := shifts + 1;
    }
  }
}
