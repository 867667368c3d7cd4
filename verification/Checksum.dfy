/** The Internet checksum (section 1 of RFC 1071) and the IPv4 header checksum built on it. */
module Checksum {
  import opened Bytes

  /** The sum of the 16-bit words, an odd last byte being the high half of a word. */
  function WordSum(data: seq<byte>): nat {
    if data == [] then 0
    else if |data| == 1 then data[0] as int * 256
    else Get16(data[..2]) + WordSum(data[2..])
  }

  /** The one's-complement value of a sum: its residue modulo 65535, where only zero itself is zero. */
  function OnesValue(sum: nat): (v: uint16) {
    if sum == 0 then 0 else (sum - 1) % 65535 + 1
  }

  function InternetSum(data: seq<byte>): uint16 {
    65535 - OnesValue(WordSum(data))
  }

  // ----- Arithmetic -----

  /** One folding step keeps the one's-complement value and, above 16 bits, makes the sum smaller. */
  lemma {:induction false} FoldKeepsValue(sum: nat)
    ensures OnesValue(sum % 65536 + sum / 65536) == OnesValue(sum)
    ensures sum > 65535 ==> sum % 65536 + sum / 65536 < sum
  {
    var q, r := sum / 65536, sum % 65536;
    assert sum == q * 65536 + r == 65535 * q + (q + r);
    if sum > 0 {
      assert q + r > 0;
      ModAddMultiple(q + r - 1, q);
    }
  }

  lemma {:induction false} ModAddMultiple(x: nat, q: nat)
    ensures (x + 65535 * q) % 65535 == x % 65535
    decreases q
  {
    if q > 0 {
      ModAddMultiple(x, q - 1);
    }
  }

  lemma SmallIsItsValue(sum: nat)
    requires sum <= 65535
    ensures OnesValue(sum) == sum
  {
  }

  /** A sum is the negative zero exactly when it is a positive multiple of 65535. */
  lemma AllOnes(sum: nat)
    ensures OnesValue(sum) == 65535 <==> sum > 0 && sum % 65535 == 0
  {
  }

  /** Adding the complement of a sum's value gives negative zero. */
  lemma {:induction false} ComplementCancels(sum: nat)
    ensures OnesValue(sum + (65535 - OnesValue(sum))) == 65535
  {
    if sum > 0 {
      var q := (sum - 1) / 65535;
      assert sum - 1 == q * 65535 + (sum - 1) % 65535;
      assert sum + (65535 - OnesValue(sum)) - 1 == 65534 + 65535 * q;
      ModAddMultiple(65534, q);
    }
  }

  lemma {:induction false} WordSumBound(data: seq<byte>)
    ensures 2 * WordSum(data) <= 65535 * (|data| + |data| % 2)
  {
    if |data| >= 2 {
      WordSumBound(data[2..]);
    }
  }

  lemma {:induction false} WordSumOfConcat(a: seq<byte>, b: seq<byte>)
    requires |a| % 2 == 0
    ensures WordSum(a + b) == WordSum(a) + WordSum(b)
  {
    if a == [] {
      assert a + b == b;
    } else {
      WordSumOfConcat(a[2..], b);
      assert (a + b)[..2] == a[..2] && (a + b)[2..] == a[2..] + b;
    }
  }

  /** Of each pair of bytes the first counts 256 times. */
  lemma {:induction false} PairIsWord(data: seq<byte>, i: nat)
    requires 2 * i + 2 <= |data|
    ensures WordSum(data[..2 * i + 2]) == WordSum(data[..2 * i]) + 256 * (data[2 * i] as int) + data[2 * i + 1]
  {
    var word := data[2 * i..2 * i + 2];
    assert data[..2 * i + 2] == data[..2 * i] + word;
    WordSumOfConcat(data[..2 * i], word);
    assert word[..2] == word && word[2..] == [];
  }

  /** An odd last byte counts as if a zero byte followed it. */
  lemma {:induction false} OddByteIsPadded(data: seq<byte>)
    requires |data| % 2 == 1
    ensures InternetSum(data) == InternetSum(data + [0]) && WordSum(data) == WordSum(data[..|data| - 1]) + 256 * (data[|data| - 1] as int)
  {
    var front, last := data[..|data| - 1], [data[|data| - 1]];
    assert data == front + last && data + [0] == front + (last + [0]);
    WordSumOfConcat(front, last);
    WordSumOfConcat(front, last + [0]);
    assert (last + [0])[..2] == last + [0] && (last + [0])[2..] == [];
  }

  // ----- One word of a message -----

  function WithWord(data: seq<byte>, at: nat, w: uint16): (r: seq<byte>)
    requires at + 2 <= |data|
    ensures |r| == |data| && r[at..at + 2] == Put16(w)
    ensures forall i :: 0 <= i < |data| && i != at && i != at + 1 ==> r[i] == data[i]
  {
    data[..at] + Put16(w) + data[at + 2..]
  }

  lemma {:induction false} SplitAtWord(data: seq<byte>, at: nat)
    requires at + 2 <= |data| && at % 2 == 0
    ensures WordSum(data) == WordSum(data[..at]) + Get16(data[at..at + 2]) + WordSum(data[at + 2..])
  {
    var word, rest := data[at..at + 2], data[at + 2..];
    assert data == data[..at] + (word + rest);
    WordSumOfConcat(data[..at], word + rest);
    WordSumOfConcat(word, rest);
    assert word[..2] == word && word[2..] == [];
  }

  lemma {:induction false} SumWithWord(data: seq<byte>, at: nat, w: uint16)
    requires at + 2 <= |data| && at % 2 == 0
    ensures WordSum(WithWord(data, at, w)) == WordSum(data) - Get16(data[at..at + 2]) + w
  {
    var data' := WithWord(data, at, w);
    SplitAtWord(data, at);
    SplitAtWord(data', at);
    assert data'[..at] == data[..at] && data'[at + 2..] == data[at + 2..];
  }

  /** Storing the checksum of a message whose checksum word is zero makes the message sum to zero. */
  lemma {:induction false} StoredChecksumValidates(data: seq<byte>, at: nat)
    requires at + 2 <= |data| && at % 2 == 0
    ensures InternetSum(WithWord(data, at, InternetSum(WithWord(data, at, 0)))) == 0
  {
    var zeroed := WithWord(data, at, 0);
    var c := InternetSum(zeroed);
    SumWithWord(data, at, 0);
    SumWithWord(data, at, c);
    ComplementCancels(WordSum(zeroed));
  }

  /** Changing one word of a valid message is noticed, unless it turns plus zero into minus zero or back, in a message
      that is not all zero afterwards. */
  lemma {:induction false} OneWordErrorIsNoticed(data: seq<byte>, at: nat, w: uint16)
    requires at + 2 <= |data| && at % 2 == 0 && InternetSum(data) == 0
    ensures var was := Get16(data[at..at + 2]);
            InternetSum(WithWord(data, at, w)) == 0 <==>
            w == was || (w == 65535 && was == 0) || (w == 0 && was == 65535 && WordSum(data) > 65535)
  {
    var word: nat := Get16(data[at..at + 2]);
    SplitAtWord(data, at);
    SumWithWord(data, at, w);
    var s := WordSum(data);
    AllOnes(s);
    AllOnes(s - word + w);
    Congruent(s - word + w, s, w - word);
  }

  lemma {:induction false} Congruent(x: nat, s: nat, d: int)
    requires x == s + d && s % 65535 == 0 && -65535 <= d <= 65535
    ensures x % 65535 == 0 <==> d == 0 || d == 65535 || d == -65535
  {
    var q := s / 65535;
    assert s == 65535 * q;
    if d >= 0 {
      ModAddMultiple(d, q);
    } else {
      assert q >= 1;
      ModAddMultiple(d + 65535, q - 1);
    }
  }

  // ----- The code -----

  /** Adds the words in 32 bits, then folds the carries back. Beyond 131074 bytes the 32-bit sum can wrap. */
  method InternetChecksum(message: seq<byte>) returns (checksum: uint16)
    ensures |message| <= 131074 ==> checksum == InternetSum(message)
  {
    var data := message;
    var sum: uint32 := 0;
    WordSumBound(message);
    while |data| >= 2
      invariant |message| <= 131074 ==> sum + WordSum(data) == WordSum(message) <= 0xFFFF_FFFF
    {
      sum := Add32(sum, Get16(data[..2]));
      data := data[2..];
    }
    if |data| == 1 {
      sum := Add32(sum, data[0] as int * 256);
    }
    var folded := Fold(sum);
    return 65535 - folded;
  }

  /** Adds the high half to the low half until nothing is left above 16 bits. */
  method Fold(total: uint32) returns (folded: uint16)
    ensures folded == OnesValue(total)
  {
    var sum: nat := total;
    while sum / 65536 != 0
      invariant sum <= total && OnesValue(sum) == OnesValue(total)
      decreases sum
    {
      FoldKeepsValue(sum);
      sum := sum % 65536 + sum / 65536;
    }
    SmallIsItsValue(sum);
    return sum;
  }

  function HeaderChecksum(header: seq<byte>): uint16 {
    if |header| < 20 then 0 else InternetSum(WithWord(header, 10, 0))
  }

  predicate ValidHeaderChecksum(header: seq<byte>) {
    |header| >= 20 && InternetSum(header) == 0
  }

  /** The packet with the checksum of its first headerLen bytes stored. */
  function Stored(pkt: seq<byte>, headerLen: nat): (r: seq<byte>)
    requires 20 <= headerLen <= |pkt|
    ensures |r| == |pkt| && forall i :: 0 <= i < |pkt| && i != 10 && i != 11 ==> r[i] == pkt[i]
  {
    WithWord(pkt, 10, HeaderChecksum(pkt[..headerLen]))
  }

  lemma {:induction false} StoredIsValid(pkt: seq<byte>, headerLen: nat)
    requires 20 <= headerLen <= |pkt|
    ensures ValidHeaderChecksum(Stored(pkt, headerLen)[..headerLen])
  {
    var header := pkt[..headerLen];
    StoredChecksumValidates(header, 10);
    assert Stored(pkt, headerLen)[..headerLen] == WithWord(header, 10, HeaderChecksum(header));
  }

  method IpHeaderChecksum(header: seq<byte>) returns (checksum: uint16)
    requires |header| <= 60
    ensures checksum == HeaderChecksum(header)
  {
    if |header| < 20 {
      return 0;
    }
    var scratch := header[..10] + [0, 0] + header[12..];
    assert scratch == WithWord(header, 10, 0);
    checksum := InternetChecksum(scratch);
  }

  /** Recomputes and stores the checksum of the header at the front of a packet. */
  method SetIPHeaderChecksum(pkt: array<byte>, headerLen: nat)
    requires headerLen <= pkt.Length && headerLen <= 60
    modifies pkt
    ensures pkt[..] == if headerLen < 20 then old(pkt[..]) else Stored(old(pkt[..]), headerLen)
  {
    if headerLen < 20 {
      return;
    }
    var checksum := IpHeaderChecksum(pkt[..headerLen]);
    assert pkt[..][..headerLen] == pkt[..headerLen];
    pkt[10], pkt[11] := checksum / 256, checksum % 256;
  }

  /** The forwarding rewrite: one hop less, checksum repaired. */
  function Forwarded(pkt: seq<byte>, headerLen: nat): (r: seq<byte>)
    requires 20 <= headerLen <= |pkt| && pkt[8] > 0
    ensures |r| == |pkt| && r[8] == pkt[8] - 1
    ensures forall i :: 0 <= i < |pkt| && i != 8 && i != 10 && i != 11 ==> r[i] == pkt[i]
  {
    Stored(pkt[8 := pkt[8] - 1], headerLen)
  }

  lemma {:induction false} ForwardedIsValid(pkt: seq<byte>, headerLen: nat)
    requires 20 <= headerLen <= |pkt| && pkt[8] > 0
    ensures ValidHeaderChecksum(Forwarded(pkt, headerLen)[..headerLen])
  {
    StoredIsValid(pkt[8 := pkt[8] - 1], headerLen);
  }

  method ForwardInPlace(pkt: array<byte>, headerLen: nat)
    requires 20 <= headerLen <= 60 && headerLen <= pkt.Length && pkt[8] > 0
    modifies pkt
    ensures pkt[..] == Forwarded(old(pkt[..]), headerLen)
  {
    pkt[8] := pkt[8] - 1;
    assert pkt[..] == old(pkt[..])[8 := old(pkt[8]) - 1];
    SetIPHeaderChecksum(pkt, headerLen);
  }
}
