/** Dotted-decimal addresses: the parser accepts exactly what the printer prints. */
module Ipv4Text {
  import opened Bytes
  import opened Wrappers

  function Digit(d: nat): char
    requires d < 10
  {
    '0' + d as char
  }

  function Decimal(n: nat): (s: string)
    ensures s != []
  {
    if n < 10 then [Digit(n)] else Decimal(n / 10) + [Digit(n % 10)]
  }

  /** Each octet followed by a dot. */
  function Dotted(octets: seq<byte>): string {
    if octets == [] then [] else Dotted(octets[..|octets| - 1]) + Decimal(octets[|octets| - 1]) + "."
  }

  function Print(ip: seq<byte>): string
    requires |ip| == 4
  {
    Dotted(ip[..3]) + Decimal(ip[3])
  }

  /** The parser's state after part of the text: the finished octets and the one being read. */
  datatype Scan = Bad | At(done: seq<byte>, octet: byte, digits: nat, leadingZero: bool)

  function Step(st: Scan, c: char): Scan {
    if st == Bad then Bad
    else if c == '.' then
      if st.digits == 0 || |st.done| >= 3 then Bad else At(st.done + [st.octet], 0, 0, false)
    else if c < '0' || c > '9' || st.digits == 3 || (st.digits > 0 && st.leadingZero) then Bad
    else
      var octet := st.octet * 10 + (c - '0') as int;
      if octet > 255 then Bad
      else At(st.done, octet, st.digits + 1, if st.digits == 0 then c == '0' else st.leadingZero)
  }

  function ScanText(s: string): Scan {
    if s == [] then At([], 0, 0, false) else Step(ScanText(s[..|s| - 1]), s[|s| - 1])
  }

  function Parse(s: string): (r: Option<seq<byte>>)
    ensures r.Some? ==> |r.value| == 4
  {
    match ScanText(s)
    case Bad => None
    case At(done, octet, digits, _) => if |done| != 3 || digits == 0 then None else Some(done + [octet])
  }

  lemma {:induction false} DottedAppend(octets: seq<byte>, octet: byte)
    ensures Dotted(octets + [octet]) == Dotted(octets) + Decimal(octet) + "."
  {
    assert (octets + [octet])[..|octets|] == octets;
  }

  lemma {:induction false} DecimalAppend(n: nat, d: nat)
    requires n > 0 && d < 10
    ensures Decimal(n * 10 + d) == Decimal(n) + [Digit(d)]
  {
  }

  lemma {:induction false} ScanAppend(s: string, c: char)
    ensures ScanText(s + [c]) == Step(ScanText(s), c)
  {
    assert (s + [c])[..|s|] == s;
  }

  lemma {:induction false} DecimalLength(n: nat)
    requires n <= 255
    ensures |Decimal(n)| == if n < 10 then 1 else if n < 100 then 2 else 3
  {
    if n >= 100 {
      assert Decimal(n) == Decimal(n / 10) + [Digit(n % 10)];
    }
  }

  /** The text is what the printer writes for the finished octets and the current one. */
  ghost predicate Prints(st: Scan, text: string) {
    st != Bad ==>
      && |st.done| <= 3
      && text == Dotted(st.done) + (if st.digits == 0 then [] else Decimal(st.octet))
      && (st.digits == 0 ==> st.octet == 0) && (st.digits > 0 ==> (st.leadingZero <==> st.octet == 0))
  }

  lemma {:induction false} StepPrints(st: Scan, text: string, c: char)
    requires Prints(st, text) && Step(st, c) != Bad
    ensures Prints(Step(st, c), text + [c])
  {
    if c == '.' {
      DottedAppend(st.done, st.octet);
      assert text + [c] == Dotted(st.done + [st.octet]) + [];
    } else {
      DigitPrints(st, text, c, (c - '0') as int);
    }
  }

  lemma {:induction false} DigitPrints(st: Scan, text: string, c: char, d: nat)
    requires Prints(st, text) && Step(st, c) != Bad && d < 10 && c == Digit(d) && d == (c - '0') as int && c != '.'
    ensures Prints(Step(st, c), text + [c])
  {
    var base, printed := Dotted(st.done), Decimal(st.octet);
    if st.digits == 0 {
      assert Decimal(d) == [c];
      assert text + [c] == base + [c];
    } else {
      DecimalAppend(st.octet, d);
      assert text + [c] == base + (printed + [c]);
    }
  }

  lemma {:induction false} ScannedIsPrinted(s: string)
    ensures Prints(ScanText(s), s)
  {
    if s != [] {
      var front, c := s[..|s| - 1], s[|s| - 1];
      ScannedIsPrinted(front);
      if ScanText(s) != Bad {
        StepPrints(ScanText(front), front, c);
      }
      assert front + [c] == s;
    }
  }

  /** Reading an octet's digits after finished octets ends in the state that holds it. */
  lemma {:induction false} OctetIsScanned(base: string, done: seq<byte>, n: byte)
    requires ScanText(base) == At(done, 0, 0, false)
    ensures ScanText(base + Decimal(n)) == At(done, n, |Decimal(n)|, n == 0)
    decreases n as int
  {
    if n < 10 {
      ScanAppend(base, Digit(n));
    } else {
      var q, r := n / 10, n % 10;
      OctetIsScanned(base, done, q);
      ScanAppend(base + Decimal(q), Digit(r));
      assert base + Decimal(n) == base + Decimal(q) + [Digit(r)];
      DecimalLength(q);
      DigitStep(done, q, |Decimal(q)|, r);
    }
  }

  /** A further digit of an octet that does not start with zero. */
  lemma {:induction false} DigitStep(done: seq<byte>, q: byte, digits: nat, r: nat)
    requires 0 < q && q * 10 + r <= 255 && r < 10 && 0 < digits < 3
    ensures Step(At(done, q, digits, false), Digit(r)) == At(done, q * 10 + r, digits + 1, false)
  {
    assert '0' <= Digit(r) <= '9' && (Digit(r) - '0') as int == r;
  }

  lemma {:induction false} DottedIsScanned(done: seq<byte>)
    requires |done| <= 3
    ensures ScanText(Dotted(done)) == At(done, 0, 0, false)
  {
    if done != [] {
      var front, last := done[..|done| - 1], done[|done| - 1];
      DottedIsScanned(front);
      OctetIsScanned(Dotted(front), front, last);
      ScanAppend(Dotted(front) + Decimal(last), '.');
      DottedAppend(front, last);
      assert front + [last] == done;
    }
  }

  /** Parsing and printing invert each other: a text is accepted, as an address, exactly when it is that address printed. */
  lemma {:induction false} ParseInvertsPrint(s: string, ip: seq<byte>)
    requires |ip| == 4
    ensures Parse(s) == Some(ip) <==> Print(ip) == s
  {
    assert ip == ip[..3] + [ip[3]];
    if Print(ip) == s {
      DottedIsScanned(ip[..3]);
      OctetIsScanned(Dotted(ip[..3]), ip[..3], ip[3]);
    }
    if Parse(s) == Some(ip) {
      ScannedIsPrinted(s);
      var st := ScanText(s);
      assert st.done == (st.done + [st.octet])[..3] == ip[..3];
    }
  }

  /** Different addresses print differently, so comparing printed addresses compares addresses. */
  lemma {:induction false} PrintIsInjective(a: seq<byte>, b: seq<byte>)
    requires |a| == 4 && |b| == 4 && Print(a) == Print(b)
    ensures a == b
  {
    ParseInvertsPrint(Print(a), a);
    ParseInvertsPrint(Print(a), b);
  }

  /** The parser as written: one pass over the characters. It accepts exactly the printed addresses. */
  method ParseIPv4(value: string) returns (ip: Option<seq<byte>>)
    ensures ip == Parse(value)
    ensures forall a: seq<byte> | |a| == 4 :: ip == Some(a) <==> Print(a) == value
  {
    ip := ParseLoop(value);
    forall a: seq<byte> | |a| == 4 ensures Parse(value) == Some(a) <==> Print(a) == value {
      ParseInvertsPrint(value, a);
    }
  }

  method ParseLoop(value: string) returns (ip: Option<seq<byte>>)
    ensures ip == Parse(value)
  {
    var octets: seq<byte> := [0, 0, 0, 0];
    var octet: byte, octetIndex, digits, leadingZero := 0, 0, 0, false;
    var index := 0;
    while index < |value|
      invariant 0 <= index <= |value| && 0 <= octetIndex <= 3 && |octets| == 4 && 0 <= digits
      invariant ScanText(value[..index]) == At(octets[..octetIndex], octet, digits, leadingZero)
    {
      var c := value[index];
      NextCharacter(value, index);
      if c == '.' {
        if digits == 0 || octetIndex >= 3 {
          return None;
        }
        octets := octets[octetIndex := octet];
        octetIndex := octetIndex + 1;
        octet, digits, leadingZero := 0, 0, false;
      } else {
        if c < '0' || c > '9' || digits == 3 || (digits > 0 && leadingZero) {
          return None;
        }
        if digits == 0 {
          leadingZero := c == '0';
        }
        var next := octet * 10 + (c - '0') as int;
        if next > 255 {
          return None;
        }
        octet := next;
        digits := digits + 1;
      }
      index := index + 1;
    }
    assert value[..index] == value;
    if octetIndex != 3 || digits == 0 {
      return None;
    }
    octets := octets[octetIndex := octet];
    assert octets == octets[..3] + [octet];
    return Some(octets);
  }

  lemma {:induction false} NextCharacter(s: string, i: nat)
    requires i < |s|
    ensures ScanText(s[..i + 1]) == Step(ScanText(s[..i]), s[i])
    ensures ScanText(s[..i + 1]) == Bad ==> Parse(s) == None
  {
    assert s[..i + 1] == s[..i] + [s[i]];
    ScanAppend(s[..i], s[i]);
    if ScanText(s[..i + 1]) == Bad {
      BadStays(s, i + 1);
    }
  }

  lemma {:induction false} BadStays(s: string, i: nat)
    requires i <= |s| && ScanText(s[..i]) == Bad
    ensures ScanText(s) == Bad
    decreases |s| - i
  {
    if i == |s| {
      assert s[..i] == s;
    } else {
      assert s[..i + 1] == s[..i] + [s[i]];
      ScanAppend(s[..i], s[i]);
      BadStays(s, i + 1);
    }
  }
}
