/**
  Octets as the protocol modules see them, sixteen-bit lengths as pairs of octets, and the
  BACnet header and data checks over octet buffers.
 */
module Octets {
  import Crc8
  import Crc16

  newtype octet = x: int | 0 <= x < 256

  function HighOctet(n: nat): octet
  {
    ((n / 256) % 256) as octet
  }

  function LowOctet(n: nat): octet
  {
    (n % 256) as octet
  }

  /** The sixteen-bit field a receiver reads back from its two octets. */
  function Join(hi: octet, lo: octet): (n: nat)
    ensures n < 0x1_0000
    ensures HighOctet(n) == hi && LowOctet(n) == lo
  {
    (hi as nat) * 256 + (lo as nat)
  }

  /** A length survives the trip exactly when it fits sixteen bits. */
  lemma JoinSplit(n: nat)
    ensures Join(HighOctet(n), LowOctet(n)) == n % 0x1_0000
  {
    var a, b := n / 256, n % 256;
    DigitsMod(a / 256, a % 256, b, n);
  }

  lemma SplitDigits(n: nat)
    requires n < 0x1_0000
    ensures 256 * HighOctet(n) as int + LowOctet(n) as int == n
  {
  }

  lemma DigitsMod(c: nat, d: nat, b: nat, n: nat)
    requires d < 256 && b < 256 && n == 0x1_0000 * c + (256 * d + b)
    ensures n % 0x1_0000 == 256 * d + b
  {
  }

  function ToBits(c: octet): bv8 { c as bv8 }

  function FromBits(b: bv8): octet { b as octet }

  function Bits(s: seq<octet>): (b: seq<bv8>)
    ensures |b| == |s| && forall i :: 0 <= i < |s| ==> b[i] == ToBits(s[i])
  {
    seq(|s|, i requires 0 <= i < |s| => ToBits(s[i]))
  }

  lemma FromToBits(c: octet)
    ensures FromBits(ToBits(c)) == c
  {
    var b := Preimage(c);
    ToFromBits(b);
  }

  lemma {:induction false} Preimage(c: octet) returns (b: bv8)
    ensures FromBits(b) == c
  {
    if c == 0 {
      b := 0;
    } else {
      var p := Preimage(c - 1);
      FromBitsNext(p);
      b := p + 1;
    }
  }

  lemma FromBitsNext(b: bv8)
    requires FromBits(b) < 255
    ensures FromBits(b + 1) == FromBits(b) + 1
  {
  }

  lemma ToFromBits(b: bv8)
    ensures ToBits(FromBits(b)) == b
  {
  }

  function Complement8(x: bv8): bv8 { !x }

  function Complement16(x: bv16): bv16 { !x }

  /** The check octet of a header: the complemented 8-bit remainder. */
  function HeaderCheck(s: seq<octet>): octet
  {
    FromBits(Complement8(Crc8.BacnetRemainder(0xff, Bits(s))))
  }

  /** The check of a data unit: the complemented 16-bit remainder. */
  function DataCheck(s: seq<octet>): (n: nat)
    ensures n < 0x1_0000
  {
    Value16(Complement16(Crc16.Remainder(0xffff, Bits(s))))
  }

  function Value16(x: bv16): (n: nat)
    ensures n < 0x1_0000
  {
    Join(FromBits(Crc16.High(x)), FromBits(Crc16.Low(x)))
  }

  method HeaderCheckOf(s: seq<octet>) returns (c: octet)
    ensures c == HeaderCheck(s)
  {
    var crc := Crc8.BacnetCrc8(0xff, Bits(s));
    c := FromBits(Complement8(crc));
  }

  method DataCheckOf(s: seq<octet>) returns (c: nat)
    ensures c == DataCheck(s) && c < 0x1_0000
  {
    var crc := Crc16.BacnetCrc16(0xffff, Bits(s));
    c := Value16(Complement16(crc));
  }

  /** Bits. */
  lemma ComplementTwice(a: bv8, c: bv16)
    ensures Complement8(Complement8(a)) == a
    ensures Complement16(Complement16(c)) == c
  {
  }

  /** Bits. */
  lemma HalvesDetermine(c: bv16, d: bv16)
    requires Crc16.Low(c) == Crc16.Low(d) && Crc16.High(c) == Crc16.High(d)
    ensures c == d
  {
  }

  lemma HeaderCheckInjective(a: bv8, b: bv8)
    requires FromBits(Complement8(a)) == FromBits(Complement8(b))
    ensures a == b
  {
    ToFromBits(Complement8(a));
    ToFromBits(Complement8(b));
    ComplementTwice(a, 0);
    ComplementTwice(b, 0);
  }

  lemma DataCheckInjective(c: bv16, d: bv16)
    requires Value16(Complement16(c)) == Value16(Complement16(d))
    ensures c == d
  {
    var c', d' := Complement16(c), Complement16(d);
    assert HighOctet(Value16(c')) == HighOctet(Value16(d')) && LowOctet(Value16(c')) == LowOctet(Value16(d'));
    ToFromBits(Crc16.High(c'));
    ToFromBits(Crc16.High(d'));
    ToFromBits(Crc16.Low(c'));
    ToFromBits(Crc16.Low(d'));
    HalvesDetermine(c', d');
    ComplementTwice(0, c);
    ComplementTwice(0, d);
  }

  /** One corrupted octet, anywhere in a buffer of any length, changes both checks. */
  lemma OneOctetChangesChecks(s: seq<octet>, k: nat, c: octet)
    requires k < |s| && c != s[k]
    ensures HeaderCheck(s[k := c]) != HeaderCheck(s)
    ensures DataCheck(s[k := c]) != DataCheck(s)
  {
    var s' := s[k := c];
    FromToBits(c);
    FromToBits(s[k]);
    assert Bits(s') == Bits(s)[k := ToBits(c)];
    Crc8.OneOctetDetected(0xff, Bits(s), k, ToBits(c));
    Crc16.OneOctetDetected(0xffff, Bits(s), k, ToBits(c));
    if HeaderCheck(s') == HeaderCheck(s) {
      HeaderCheckInjective(Crc8.BacnetRemainder(0xff, Bits(s)), Crc8.BacnetRemainder(0xff, Bits(s')));
    }
    if DataCheck(s') == DataCheck(s) {
      DataCheckInjective(Crc16.Remainder(0xffff, Bits(s)), Crc16.Remainder(0xffff, Bits(s')));
    }
  }

  lemma BitsAppend(a: seq<octet>, b: seq<octet>)
    ensures Bits(a + b) == Bits(a) + Bits(b)
  {
    hide ToBits;
  }

  /** Bits. */
  lemma ComplementIsSum(a: bv8, c: bv16)
    ensures Complement8(a) == Crc8.Add(a, 0xff) && Complement16(c) == Crc16.Add(c, 0xffff)
  {
  }

  /** Octets followed by their header check. */
  lemma HeaderResidue(s: seq<octet>)
    ensures Crc8.BacnetRemainder(0xff, Bits(s + [HeaderCheck(s)])) == 0x55
  {
    hide Complement8, Complement16, Crc8.Add, Crc16.Add, Crc8.BacnetRemainder, ToBits, FromBits;
    var r := Crc8.BacnetRemainder(0xff, Bits(s));
    BitsAppend(s, [HeaderCheck(s)]);
    ToFromBits(Complement8(r));
    ComplementIsSum(r, 0);
    assert Bits([HeaderCheck(s)]) == [Crc8.Add(r, 0xff)];
    Crc8.GoodHeaderResidue(Bits(s));
  }

  /** Octets followed by their data check, low octet first. */
  lemma DataResidue(s: seq<octet>)
    ensures Crc16.Remainder(0xffff, Bits(s + [LowOctet(DataCheck(s)), HighOctet(DataCheck(s))])) == 0xf0b8
  {
    hide Complement8, Complement16, Crc8.Add, Crc16.Add, Crc16.Remainder, ToBits, FromBits, HighOctet, LowOctet, Crc16.Low, Crc16.High;
    var f := Complement16(Crc16.Remainder(0xffff, Bits(s)));
    var w := [LowOctet(DataCheck(s)), HighOctet(DataCheck(s))];
    BitsAppend(s, w);
    ToFromBits(Crc16.Low(f));
    ToFromBits(Crc16.High(f));
    ComplementIsSum(0, Crc16.Remainder(0xffff, Bits(s)));
    assert Bits(w) == [Crc16.Low(f), Crc16.High(f)];
    Crc16.GoodFcsResidue(Bits(s));
  }
}
