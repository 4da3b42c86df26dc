/**
  How far a data frame can outgrow the transmit buffer of `9 + 2 * len` octets: by two octets,
  and no more.
 */
module PtpOverflow {
  import Crc8
  import Crc16
  import opened Fold
  import opened Octets
  import opened PtpFrame
  import opened PtpSender

  lemma {:induction false} ControlsAppend(a: seq<octet>, b: seq<octet>)
    ensures Controls(a + b) == Controls(a) + Controls(b)
  {
    if a == [] {
      assert a + b == b;
    } else {
      assert (a + b)[1..] == a[1..] + b;
      ControlsAppend(a[1..], b);
    }
  }

  lemma {:induction false} ControlsAtMost(s: seq<octet>)
    ensures Controls(s) <= |s|
    ensures (forall i :: 0 <= i < |s| ==> IsControl(s[i])) ==> Controls(s) == |s|
  {
    if s != [] {
      ControlsAtMost(s[1..]);
    }
  }

  lemma PlainControls(f: Frame)
    requires f.pdu != []
    ensures Controls(Plain(f)) == Controls(Header(f.typ, |f.pdu|)) + Controls(f.pdu) + Controls(CheckOctets(f.pdu))
  {
    hide Controls, Header, CheckOctets;
    ControlsAppend(Header(f.typ, |f.pdu|), f.pdu + CheckOctets(f.pdu));
    ControlsAppend(f.pdu, CheckOctets(f.pdu));
  }

  // ----- The header of a data frame -----

  /** Bits. */
  lemma BitsOf(c: octet)
    ensures c == 0 ==> ToBits(c) == 0
    ensures c == 1 ==> ToBits(c) == 1
    ensures c == 2 ==> ToBits(c) == 2
    ensures c == 3 ==> ToBits(c) == 3
    ensures c == 0x10 ==> ToBits(c) == 0x10
    ensures c == 0x11 ==> ToBits(c) == 0x11
    ensures c == 0x13 ==> ToBits(c) == 0x13
  {
    ToFromBits(0);
    ToFromBits(1);
    ToFromBits(2);
    ToFromBits(3);
    ToFromBits(0x10);
    ToFromBits(0x11);
    ToFromBits(0x13);
  }

  predicate ControlBits(b: bv8)
  {
    b == 0x10 || b == 0x11 || b == 0x13
  }

  lemma ControlOctet(b: bv8)
    ensures IsControl(FromBits(b)) <==> ControlBits(b)
  {
    ToFromBits(b);
    BitsOf(FromBits(b));
  }

  function HeaderBits(t: bv8, h: bv8, l: bv8): bv8
  {
    Crc8.BacnetClosed(Crc8.Add(Crc8.BacnetClosed(Crc8.Add(Crc8.BacnetClosed(Crc8.Add(0xff, t)), h)), l))
  }

  /** Bits. */
  lemma NotBothBits(t: bv8, h: bv8, l: bv8)
    requires (t == 2 || t == 3) && h <= 2 && ControlBits(l)
    ensures !ControlBits(Complement8(HeaderBits(t, h, l)))
  {
  }

  lemma HeaderCheckBits(t: octet, h: octet, l: octet)
    ensures HeaderCheck([t, h, l]) == FromBits(Complement8(HeaderBits(ToBits(t), ToBits(h), ToBits(l))))
  {
    var w := Bits([t, h, l]);
    RunThree(Crc8.BacnetOctet, 0xff, w);
    var r1 := Crc8.BacnetOctet(0xff, w[0]);
    var r2 := Crc8.BacnetOctet(r1, w[1]);
    Crc8.BacnetOctetIsClosed(0xff, w[0]);
    Crc8.BacnetOctetIsClosed(r1, w[1]);
    Crc8.BacnetOctetIsClosed(r2, w[2]);
  }

  /** At most one octet of the header of a data frame is a control octet. */
  lemma DataHeaderControls(typ: octet, len: nat)
    requires (typ == DATA_0 || typ == DATA_1) && len <= MTU
    ensures Controls(Header(typ, len)) == (if IsControl(LowOctet(len)) then 1 else 0)
                                          + if IsControl(HeaderCheck([typ, HighOctet(len), LowOctet(len)])) then 1 else 0
    ensures Controls(Header(typ, len)) <= 1
  {
    var h, l := HighOctet(len), LowOctet(len);
    var k := HeaderCheck([typ, h, l]);
    HighIsSmall(len);
    SixControls(0x55, 0xff, typ, h, l, k);
    assert Header(typ, len) == [0x55, 0xff, typ, h, l, k];
    if IsControl(l) {
      BitsOf(typ);
      BitsOf(h);
      BitsOf(l);
      HeaderCheckBits(typ, h, l);
      NotBothBits(ToBits(typ), ToBits(h), ToBits(l));
      ControlOctet(Complement8(HeaderBits(ToBits(typ), ToBits(h), ToBits(l))));
    }
  }

  lemma HighIsSmall(len: nat)
    requires len <= MTU
    ensures HighOctet(len) <= 2
  {
  }

  lemma SixControls(a: octet, b: octet, c: octet, d: octet, e: octet, f: octet)
    requires !IsControl(a) && !IsControl(b) && !IsControl(c) && !IsControl(d)
    ensures Controls([a, b, c, d, e, f]) == (if IsControl(e) then 1 else 0) + if IsControl(f) then 1 else 0
  {
    var s := [a, b, c, d, e, f];
    assert s[1..] == [b, c, d, e, f] && s[1..][1..] == [c, d, e, f] && s[1..][1..][1..] == [d, e, f];
    assert [d, e, f][1..] == [e, f] && [e, f][1..] == [f] && [f][1..] == [];
    assert Controls(s) == Controls([b, c, d, e, f]) == Controls([c, d, e, f]) == Controls([d, e, f]) == Controls([e, f]);
    assert Controls([f]) == (if IsControl(f) then 1 else 0) + Controls([]);
  }

  /** A data frame is at most two octets longer than the transmit buffer. */
  lemma ExcessAtMostTwo(f: Frame)
    requires IsData(f) && 0 < |f.pdu| <= MTU
    ensures |Wire(f)| <= (9 + 2 * |f.pdu|) + 2
  {
    hide Controls, Header, CheckOctets;
    WireLength(Plain(f));
    PlainControls(f);
    DataHeaderControls(f.typ, |f.pdu|);
    ControlsAtMost(f.pdu);
    ControlsAtMost(CheckOctets(f.pdu));
  }

  // ----- A frame that does overflow -----

  const FLOOD: seq<octet> := [0x10, 0x10, 0x10, 0x10, 0x10, 0x10, 0x10, 0x11, 0x10, 0x11, 0x13, 0x11, 0x11, 0x11, 0x10, 0x13]

  function FourSteps(r: bv16, a: bv8, b: bv8, c: bv8, d: bv8): bv16
  {
    var r1 := Crc16.Closed(Crc16.Add(r, Crc16.Wide(a)));
    var r2 := Crc16.Closed(Crc16.Add(r1, Crc16.Wide(b)));
    var r3 := Crc16.Closed(Crc16.Add(r2, Crc16.Wide(c)));
    Crc16.Closed(Crc16.Add(r3, Crc16.Wide(d)))
  }

  lemma OneOctet(r: bv16, c: bv8, rest: seq<bv8>)
    ensures Crc16.Remainder(r, [c] + rest) == Crc16.Remainder(Crc16.Closed(Crc16.Add(r, Crc16.Wide(c))), rest)
  {
    hide Crc16.Closed;
    Crc16.SerialOctetClosed(r, c);
    assert ([c] + rest)[1..] == rest;
  }

  lemma FourOctets(r: bv16, a: bv8, b: bv8, c: bv8, d: bv8, rest: seq<bv8>)
    ensures Crc16.Remainder(r, [a, b, c, d] + rest) == Crc16.Remainder(FourSteps(r, a, b, c, d), rest)
  {
    hide Crc16.Remainder, Crc16.Closed, Crc16.Add, Crc16.Wide;
    var r1 := Crc16.Closed(Crc16.Add(r, Crc16.Wide(a)));
    var r2 := Crc16.Closed(Crc16.Add(r1, Crc16.Wide(b)));
    var r3 := Crc16.Closed(Crc16.Add(r2, Crc16.Wide(c)));
    OneOctet(r, a, [b, c, d] + rest);
    OneOctet(r1, b, [c, d] + rest);
    OneOctet(r2, c, [d] + rest);
    OneOctet(r3, d, rest);
    assert [a] + ([b, c, d] + rest) == [a, b, c, d] + rest;
    assert [b] + ([c, d] + rest) == [b, c, d] + rest;
    assert [c] + ([d] + rest) == [c, d] + rest;
  }

  /** Bits. */
  lemma FloodSteps()
    ensures FourSteps(0xffff, 0x10, 0x10, 0x10, 0x10) == 0xc005
    ensures FourSteps(0xc005, 0x10, 0x10, 0x10, 0x11) == 0xb660
    ensures FourSteps(0xb660, 0x10, 0x11, 0x13, 0x11) == 0x6766
    ensures FourSteps(0x6766, 0x11, 0x11, 0x10, 0x13) == 0xecee
  {
  }

  lemma FloodRemainder()
    ensures Crc16.Remainder(0xffff, Bits(FLOOD)) == 0xecee
  {
    hide Crc16.Remainder, FourSteps;
    var p, q, r: seq<bv8> := [0x10, 0x11, 0x13, 0x11], [0x11, 0x11, 0x10, 0x13], [];
    FloodSteps();
    FourOctets(0xffff, 0x10, 0x10, 0x10, 0x10, [0x10, 0x10, 0x10, 0x11] + (p + (q + r)));
    FourOctets(0xc005, 0x10, 0x10, 0x10, 0x11, p + (q + r));
    FourOctets(0xb660, 0x10, 0x11, 0x13, 0x11, q + r);
    FourOctets(0x6766, 0x11, 0x11, 0x10, 0x13, r);
    BitsOf(0x10);
    BitsOf(0x11);
    BitsOf(0x13);
    assert Bits(FLOOD) == [0x10, 0x10, 0x10, 0x10] + ([0x10, 0x10, 0x10, 0x11] + (p + (q + r)));
    NothingAdded(0xecee);
  }

  lemma NothingAdded(r: bv16)
    ensures Crc16.Remainder(r, []) == r
  {
  }

  /** Bits. */
  lemma FloodCheckBits()
    ensures Crc16.Low(Complement16(0xecee)) == 0x11 && Crc16.High(Complement16(0xecee)) == 0x13
  {
  }

  lemma FloodCheck()
    ensures CheckOctets(FLOOD) == [0x11, 0x13]
  {
    FloodRemainder();
    FloodCheckBits();
  }

  lemma FloodControls()
    ensures Controls(FLOOD) == 16 && Controls([0x11, 0x13]) == 2
  {
    hide Controls;
    assert forall i :: 0 <= i < |FLOOD| ==> FLOOD[i] == 0x10 || FLOOD[i] == 0x11 || FLOOD[i] == 0x13;
    ControlsAtMost(FLOOD);
    var check: seq<octet> := [0x11, 0x13];
    assert IsControl(check[0]) && IsControl(check[1]);
    ControlsAtMost(check);
  }

  lemma FloodHeaderControls()
    ensures Controls(Header(DATA_0, 16)) == 1
  {
    hide Controls, Header, HeaderCheck;
    DataHeaderControls(DATA_0, 16);
    assert LowOctet(16) == 0x10;
  }

  /** The bound is met: a message of sixteen control octets whose length and check octets are
      control octets too. */
  lemma FloodOverflows()
    ensures |Wire(Frame(DATA_0, FLOOD))| == (9 + 2 * |FLOOD|) + 2
  {
    hide Controls, Header, CheckOctets, Plain, StuffAll;
    var f := Frame(DATA_0, FLOOD);
    WireLength(Plain(f));
    PlainControls(f);
    FloodHeaderControls();
    FloodCheck();
    FloodControls();
  }
}
