/**
  Frames of the BACnet point-to-point link (clause 10 of ANSI/ASHRAE 135): their plain octets,
  the DLE stuffing that keeps XON and XOFF off the wire, and its incremental inverse.
 */
module PtpFrame {
  import opened Octets
  import Crc8
  import Crc16

  const DLE: octet := 0x10
  const XON: octet := 0x11
  const XOFF: octet := 0x13

  /** Size of the receive and transmit buffers, `BACNET_PTP_MTU`. */
  const MTU: nat := 512

  const PREAMBLE: seq<octet> := [0x55, 0xff]

  datatype Frame = Frame(typ: octet, pdu: seq<octet>)

  function Header(typ: octet, len: nat): (h: seq<octet>)
    ensures |h| == 6
  {
    PREAMBLE + [typ, HighOctet(len), LowOctet(len), HeaderCheck([typ, HighOctet(len), LowOctet(len)])]
  }

  /** The data check as it is sent, low octet first. */
  function CheckOctets(pdu: seq<octet>): (c: seq<octet>)
    ensures |c| == 2
  {
    [LowOctet(DataCheck(pdu)), HighOctet(DataCheck(pdu))]
  }

  /** A frame before stuffing; a frame without data carries no data check. */
  function Plain(f: Frame): (p: seq<octet>)
    ensures |p| == if f.pdu == [] then 6 else |f.pdu| + 8
  {
    Header(f.typ, |f.pdu|) + if f.pdu == [] then [] else f.pdu + CheckOctets(f.pdu)
  }

  /** Octet by octet, in plain numbers: the length has its high octet first, the data check its
      low one. */
  lemma PlainOctets(f: Frame)
    requires |f.pdu| < 0x1_0000
    ensures
      var p, n := Plain(f), |f.pdu|;
      && p[0] == 0x55 && p[1] == 0xff && p[2] == f.typ && 256 * p[3] as int + p[4] as int == n
      && (n > 0 ==> p[6..6 + n] == f.pdu && p[n + 6] as int + 256 * p[n + 7] as int == DataCheck(f.pdu))
  {
    hide HeaderCheck, DataCheck, HighOctet, LowOctet;
    SplitDigits(|f.pdu|);
    SplitDigits(DataCheck(f.pdu));
    var p, n := Plain(f), |f.pdu|;
    assert p[..6] == Header(f.typ, n) && p[6..] == if n == 0 then [] else f.pdu + CheckOctets(f.pdu);
    assert n > 0 ==> p[n + 6] == p[6..][n] && p[n + 7] == p[6..][n + 1];
  }

  /** The receiver tests of Annex G of the standard: the header after its preamble always leaves
      0x55, and the data with their check 0xf0b8. */
  lemma PlainResidues(f: Frame)
    ensures
      var p := Plain(f);
      && Crc8.BacnetRemainder(0xff, Bits(p[2..6])) == 0x55
      && (f.pdu != [] ==> Crc16.Remainder(0xffff, Bits(p[6..])) == 0xf0b8)
  {
    hide HeaderCheck, DataCheck, HighOctet, LowOctet, Bits;
    var p := Plain(f);
    var head := [f.typ, HighOctet(|f.pdu|), LowOctet(|f.pdu|)];
    assert p[2..6] == head + [HeaderCheck(head)];
    HeaderResidue(head);
    if f.pdu != [] {
      assert p[6..] == f.pdu + CheckOctets(f.pdu);
      DataResidue(f.pdu);
    }
  }

  // ----- Stuffing -----

  predicate IsControl(c: octet)
  {
    c == DLE || c == XON || c == XOFF
  }

  function Stuff(c: octet): seq<octet>
  {
    if IsControl(c) then [DLE, c + 0x80] else [c]
  }

  function StuffAll(s: seq<octet>): seq<octet>
  {
    if s == [] then [] else Stuff(s[0]) + StuffAll(s[1..])
  }

  /** What a frame looks like on the wire. */
  function Wire(f: Frame): seq<octet>
  {
    StuffAll(Plain(f))
  }

  /** The octets a receiver recovers from `raw`, and whether it ends inside an escape. */
  function Destuff(dle: bool, raw: seq<octet>): (r: (seq<octet>, bool))
    ensures |r.0| <= |raw|
    decreases |raw|
  {
    if raw == [] then ([], dle)
    else if dle then
      var (rest, end) := Destuff(false, raw[1..]);
      ([raw[0] % 0x80] + rest, end)
    else if raw[0] == DLE then Destuff(true, raw[1..])
    else
      var (rest, end) := Destuff(false, raw[1..]);
      ([raw[0]] + rest, end)
  }

  lemma {:induction false} StuffAppend(a: seq<octet>, b: seq<octet>)
    ensures StuffAll(a + b) == StuffAll(a) + StuffAll(b)
  {
    if a == [] {
      assert a + b == b;
    } else {
      assert (a + b)[1..] == a[1..] + b;
      StuffAppend(a[1..], b);
      assert Stuff(a[0]) + (StuffAll(a[1..]) + StuffAll(b)) == StuffAll(a) + StuffAll(b);
    }
  }

  /** Destuffing can stop and resume anywhere, even between a DLE and the octet it escapes. */
  lemma {:induction false} DestuffAppend(dle: bool, a: seq<octet>, b: seq<octet>)
    ensures
      var (x, mid) := Destuff(dle, a);
      var (y, end) := Destuff(mid, b);
      Destuff(dle, a + b) == (x + y, end)
    decreases |a|
  {
    var (x, mid) := Destuff(dle, a);
    var (y, end) := Destuff(mid, b);
    if a == [] {
      assert a + b == b && x + y == y;
    } else {
      assert (a + b)[1..] == a[1..] + b;
      DestuffAppend(!dle && a[0] == DLE, a[1..], b);
      var (rest, _) := Destuff(!dle && a[0] == DLE, a[1..]);
      if dle {
        assert [a[0] % 0x80] + (rest + y) == x + y;
      } else if a[0] != DLE {
        assert [a[0]] + (rest + y) == x + y;
      }
    }
  }

  lemma DestuffOne(c: octet)
    ensures Destuff(false, Stuff(c)) == ([c], false)
  {
    if IsControl(c) {
      var escaped := Stuff(c)[1..];
      assert escaped == [c + 0x80] && escaped[1..] == [];
      EscapeUndone(c);
      assert escaped[0] % 0x80 == c;
      assert [c] + [] == [c] && Destuff(true, escaped) == ([c] + [], false);
      assert Destuff(false, Stuff(c)) == Destuff(true, escaped);
    } else {
      assert Stuff(c)[1..] == [] && [c] + [] == [c];
    }
  }

  lemma EscapeUndone(c: octet)
    requires IsControl(c)
    ensures (c + 0x80) % 0x80 == c
  {
  }

  /** Destuffing undoes stuffing. */
  lemma {:induction false} DestuffStuff(s: seq<octet>)
    ensures Destuff(false, StuffAll(s)) == (s, false)
  {
    if s != [] {
      DestuffOne(s[0]);
      DestuffStuff(s[1..]);
      DestuffAppend(false, Stuff(s[0]), StuffAll(s[1..]));
      assert [s[0]] + s[1..] == s;
    }
  }

  /** Back-to-back frames on the wire destuff to back-to-back plain frames. */
  /** Neither XON nor XOFF ever appears on the wire. */
  lemma {:induction false} NoFlowControlOnWire(s: seq<octet>)
    ensures XON !in StuffAll(s) && XOFF !in StuffAll(s)
  {
    if s != [] {
      NoFlowControlOnWire(s[1..]);
      assert IsControl(s[0]) ==> (s[0] + 0x80) != XON && (s[0] + 0x80) != XOFF;
    }
  }

  function Controls(s: seq<octet>): nat
  {
    if s == [] then 0 else (if IsControl(s[0]) then 1 else 0) + Controls(s[1..])
  }

  lemma {:induction false} WireLength(s: seq<octet>)
    ensures |StuffAll(s)| == |s| + Controls(s)
  {
    if s != [] {
      WireLength(s[1..]);
    }
  }

  /** The transmit buffer has `9 + 2 * len` octets: a frame fits it exactly when its plain
      octets hold at most `len + 1` control octets, or at most three for a frame without data. */
  lemma FitsTransmitBuffer(f: Frame)
    ensures |Wire(f)| <= 9 + 2 * |f.pdu| <==> Controls(Plain(f)) <= if f.pdu == [] then 3 else |f.pdu| + 1
  {
    WireLength(Plain(f));
  }

  // ----- The encoder -----

  method StuffInto(out: seq<octet>, data: seq<octet>) returns (buf: seq<octet>)
    ensures buf == out + StuffAll(data)
  {
    buf := out;
    for i := 0 to |data|
      invariant buf == out + StuffAll(data[..i])
    {
      var c := data[i];
      assert data[..i + 1] == data[..i] + [c] && [c][1..] == [];
      StuffAppend(data[..i], [c]);
      if IsControl(c) {
        buf := buf + [DLE];
        c := c + 0x80;
      }
      buf := buf + [c];
      assert buf == out + StuffAll(data[..i]) + Stuff(data[i]);
    }
    assert data[..|data|] == data;
  }

  lemma WireParts(f: Frame)
    ensures Wire(f) == StuffAll(Header(f.typ, |f.pdu|))
                       + if f.pdu == [] then [] else StuffAll(f.pdu) + StuffAll(CheckOctets(f.pdu))
  {
    if f.pdu == [] {
      assert Plain(f) == Header(f.typ, 0);
    } else {
      StuffAppend(Header(f.typ, |f.pdu|), f.pdu + CheckOctets(f.pdu));
      StuffAppend(f.pdu, CheckOctets(f.pdu));
    }
  }

  method HeaderOctets(typ: octet, len: nat) returns (hdr: seq<octet>)
    ensures hdr == Header(typ, len)
  {
    var hi, lo := HighOctet(len), LowOctet(len);
    var crc := HeaderCheckOf([typ, hi, lo]);
    hdr := PREAMBLE + [typ, hi, lo, crc];
  }

  method CheckOctetsOf(pdu: seq<octet>) returns (check: seq<octet>)
    ensures check == CheckOctets(pdu)
  {
    var crc := DataCheckOf(pdu);
    check := [LowOctet(crc), HighOctet(crc)];
  }

  /** Builds the octets handed to the serial port for one frame. */
  method FrameSend(typ: octet, pdu: seq<octet>) returns (buf: seq<octet>)
    ensures buf == Wire(Frame(typ, pdu))
  {
    hide Header, CheckOctets, Stuff;
    var hdr := HeaderOctets(typ, |pdu|);
    buf := StuffInto([], hdr);
    if |pdu| > 0 {
      buf := StuffInto(buf, pdu);
      var check := CheckOctetsOf(pdu);
      buf := StuffInto(buf, check);
    }
    WireParts(Frame(typ, pdu));
  }
}
