/**
  Frames of the BACnet MS/TP link (clause 9 of ANSI/ASHRAE 135): the general sender, the quick
  sender that reuses a prepared header, and the receiver, which looks for a frame at the start
  of its buffer.
 */
module MstpFrame {
  import opened Octets
  import PtpFrame
  import Crc8
  import Crc16

  datatype Frame = Frame(typ: octet, dst: octet, src: octet, pdu: seq<octet>)

  function Header(typ: octet, dst: octet, src: octet, len: nat): (h: seq<octet>)
    ensures |h| == 8
  {
    var body := [typ, dst, src, HighOctet(len), LowOctet(len)];
    [0x55, 0xff] + body + [HeaderCheck(body)]
  }

  /** The octets handed to the serial port: the data check is computed but not sent. */
  function Sent(f: Frame): (s: seq<octet>)
    ensures |s| == |f.pdu| + 8
  {
    Header(f.typ, f.dst, f.src, |f.pdu|) + f.pdu
  }

  /** A frame with its data check, as clause 9.3 of the standard has it. */
  function Whole(f: Frame): (s: seq<octet>)
    ensures |s| == if f.pdu == [] then 8 else |f.pdu| + 10
  {
    Sent(f) + if f.pdu == [] then [] else PtpFrame.CheckOctets(f.pdu)
  }

  /** Octets 2 to 6 of a header, which its check covers. */
  function Covered(s: seq<octet>): seq<octet>
    requires |s| >= 8
  {
    [s[2], s[3], s[4], s[5], s[6]]
  }

  datatype Reception = Valid(frame: Frame) | SyncError | HeaderError | DataError | Timeout

  /** Longest buffer a length field can reach into; the receiver does not compare the field
      with the size of its own buffer. */
  const REACH: nat := 0xffff + 10

  /** What is found at the start of the receive buffer. */
  function Reading(s: seq<octet>): Reception
    requires |s| >= REACH
  {
    if s[0] != 0x55 || s[1] != 0xff then SyncError
    else if s[7] != HeaderCheck(Covered(s)) then HeaderError
    else
      var len := Join(s[5], s[6]);
      if len > 0 && Join(s[len + 9], s[len + 8]) != DataCheck(s[8..len + 8]) then DataError
      else Valid(Frame(s[2], s[3], s[4], s[8..len + 8]))
  }

  lemma HeaderLayout(typ: octet, dst: octet, src: octet, len: nat)
    ensures
      var h := Header(typ, dst, src, len);
      && h[0] == 0x55 && h[1] == 0xff && h[7] == HeaderCheck(Covered(h))
      && h[2] == typ && h[3] == dst && h[4] == src && h[5] == HighOctet(len) && h[6] == LowOctet(len)
  {
    hide HeaderCheck, HighOctet, LowOctet;
  }

  /** Octet by octet, in plain numbers. */
  lemma SentOctets(f: Frame)
    requires |f.pdu| < 0x1_0000
    ensures
      var p, n := Sent(f), |f.pdu|;
      && p[0] == 0x55 && p[1] == 0xff && p[2] == f.typ && p[3] == f.dst && p[4] == f.src
      && 256 * p[5] as int + p[6] as int == n && p[8..] == f.pdu
  {
    hide HeaderCheck, HighOctet, LowOctet;
    SplitDigits(|f.pdu|);
    assert Sent(f)[..8] == Header(f.typ, f.dst, f.src, |f.pdu|);
  }

  /** The receiver tests of Annex G of the standard: the header after its preamble always leaves
      0x55, and the data with their check, which is not sent, 0xf0b8. */
  lemma WholeResidues(f: Frame)
    ensures
      var p := Whole(f);
      && Crc8.BacnetRemainder(0xff, Bits(p[2..8])) == 0x55
      && (f.pdu != [] ==> Crc16.Remainder(0xffff, Bits(p[8..])) == 0xf0b8)
  {
    hide HeaderCheck, DataCheck, HighOctet, LowOctet, Bits;
    var p := Whole(f);
    var head := [f.typ, f.dst, f.src, HighOctet(|f.pdu|), LowOctet(|f.pdu|)];
    assert p[2..8] == head + [HeaderCheck(head)];
    HeaderResidue(head);
    if f.pdu != [] {
      assert p[8..] == f.pdu + PtpFrame.CheckOctets(f.pdu);
      DataResidue(f.pdu);
    }
  }

  lemma HeaderRead(s: seq<octet>)
    requires |s| >= 8 && s[0] == 0x55 && s[1] == 0xff && s[7] == HeaderCheck(Covered(s))
    ensures s[..8] == Header(s[2], s[3], s[4], Join(s[5], s[6]))
  {
    hide HeaderCheck;
  }

  lemma CheckRead(pdu: seq<octet>, lo: octet, hi: octet)
    ensures Join(hi, lo) == DataCheck(pdu) <==> [lo, hi] == PtpFrame.CheckOctets(pdu)
  {
    hide DataCheck, HighOctet, LowOctet, Join;
    JoinSplit(DataCheck(pdu));
  }

  /** The reading of a buffer that starts with what was sent depends on the two octets after it. */
  lemma ReadingOfSent(s: seq<octet>, f: Frame)
    requires |s| >= REACH && |f.pdu| < 0x1_0000 && Sent(f) <= s
    ensures
      var n := |f.pdu| + 8;
      Reading(s) == if f.pdu == [] || s[n..n + 2] == PtpFrame.CheckOctets(f.pdu) then Valid(f) else DataError
  {
    hide HeaderCheck, DataCheck, Header, HighOctet, LowOctet, Join, PtpFrame.CheckOctets;
    var len, h := |f.pdu|, Header(f.typ, f.dst, f.src, |f.pdu|);
    HeaderLayout(f.typ, f.dst, f.src, len);
    JoinSplit(len);
    assert forall i :: 0 <= i < 8 ==> s[i] == Sent(f)[i] == h[i];
    assert s[8..len + 8] == Sent(f)[8..len + 8] == f.pdu;
    CheckRead(f.pdu, s[len + 8], s[len + 9]);
    assert s[len + 8..len + 10] == [s[len + 8], s[len + 9]];
  }

  /** What is accepted starts the buffer, header and data. */
  lemma AcceptedWasSent(s: seq<octet>, f: Frame)
    requires |s| >= REACH && Reading(s) == Valid(f)
    ensures |f.pdu| < 0x1_0000 && Sent(f) <= s
  {
    hide HeaderCheck, DataCheck, Header, Covered, Join;
    var len := Join(s[5], s[6]);
    HeaderRead(s);
    assert s[..len + 8] == s[..8] + s[8..len + 8];
  }

  lemma WholeStarts(s: seq<octet>, f: Frame)
    requires |s| >= REACH && |f.pdu| < 0x1_0000 && Sent(f) <= s
    ensures
      var n := |f.pdu| + 8;
      Whole(f) <= s <==> f.pdu == [] || s[n..n + 2] == PtpFrame.CheckOctets(f.pdu)
  {
    hide Sent, PtpFrame.CheckOctets;
    if f.pdu != [] {
      var n := |f.pdu| + 8;
      assert s[..n + 2] == Sent(f) + s[n..n + 2];
      assert Whole(f)[n..] == PtpFrame.CheckOctets(f.pdu) && s[..n + 2][n..] == s[n..n + 2];
    }
  }

  /** A frame is accepted if and only if the buffer starts with that whole frame. */
  lemma AcceptedExactly(s: seq<octet>, f: Frame)
    requires |s| >= REACH
    ensures Reading(s) == Valid(f) <==> |f.pdu| < 0x1_0000 && Whole(f) <= s
  {
    hide Reading, Sent, PtpFrame.CheckOctets;
    if Reading(s) == Valid(f) {
      AcceptedWasSent(s, f);
    }
    if |f.pdu| < 0x1_0000 && Sent(f) <= s {
      ReadingOfSent(s, f);
      WholeStarts(s, f);
    }
  }

  /** What a frame without data sends is received as that frame, whatever the buffer held. */
  lemma QuickFrameReceived(f: Frame, stale: seq<octet>)
    requires f.pdu == [] && |stale| >= REACH
    ensures Reading(Sent(f) + stale[8..]) == Valid(f)
  {
    hide Reading, Sent;
    ReadingOfSent(Sent(f) + stale[8..], f);
  }

  /** What a data frame sends is received as that frame if and only if the two octets that
      happen to follow in the receiver's buffer are the check that was not sent. */
  lemma DataFrameReceived(f: Frame, stale: seq<octet>)
    requires 0 < |f.pdu| < 0x1_0000 && |stale| >= REACH
    ensures
      var n := |f.pdu| + 8;
      Reading(Sent(f) + stale[n..]) == if stale[n..n + 2] == PtpFrame.CheckOctets(f.pdu) then Valid(f) else DataError
  {
    hide Reading, Sent, PtpFrame.CheckOctets;
    var n := |f.pdu| + 8;
    var s := Sent(f) + stale[n..];
    ReadingOfSent(s, f);
    assert s[n..n + 2] == stale[n..n + 2];
  }

  /** So for every data frame there is a buffer that loses it. */
  lemma DataFrameLost(f: Frame) returns (stale: seq<octet>)
    requires 0 < |f.pdu| < 0x1_0000
    ensures |stale| == REACH && Reading(Sent(f) + stale[|f.pdu| + 8..]) == DataError
  {
    hide Reading, Sent, DataCheck;
    var low, n := LowOctet(DataCheck(f.pdu)), |f.pdu| + 8;
    var other: octet := if low == 0 then 1 else 0;
    stale := seq(REACH, _ => other);
    DataFrameReceived(f, stale);
    assert stale[n..n + 2][0] == other != PtpFrame.CheckOctets(f.pdu)[0];
  }

  lemma HeaderCorruption(s: seq<octet>, k: nat, c: octet)
    requires |s| >= REACH && Reading(s).Valid? && k < 8 && c != s[k]
    ensures Reading(s[k := c]) == if k < 2 then SyncError else HeaderError
  {
    hide HeaderCheck, DataCheck, Join;
    if 2 <= k < 7 {
      assert Covered(s[k := c]) == Covered(s)[k - 2 := c];
      OneOctetChangesChecks(Covered(s), k - 2, c);
    }
  }

  lemma DataCorruption(s: seq<octet>, len: nat, k: nat, c: octet)
    requires |s| >= REACH && Reading(s).Valid? && len == Join(s[5], s[6]) > 0
    requires 8 <= k < len + 10 && c != s[k]
    ensures Reading(s[k := c]) == DataError
  {
    hide HeaderCheck, DataCheck, Join;
    var s' := s[k := c];
    assert Covered(s') == Covered(s);
    if k < len + 8 {
      assert s'[8..len + 8] == s[8..len + 8][k - 8 := c];
      OneOctetChangesChecks(s[8..len + 8], k - 8, c);
    } else {
      assert s'[8..len + 8] == s[8..len + 8];
      CheckOctetMatters(s[len + 9], s[len + 8], s'[len + 9], s'[len + 8]);
    }
  }

  /** One corrupted octet of an otherwise valid frame is always noticed, wherever it is. */
  lemma CorruptionNoticed(s: seq<octet>, f: Frame, k: nat, c: octet)
    requires |s| >= REACH && Reading(s) == Valid(f) && k < |Whole(f)| && c != s[k]
    ensures Reading(s[k := c]) == if k < 2 then SyncError else if k < 8 then HeaderError else DataError
  {
    hide HeaderCheck, DataCheck, Whole;
    if k < 8 {
      HeaderCorruption(s, k, c);
    } else {
      DataCorruption(s, |f.pdu|, k, c);
    }
  }

  lemma CheckOctetMatters(hi: octet, lo: octet, hi': octet, lo': octet)
    requires hi != hi' || lo != lo'
    ensures Join(hi, lo) != Join(hi', lo')
  {
    hide Join, HighOctet, LowOctet;
  }

  // ----- The link's buffers -----

  class Link {
    /** The general transmit buffer, the prepared eight-octet one, and the receive buffer with
        the memory a length field can reach. */
    const tx: array<octet>
    const token: array<octet>
    const rx: array<octet>
    var off: nat

    /** Octets 0, 1, 5 and 6 of the prepared header are in place. */
    ghost predicate Valid()
      reads this, token
    {
      && tx != token && token != rx && tx != rx
      && token.Length == 8 && rx.Length == REACH && tx.Length == REACH
      && token[0] == 0x55 && token[1] == 0xff && token[5] == 0 && token[6] == 0
    }

    constructor (ts: octet)
      ensures Valid() && fresh(tx) && fresh(token) && fresh(rx)
    {
      tx, rx := new octet[REACH](_ => 0), new octet[REACH](_ => 0);
      var t := new octet[8](_ => 0);
      t[0], t[1], t[2], t[3], t[4], t[5], t[6] := 0x55, 0xff, 0, 0, ts, 0, 0;
      token, off := t, 0;
    }

    method WriteHeader(f: Frame)
      requires Valid()
      modifies tx
      ensures Valid() && tx[..8] == Header(f.typ, f.dst, f.src, |f.pdu|)
    {
      hide HeaderCheck, HighOctet, LowOctet;
      var len := |f.pdu|;
      tx[0], tx[1], tx[2], tx[3], tx[4] := 0x55, 0xff, f.typ, f.dst, f.src;
      tx[5], tx[6] := HighOctet(len), LowOctet(len);
      tx[7] := HeaderCheckOf([tx[2], tx[3], tx[4], tx[5], tx[6]]);
    }

    /** Copies the data behind the header, with their check behind them. */
    method WriteData(f: Frame)
      requires Valid() && 0 < |f.pdu| < 0x1_0000
      modifies tx
      ensures Valid() && tx[..8] == old(tx[..8])
      ensures tx[8..|f.pdu| + 8] == f.pdu && tx[|f.pdu| + 8..|f.pdu| + 10] == PtpFrame.CheckOctets(f.pdu)
    {
      hide DataCheck, HighOctet, LowOctet;
      var len := |f.pdu|;
      var crc := DataCheckOf(f.pdu);
      for i := 0 to len
        invariant tx[..8] == old(tx[..8]) && tx[8..8 + i] == f.pdu[..i]
      {
        tx[8 + i] := f.pdu[i];
      }
      assert tx[8..8 + len] == f.pdu;
      tx[8 + len] := LowOctet(crc);
      tx[9 + len] := HighOctet(crc);
    }

    /** Encodes a frame and hands it to the serial port. */
    method FrameSend(f: Frame) returns (out: seq<octet>)
      requires Valid() && |f.pdu| < 0x1_0000
      modifies tx
      ensures Valid() && out == Sent(f)
      ensures f.pdu != [] ==> tx[..|f.pdu| + 10] == Whole(f)
    {
      hide Header, PtpFrame.CheckOctets;
      var len := |f.pdu|;
      WriteHeader(f);
      if len > 0 {
        WriteData(f);
        assert tx[..len + 10] == tx[..8] + tx[8..len + 8] + tx[len + 8..len + 10];
        assert tx[..len + 8] == tx[..8] + tx[8..len + 8];
      } else {
        tx[8], tx[9] := 0xff, 0xff;
      }
      out := tx[..len + 8];
    }

    /** Sends a frame without data from the prepared header: the octets are those of the
        general sender, in every state. */
    method FastSend(f: Frame) returns (out: seq<octet>)
      requires Valid() && f.pdu == []
      modifies token
      ensures Valid() && out == Sent(f)
    {
      hide HeaderCheck, DataCheck;
      token[2], token[3], token[4] := f.typ, f.dst, f.src;
      token[7] := HeaderCheckOf([token[2], token[3], token[4], 0, 0]);
      out := token[..];
    }

    /** Receives what arrived, if anything did: it lands at the start of the buffer, and the
        buffer is read from there whatever its length was. */
    method FrameRecv(got: seq<octet>) returns (r: Reception)
      requires Valid() && |got| <= REACH
      modifies this, rx
      ensures Valid()
      ensures rx[..] == got + old(rx[..])[|got|..]
      ensures r == if got == [] then Timeout else Reading(rx[..])
      ensures off == match r
        case Timeout => old(off)
        case Valid(f) => |f.pdu| + 8
        case DataError => 8
        case _ => 0
    {
      hide HeaderCheck, DataCheck, Join;
      for i := 0 to |got|
        invariant off == old(off)
        invariant forall m :: 0 <= m < REACH ==> rx[m] == if m < i then got[m] else old(rx[m])
      {
        rx[i] := got[i];
      }
      if |got| == 0 {
        return Timeout;
      }
      off := 0;
      if rx[0] != 0x55 {
        return SyncError;
      }
      if rx[1] != 0xff {
        return SyncError;
      }
      var crc := HeaderCheckOf([rx[2], rx[3], rx[4], rx[5], rx[6]]);
      if rx[7] != crc {
        return HeaderError;
      }
      var len := Join(rx[5], rx[6]);
      if len > 0 {
        var chk := Join(rx[len + 9], rx[len + 8]);
        var sum := DataCheckOf(rx[8..len + 8]);
        if sum != chk {
          off := 8;
          return DataError;
        }
      }
      off := len + 8;
      r := Reception.Valid(Frame(rx[2], rx[3], rx[4], rx[8..len + 8]));
    }
  }
}
