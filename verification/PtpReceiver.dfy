/**
  The incremental frame receiver of the BACnet point-to-point link: octets arrive in arbitrary
  pieces, are destuffed in place, and whatever follows a frame is carried over to the next call.
 */
module PtpReceiver {
  import opened Octets
  import opened Options
  import opened PtpFrame
  import opened Stream

  /** A frame type, or the non-positive code a failed call returns. */
  datatype Outcome = Received(typ: octet) | Failed(code: int)

  predicate GoodHeader(s: seq<octet>)
  {
    |s| >= 6 && s[0] == 0x55 && s[1] == 0xff && s[5] == HeaderCheck([s[2], s[3], s[4]])
  }

  /** What can be read off a good header is exactly the header that was sent. */
  lemma HeaderExact(s: seq<octet>)
    requires GoodHeader(s)
    ensures s[..6] == Header(s[2], Join(s[3], s[4]))
  {
    hide HeaderCheck;
  }

  /** A header that was sent reads back as its own type and length. */
  lemma HeaderReadsBack(typ: octet, len: nat)
    requires len < 0x1_0000
    ensures
      var h := Header(typ, len);
      GoodHeader(h) && h[2] == typ && Join(h[3], h[4]) == len
  {
    hide HeaderCheck;
    JoinSplit(len);
  }

  class Receiver {
    const src: Source
    const buf: array<octet>
    /** Octets of `buf` already handed to the caller, and octets in `buf` altogether. */
    var off: nat
    var cnt: nat
    /** The last octet received was a DLE whose partner has not arrived. */
    var dle: bool
    var pduLen: nat

    ghost predicate Valid()
      reads this
    {
      buf.Length == MTU && off <= cnt <= MTU
    }

    /** Everything still to be parsed: what is left in the buffer, then what will be received. */
    ghost function Unparsed(): seq<octet>
      requires Valid()
      reads this, buf, src
    {
      Ahead(off, cnt, dle)
    }

    ghost function Ahead(off: nat, cnt: nat, dle: bool): seq<octet>
      requires off <= cnt <= buf.Length
      reads buf, src
    {
      (if off == 0 then [] else buf[off..cnt]) + Destuff(dle, src.stream).0
    }

    constructor (src: Source)
      ensures Valid() && fresh(buf) && this.src == src
      ensures Unparsed() == Destuff(false, src.stream).0
    {
      this.src := src;
      buf := new octet[MTU];
      off, cnt, dle, pduLen := 0, 0, false, 0;
    }

    method Reset()
      modifies this
      ensures off == 0 && cnt == 0 && !dle && pduLen == old(pduLen)
    {
      off, cnt, dle := 0, 0, false;
    }

    /** Destuffs the `n` raw octets at `cp` onto themselves. */
    method DestuffInPlace(cp: nat, n: nat, dle0: bool) returns (j: nat, dle1: bool)
      requires cp + n <= buf.Length
      modifies buf
      ensures j <= n && Destuff(dle0, old(buf[cp..cp + n])) == (buf[cp..cp + j], dle1)
      ensures buf[..cp] == old(buf[..cp])
    {
      hide Destuff;
      ghost var raw, out := buf[cp..cp + n], [];
      j, dle1 := 0, dle0;
      DestuffNothing();
      for i := 0 to n
        invariant j <= i && |out| == j
        invariant Destuff(dle0, raw[..i]) == (out, dle1)
        invariant forall m :: cp <= m < cp + j ==> buf[m] == out[m - cp]
        invariant forall m :: cp + i <= m < cp + n ==> buf[m] == raw[m - cp]
        invariant forall m :: 0 <= m < cp ==> buf[m] == old(buf[m])
      {
        var c := buf[cp + i];
        DestuffNext(dle0, raw, i);
        if dle1 {
          c := c % 0x80;
          dle1 := false;
        } else if c == DLE {
          dle1 := true;
          continue;
        }
        buf[cp + j] := c;
        j, out := j + 1, out + [c];
      }
      assert raw[..n] == raw && buf[cp..cp + j] == out;
    }

    /** One read from the device: destuffs what arrived after `buf[..cp]`; none of the octets
        still to be parsed is lost, duplicated or reordered. */
    method Fill(cp: nat, dle0: bool) returns (n: nat, j: nat, dle1: bool)
      requires Valid() && cp <= MTU
      modifies src, buf
      ensures n == 0 <==> cp == MTU || old(src.stream) == []
      ensures n == 0 ==> j == 0 && dle1 == dle0
      ensures j <= n && cp + n <= MTU && |src.stream| == |old(src.stream)| - n
      ensures buf[..cp] == old(buf[..cp])
      ensures buf[cp..cp + j] + Destuff(dle1, src.stream).0 == Destuff(dle0, old(src.stream)).0
    {
      hide Destuff;
      DestuffNothing();
      n := src.Recv(buf, cp, MTU - cp);
      assert buf[cp..cp + n] == old(src.stream)[..n];
      assert buf[..cp] == old(buf[..cp]);
      assert old(src.stream) == old(src.stream)[..n] + src.stream;
      DestuffAppend(dle0, old(src.stream)[..n], src.stream);
      j, dle1 := DestuffInPlace(cp, n, dle0);
    }

    /** Reads until `buf[..cnt]` holds at least `target` octets; the write position `cp` of the
        source stays at `cnt` throughout. Fails when the device runs dry or the buffer is full. */
    method FillTo(target: nat, cnt0: nat, dle0: bool) returns (ok: bool, cnt1: nat, dle1: bool)
      requires Valid() && cnt0 <= MTU
      modifies src, buf
      ensures cnt0 <= cnt1 <= MTU && ok == (target <= cnt1)
      ensures !ok ==> cnt1 == MTU || src.stream == []
      ensures buf[..cnt0] == old(buf[..cnt0])
      ensures buf[..cnt1] + Destuff(dle1, src.stream).0 == old(buf[..cnt0] + Destuff(dle0, src.stream).0)
      ensures cnt1 + |src.stream| <= cnt0 + |old(src.stream)|
    {
      hide Destuff;
      cnt1, dle1 := cnt0, dle0;
      var cp := cnt1;
      while cnt1 < target
        invariant cnt0 <= cnt1 <= MTU && cp == cnt1
        invariant buf[..cnt0] == old(buf[..cnt0])
        invariant buf[..cnt1] + Destuff(dle1, src.stream).0 == old(buf[..cnt0] + Destuff(dle0, src.stream).0)
        invariant cnt1 + |src.stream| <= cnt0 + |old(src.stream)|
        decreases |src.stream|
      {
        ghost var head, tail := buf[..cnt1], Destuff(dle1, src.stream).0;
        var n, j;
        n, j, dle1 := Fill(cp, dle1);
        if n == 0 {
          return false, cnt1, dle1;
        }
        cp, cnt1 := cp + j, cnt1 + j;
        assert buf[..cnt1] == head + buf[cnt1 - j..cnt1];
        assert buf[..cnt1] + Destuff(dle1, src.stream).0 == head + (buf[cnt1 - j..cnt1] + Destuff(dle1, src.stream).0);
        assert buf[..cnt0] == head[..cnt0];
      }
      ok := true;
    }

    /** Moves what is left after `off1` to the start of the buffer. */
    method Shift(off1: nat, cnt0: nat) returns (cnt1: nat)
      requires Valid() && off1 <= cnt0 <= MTU
      modifies buf
      ensures cnt1 <= cnt0 && buf[..cnt1] == if off1 == 0 then [] else old(buf[off1..cnt0])
    {
      if off1 == 0 {
        cnt1 := 0;
      } else {
        cnt1 := cnt0 - off1;
        ShiftDown(buf, off1, cnt1);
      }
    }

    /** How many octets the header at the start of the buffer makes the receiver discard: none
        for a good header, one for a wrong first octet, two otherwise. */
    method HeaderFault() returns (skip: nat)
      requires Valid()
      ensures skip == if GoodHeader(buf[..6]) then 0 else if buf[0] != 0x55 then 1 else 2
    {
      hide HeaderCheck;
      if buf[0] != 0x55 {
        skip := 1;
      } else if buf[1] != 0xff {
        skip := 2;
      } else {
        var crc := HeaderCheckOf(buf[2..5]);
        assert buf[2..5] == [buf[2], buf[3], buf[4]];
        skip := if buf[5] != crc then 2 else 0;
      }
    }

    /** Moves what is left to the start of the buffer and reads until a header is there. */
    method HeaderFill(off0: nat, cnt0: nat, dle0: bool) returns (ok: bool, cnt1: nat, dle1: bool)
      requires Valid() && off0 <= cnt0 <= MTU
      modifies src, buf
      ensures cnt1 <= MTU && ok == (6 <= cnt1)
      ensures old(Ahead(off0, cnt0, dle0)) == buf[..cnt1] + Destuff(dle1, src.stream).0
      ensures !ok ==> src.stream == []
    {
      hide Destuff;
      cnt1 := Shift(off0, cnt0);
      ok, cnt1, dle1 := FillTo(6, cnt1, dle0);
    }

    /** One attempt at a header: the next six octets are good, or the receiver decides how many
        of them to discard, or the device runs dry. */
    method HeaderTry(off0: nat, cnt0: nat, dle0: bool) returns (ok: bool, off1: nat, cnt1: nat, dle1: bool)
      requires Valid() && off0 <= cnt0 <= MTU
      modifies src, buf
      ensures off1 <= 2 && cnt1 <= MTU && (ok ==> 6 <= cnt1)
      ensures !ok ==> |old(Ahead(off0, cnt0, dle0))| < 6 && src.stream == []
      ensures ok && off1 == 0 ==> GoodHeader(buf[..6]) && GoodHeader(old(Ahead(off0, cnt0, dle0)))
      ensures ok && off1 == 0 ==> old(Ahead(off0, cnt0, dle0)) == buf[..cnt1] + Destuff(dle1, src.stream).0
      ensures ok && off1 > 0 ==>
                !GoodHeader(old(Ahead(off0, cnt0, dle0))) && off1 == Discarded(old(Ahead(off0, cnt0, dle0)))
      ensures ok && off1 > 0 ==> old(Ahead(off0, cnt0, dle0)) == buf[..off1] + Ahead(off1, cnt1, dle1)
    {
      hide Destuff, GoodHeader;
      off1 := 0;
      ok, cnt1, dle1 := HeaderFill(off0, cnt0, dle0);
      if ok {
        off1 := HeaderFault();
        ghost var tail := Destuff(dle1, src.stream).0;
        assert (buf[..cnt1] + tail)[..6] == buf[..6];
        GoodHeaderPrefix(buf[..cnt1] + tail);
        assert buf[..cnt1] + tail == buf[..off1] + (buf[off1..cnt1] + tail);
      }
    }

    /** Finds the next good header where the search should: on success it is at the start of the
        buffer, after discarding `skipped`. */
    method HeaderRecv() returns (ok: bool, cnt1: nat, dle1: bool, ghost skipped: seq<octet>)
      requires Valid()
      modifies src, buf
      ensures cnt1 <= MTU
      ensures ok ==> 6 <= cnt1 && GoodHeader(buf[..6])
      ensures !ok ==> src.stream == []
      ensures Resync(old(Unparsed())) == if ok then Some(|skipped|) else None
      ensures ok ==> old(Unparsed()) == skipped + (buf[..cnt1] + Destuff(dle1, src.stream).0)
    {
      hide Destuff, GoodHeader, Resync, Ahead;
      ghost var all := Unparsed();
      var off1: nat := off;
      cnt1, dle1, skipped := cnt, dle, [];
      while true
        invariant off1 <= cnt1 <= MTU
        invariant all == skipped + Ahead(off1, cnt1, dle1)
        invariant Resync(all) == Farther(Resync(Ahead(off1, cnt1, dle1)), |skipped|)
        decreases |Ahead(off1, cnt1, dle1)|
      {
        ghost var left := Ahead(off1, cnt1, dle1);
        ok, off1, cnt1, dle1 := HeaderTry(off1, cnt1, dle1);
        ResyncStep(left);
        if !ok || off1 == 0 {
          return;
        }
        ghost var drop := buf[..off1];
        assert left[off1..] == Ahead(off1, cnt1, dle1);
        Regroup(skipped, drop, Ahead(off1, cnt1, dle1));
        skipped := skipped + drop;
      }
    }

    /** Receives and checks the data of a frame whose good header is at the start of the buffer. */
    method DataRecv(len: nat, cnt0: nat, dle0: bool) returns (ok: bool, code: int, cnt1: nat, dle1: bool)
      requires Valid() && 0 < len && 6 <= cnt0 <= MTU
      modifies src, buf
      ensures cnt1 <= MTU
      ensures buf[..cnt1] + Destuff(dle1, src.stream).0 == old(buf[..cnt0] + Destuff(dle0, src.stream).0)
      ensures ok == (len + 8 <= MTU && GoodData(old(buf[..cnt0] + Destuff(dle0, src.stream).0), len))
      ensures ok ==> len + 8 <= cnt1
      ensures !ok ==> code == if len + 8 <= MTU && len + 8 <= |old(buf[..cnt0] + Destuff(dle0, src.stream).0)|
                              then -1 else src.nothing
      ensures |old(buf[..cnt0] + Destuff(dle0, src.stream).0)| < len + 8 <= MTU ==> src.stream == []
    {
      hide Destuff, DataCheck, Join;
      DestuffNothing();
      code := src.nothing;
      ok, cnt1, dle1 := FillTo(len + 8, cnt0, dle0);
      if ok {
        ghost var all := buf[..cnt1] + Destuff(dle1, src.stream).0;
        assert all[6..6 + len] == buf[6..6 + len];
        var chk := Join(buf[len + 7], buf[len + 6]);
        var crc := DataCheckOf(buf[6..6 + len]);
        if crc != chk {
          ok, code := false, -1;
          assert all == old(buf[..cnt0] + Destuff(dle0, src.stream).0);
        }
      }
    }

    /** Receives what follows the good header at the start of the buffer. */
    method BodyRecv(cnt0: nat, dle0: bool) returns (r: Outcome, len: nat, cnt1: nat, dle1: bool)
      requires Valid() && 6 <= cnt0 <= MTU && GoodHeader(buf[..6])
      modifies src, buf
      ensures r.Received? <==> NextFrame(old(buf[..cnt0] + Destuff(dle0, src.stream).0)).Some?
      ensures r.Received? ==> FrameLength(len) <= cnt1 <= MTU && r.typ == buf[2]
      ensures r.Received? ==>
                NextFrame(old(buf[..cnt0] + Destuff(dle0, src.stream).0)) == Some(Frame(buf[2], buf[6..6 + len]))
      ensures r.Received? ==>
                buf[..cnt1] + Destuff(dle1, src.stream).0 == old(buf[..cnt0] + Destuff(dle0, src.stream).0)
      ensures Incomplete(old(buf[..cnt0] + Destuff(dle0, src.stream).0)) ==> r.Failed? && src.stream == []
      ensures r.Failed? ==> r.code == if Spoilt(old(buf[..cnt0] + Destuff(dle0, src.stream).0)) then -1 else src.nothing
    {
      hide Destuff, DataCheck, HeaderCheck, Join, GoodData;
      ghost var s := buf[..cnt0] + Destuff(dle0, src.stream).0;
      assert s[..6] == buf[..6];
      GoodHeaderPrefix(s);
      len, cnt1, dle1 := Join(buf[3], buf[4]), cnt0, dle0;
      assert len == Join(s[3], s[4]);
      if len > 0 {
        var ok, code;
        ok, code, cnt1, dle1 := DataRecv(len, cnt0, dle0);
        if !ok {
          return Failed(code), len, cnt1, dle1;
        }
        assert s[..6 + len] == buf[..6 + len];
      }
      assert s[6..6 + len] == buf[6..6 + len] && s[2] == buf[2];
      assert len == 0 ==> buf[6..6 + len] == [];
      r := Received(buf[2]);
    }

    /** The frame just returned: its type and the PDU left in the buffer. */
    ghost function Delivered(): Frame
      requires Valid() && FrameLength(pduLen) <= MTU
      reads this, buf
    {
      Frame(buf[2], buf[6..6 + pduLen])
    }

    /** Header and body of one frame, before the link's own fields are updated. */
    method Locate() returns (r: Outcome, len: nat, cnt1: nat, dle1: bool, ghost skipped: seq<octet>)
      requires Valid()
      modifies src, buf
      ensures r.Received? ==> FrameLength(len) <= cnt1 <= MTU && r.typ == buf[2]
      ensures r.Received? ==>
                old(Unparsed()) == skipped + (Plain(Frame(buf[2], buf[6..6 + len])) + Ahead(FrameLength(len), cnt1, dle1))
      ensures Meets(old(Unparsed()), r, skipped, src.nothing)
      ensures RunsDry(old(Unparsed())) ==> src.stream == []
    {
      hide Destuff, NextFrame, GoodHeader, Plain, Incomplete, Ahead, Resync, Spoilt;
      ghost var all := Unparsed();
      var ok;
      ok, cnt1, dle1, skipped := HeaderRecv();
      r, len := Failed(src.nothing), 0;
      if ok {
        ghost var found := buf[..cnt1] + Destuff(dle1, src.stream).0;
        assert all[|skipped|..] == found;
        r, len, cnt1, dle1 := BodyRecv(cnt1, dle1);
        if r.Received? {
          NextFrameSound(found);
          DropFromBuffer(FrameLength(len), cnt1, dle1);
        }
      }
    }

    /** Receives one frame: the one at the first good header that the search comes to, if it is
        whole, fits the buffer and its data check is good. Parsing resumes right behind it, however
        the device cuts the stream. Otherwise the call fails, with -1 for a bad data check and what
        the device returned for a silence, and nothing is carried over; a silence inside a header
        or a frame that fits drops what came before it. */
    method FrameRecv() returns (r: Outcome, ghost skipped: seq<octet>)
      requires Valid()
      modifies this, src, buf
      ensures Valid()
      ensures r.Failed? ==> off == 0 && cnt == 0 && !dle
      ensures r.Received? ==> FrameLength(pduLen) <= MTU && r.typ == Delivered().typ
      ensures r.Received? ==> old(Unparsed()) == skipped + (Plain(Delivered()) + Unparsed())
      ensures Meets(old(Unparsed()), r, skipped, src.nothing)
      ensures RunsDry(old(Unparsed())) ==> src.stream == []
    {
      hide Destuff, Plain, Meets, RunsDry;
      var len, cnt1, dle1;
      r, len, cnt1, dle1, skipped := Locate();
      if r.Received? {
        pduLen, off, dle, cnt := len, FrameLength(len), dle1, cnt1;
      } else {
        Reset();
      }
    }

    lemma DropFromBuffer(off1: nat, cnt1: nat, dle1: bool)
      requires 0 < off1 <= cnt1 <= buf.Length
      ensures (buf[..cnt1] + Destuff(dle1, src.stream).0)[off1..] == Ahead(off1, cnt1, dle1)
    {
    }
  }

  lemma DataExact(s: seq<octet>, len: nat)
    requires 0 < len && GoodData(s, len)
    ensures s[6..] == (s[6..6 + len] + CheckOctets(s[6..6 + len])) + s[len + 8..]
  {
    hide DataCheck, HighOctet, LowOctet;
    assert CheckOctets(s[6..6 + len]) == [s[len + 6], s[len + 7]];
  }

  lemma DataReadsBack(s: seq<octet>, pdu: seq<octet>, rest: seq<octet>)
    requires pdu != [] && |s| >= 6 && s[6..] == (pdu + CheckOctets(pdu)) + rest
    ensures GoodData(s, |pdu|) && s[6..6 + |pdu|] == pdu
  {
    hide DataCheck, HighOctet, LowOctet, Join;
    var len := |pdu|;
    JoinSplit(DataCheck(pdu));
    assert s[6..6 + len] == s[6..][..len] == pdu;
    assert s[len + 6] == s[6..][len] && s[len + 7] == s[6..][len + 1];
  }

  /** A frame found is exactly the octets in front. */
  lemma NextFrameSound(s: seq<octet>)
    requires NextFrame(s).Some?
    ensures
      var f := NextFrame(s).value;
      FrameLength(|f.pdu|) <= |s| && s == Plain(f) + s[FrameLength(|f.pdu|)..]
  {
    hide HeaderCheck, DataCheck, Header, CheckOctets, Join;
    var len := Join(s[3], s[4]);
    HeaderExact(s);
    assert s == s[..6] + s[6..];
    if len > 0 {
      DataExact(s, len);
    }
  }

  /** A sent frame that fits the receive buffer is the frame found, whatever follows it. */
  lemma NextFrameComplete(f: Frame, rest: seq<octet>)
    requires FrameLength(|f.pdu|) <= MTU
    ensures NextFrame(Plain(f) + rest) == Some(f)
  {
    hide HeaderCheck, DataCheck, Header, CheckOctets, Join, GoodHeader, GoodData;
    var s, h := Plain(f) + rest, Header(f.typ, |f.pdu|);
    HeaderReadsBack(f.typ, |f.pdu|);
    assert s[..6] == h;
    GoodHeaderPrefix(s);
    GoodHeaderPrefix(h);
    assert s[2] == h[2] && s[3] == h[3] && s[4] == h[4];
    NextFrameNeedsHeader(s);
    if f.pdu != [] {
      assert s[6..] == (f.pdu + CheckOctets(f.pdu)) + rest;
      DataReadsBack(s, f.pdu, rest);
    }
  }

  // ----- Noise -----

  /** Octets that cannot be taken for the start of a header or of an escape. */
  predicate Noise(s: seq<octet>)
  {
    forall i :: 0 <= i < |s| ==> s[i] != 0x55 && s[i] != DLE
  }

  /** Noise is discarded octet by octet, and the search goes on as if it had not been there. */
  lemma {:induction false} NoiseSkipped(noise: seq<octet>, s: seq<octet>)
    requires Noise(noise)
    ensures Resync(noise + s) == Farther(Resync(s), |noise|)
  {
    hide Resync, GoodHeader;
    ResyncStep(s);
    if noise == [] {
      assert noise + s == s;
    } else {
      assert (noise + s)[0] == noise[0] && (noise + s)[1..] == noise[1..] + s;
      NoiseSkipped(noise[1..], s);
      ResyncStep(noise + s);
      if |noise + s| >= 6 {
        BadStart(noise + s);
      }
    }
  }

  lemma {:induction false} NoisePlain(noise: seq<octet>)
    requires Noise(noise)
    ensures Destuff(false, noise) == (noise, false)
  {
    if noise != [] {
      assert noise[0] != DLE && noise == [noise[0]] + noise[1..];
      NoisePlain(noise[1..]);
    }
  }

  /** The search comes to a frame right after one stray octet if and only if the octet is not
      0x55, which makes it discard the frame's own first octet. */
  lemma StrayOctet(c: octet, f: Frame, rest: seq<octet>)
    ensures Resync([c] + (Plain(f) + rest)) == Some(1) <==> c != 0x55
  {
    hide HeaderCheck, Join, CheckOctets, Resync, GoodHeader;
    var s := Plain(f) + rest;
    StartsGood(f, rest);
    ResyncStep(s);
    ResyncStep([c] + s);
    assert ([c] + s)[1..] == s && ([c] + s)[2..] == s[1..];
    BadStart([c] + s);
  }

  /** On the wire too: one stray octet before a frame loses it if and only if it is 0x55. A stray
      DLE is used up by the frame's first octet, which it leaves as it is. */
  lemma StrayOnWire(c: octet, f: Frame, rest: seq<octet>)
    ensures
      var s := Destuff(false, [c] + (Wire(f) + rest)).0;
      Resync(s) == Some(if c == DLE then 0 else 1) <==> c != 0x55
  {
    hide Destuff, Resync, Plain, StuffAll, GoodHeader;
    var tail := Destuff(false, rest).0;
    DestuffStuff(Plain(f));
    DestuffAppend(false, Wire(f), rest);
    DestuffAppend(false, [c], Wire(f) + rest);
    DestuffSingle(false, c);
    if c == DLE {
      FirstUnescaped(f, rest);
      StartsGood(f, tail);
      ResyncStep(Plain(f) + tail);
      assert [] + (Plain(f) + tail) == Plain(f) + tail;
    } else {
      StrayOctet(c, f, tail);
    }
  }

  lemma FirstUnescaped(f: Frame, rest: seq<octet>)
    ensures Destuff(true, Wire(f) + rest) == Destuff(false, Wire(f) + rest)
  {
    hide HeaderCheck, CheckOctets;
    assert Plain(f)[0] == 0x55;
    assert (Wire(f) + rest)[0] == 0x55;
  }

  lemma StartsGood(f: Frame, rest: seq<octet>)
    ensures GoodHeader(Plain(f) + rest) && (Plain(f) + rest)[0] == 0x55
  {
    hide HeaderCheck, Join, CheckOctets, GoodHeader, Header;
    var s, h := Plain(f) + rest, Header(f.typ, |f.pdu|);
    HeaderGood(f.typ, |f.pdu|);
    assert s[..6] == h && s[0] == h[0];
    GoodHeaderPrefix(s);
    GoodHeaderPrefix(h);
    assert h[..6] == h;
  }

  lemma HeaderGood(typ: octet, len: nat)
    ensures GoodHeader(Header(typ, len)) && Header(typ, len)[0] == 0x55
  {
    hide HeaderCheck;
  }

  lemma BadStart(s: seq<octet>)
    requires |s| >= 6 && (s[0] != 0x55 || s[1] != 0xff)
    ensures !GoodHeader(s)
  {
  }

  // ----- Whole lines -----

  /** A frame that fits the receive buffer, and what came on the line before it. */
  datatype Item = Item(noise: seq<octet>, frame: Frame)

  ghost predicate AllFit(items: seq<Item>)
  {
    forall i :: 0 <= i < |items| ==> Noise(items[i].noise) && FrameLength(|items[i].frame.pdu|) <= MTU
  }

  function Frames(items: seq<Item>): seq<Frame>
  {
    if items == [] then [] else [items[0].frame] + Frames(items[1..])
  }

  function OnLine(items: seq<Item>): seq<octet>
  {
    if items == [] then [] else (items[0].noise + Wire(items[0].frame)) + OnLine(items[1..])
  }

  function PlainLine(items: seq<Item>): seq<octet>
  {
    if items == [] then [] else (items[0].noise + Plain(items[0].frame)) + PlainLine(items[1..])
  }

  /** Nothing is carried over from earlier calls. */
  ghost predicate Clean(rx: Receiver)
    reads rx
  {
    rx.Valid() && rx.off == 0 && rx.cnt == 0 && !rx.dle
  }

  /** Noise and a frame that fits, broken off anywhere before its last octet; perhaps before its
      first. */
  ghost predicate BrokenOff(noise: seq<octet>, cut: seq<octet>)
  {
    Noise(noise) && exists f: Frame :: FrameLength(|f.pdu|) <= MTU && cut < Wire(f)
  }

  /** What arrives between two silences: whole frames with noise before them, then perhaps a frame
      broken off. */
  ghost predicate Burst(octets: seq<octet>, items: seq<Item>)
  {
    AllFit(items) && exists noise, cut :: BrokenOff(noise, cut) && octets == OnLine(items) + (noise + cut)
  }

  lemma {:induction false} EndsWithOctet(dle: bool, raw: seq<octet>)
    requires raw != [] && !Destuff(dle, raw).1
    ensures Destuff(dle, raw).0 != []
    decreases |raw|
  {
    if !dle && raw[0] == DLE {
      assert raw[1..] != [];
      EndsWithOctet(true, raw[1..]);
    }
  }

  lemma PrefixIncomplete(f: Frame, part: seq<octet>)
    requires FrameLength(|f.pdu|) <= MTU && part < Plain(f)
    ensures Incomplete(part)
  {
    hide HeaderCheck, DataCheck, Header, CheckOctets, Join, GoodHeader;
    if |part| >= 6 {
      var h := Header(f.typ, |f.pdu|);
      HeaderReadsBack(f.typ, |f.pdu|);
      assert part[..6] == Plain(f)[..6] == h;
      GoodHeaderPrefix(part);
      GoodHeaderPrefix(h);
      assert part[3] == h[3] && part[4] == h[4];
    }
  }

  /** A frame broken off anywhere, even inside an escape, is incomplete. */
  lemma BrokenOffIncomplete(f: Frame, cut: seq<octet>)
    requires FrameLength(|f.pdu|) <= MTU && cut < Wire(f)
    ensures Incomplete(Destuff(false, cut).0)
  {
    hide Destuff, Plain, Incomplete;
    var rest, part := Wire(f)[|cut|..], Destuff(false, cut);
    assert Wire(f) == cut + rest;
    DestuffStuff(Plain(f));
    DestuffAppend(false, cut, rest);
    EndsWithOctet(part.1, rest);
    PrefixIncomplete(f, part.0);
  }

  /** The noise and the broken frame at the end of a burst run dry. */
  ghost predicate Tail(part: seq<octet>)
  {
    exists noise, cut :: Noise(noise) && Incomplete(cut) && part == noise + cut
  }

  lemma TailRunsDry(part: seq<octet>)
    requires Tail(part)
    ensures RunsDry(part)
  {
    hide Resync, Incomplete, HeaderCheck;
    var noise, cut :| Noise(noise) && Incomplete(cut) && part == noise + cut;
    NoiseSkipped(noise, cut);
    ResyncStep(cut);
    assert part[|noise|..] == cut;
    IncompleteStart(cut);
  }

  lemma IncompleteStart(s: seq<octet>)
    requires Incomplete(s)
    ensures |s| < 6 || GoodHeader(s)
  {
  }

  lemma {:induction false} LinePlain(items: seq<Item>)
    requires AllFit(items)
    ensures Destuff(false, OnLine(items)) == (PlainLine(items), false)
  {
    hide Destuff, Plain;
    if items == [] {
      DestuffNothing();
    } else {
      LinePlain(items[1..]);
      NoisePlain(items[0].noise);
      DestuffStuff(Plain(items[0].frame));
      DestuffAppend(false, items[0].noise, Wire(items[0].frame));
      DestuffAppend(false, items[0].noise + Wire(items[0].frame), OnLine(items[1..]));
    }
  }

  /** What a burst destuffs to. */
  lemma BurstPlain(octets: seq<octet>, items: seq<Item>) returns (part: seq<octet>)
    requires Burst(octets, items)
    ensures Tail(part) && Destuff(false, octets).0 == PlainLine(items) + part
  {
    hide Destuff, Plain, Incomplete, OnLine, PlainLine;
    var noise, cut :| BrokenOff(noise, cut) && octets == OnLine(items) + (noise + cut);
    var f: Frame :| FrameLength(|f.pdu|) <= MTU && cut < Wire(f);
    part := Destuff(false, noise + cut).0;
    LinePlain(items);
    DestuffAppend(false, OnLine(items), noise + cut);
    NoisePlain(noise);
    DestuffAppend(false, noise, cut);
    BrokenOffIncomplete(f, cut);
    assert part == noise + Destuff(false, cut).0;
  }

  /** One call, with `left` and then the tail of the burst still to come. */
  method ReceiveNext(rx: Receiver, ghost left: seq<Item>, ghost part: seq<octet>) returns (r: Outcome)
    requires rx.Valid() && AllFit(left) && Tail(part) && rx.Unparsed() == PlainLine(left) + part
    modifies rx, rx.src, rx.buf
    ensures rx.Valid()
    ensures r.Failed? <==> left == []
    ensures r.Failed? ==> Clean(rx) && rx.src.stream == []
    ensures r.Received? ==> FrameLength(rx.pduLen) <= MTU && rx.Delivered() == left[0].frame
    ensures r.Received? ==> rx.Unparsed() == PlainLine(left[1..]) + part
  {
    hide Plain, NextFrame, Destuff, Incomplete, PlainLine, Resync, GoodHeader, Tail, Spoilt;
    ghost var all := rx.Unparsed();
    if left == [] {
      NoLine(part);
      TailRunsDry(part);
      DryFails(part);
    } else {
      FirstThenRest(left, part);
      FirstFound(left[0], PlainLine(left[1..]) + part);
    }
    ghost var skipped;
    r, skipped := rx.FrameRecv();
    if r.Received? {
      ghost var noise, f := left[0].noise, left[0].frame;
      assert skipped == noise;
      assert Plain(f) + (PlainLine(left[1..]) + part) == all[|noise|..] == Plain(rx.Delivered()) + rx.Unparsed();
      SameFirst(f, PlainLine(left[1..]) + part, rx.Delivered(), rx.Unparsed());
    }
  }

  /** The search passes the noise before a frame that fits, and finds it. */
  lemma FirstFound(i: Item, rest: seq<octet>)
    requires Noise(i.noise) && FrameLength(|i.frame.pdu|) <= MTU
    ensures
      var s := i.noise + (Plain(i.frame) + rest);
      Resync(s) == Some(|i.noise|) && s[..|i.noise|] == i.noise && NextFrame(s[|i.noise|..]).Some?
  {
    hide Plain, NextFrame, Resync, GoodHeader;
    var s := i.noise + (Plain(i.frame) + rest);
    NoiseSkipped(i.noise, Plain(i.frame) + rest);
    StartsGood(i.frame, rest);
    ResyncStep(Plain(i.frame) + rest);
    NextFrameComplete(i.frame, rest);
    assert s[|i.noise|..] == Plain(i.frame) + rest;
  }

  lemma DryFails(s: seq<octet>)
    requires RunsDry(s)
    ensures Resync(s).Some? ==> NextFrame(s[Resync(s).value..]) == None
  {
    hide Resync, HeaderCheck, DataCheck, Join;
  }

  lemma NoLine(part: seq<octet>)
    ensures PlainLine([]) + part == part
  {
  }

  /** For any list of frames that fit the receive buffer, with any noise between them that cannot
      be taken for a header or an escape, and cut into arbitrary pieces by the device, successive
      calls return exactly those frames, in order. The call that meets the silence afterwards drops
      no more than the frame it breaks off, and leaves nothing behind. */
  method ReceiveAll(rx: Receiver, ghost sent: seq<Item>) returns (got: seq<Frame>)
    requires Clean(rx) && Burst(rx.src.stream, sent)
    modifies rx, rx.src, rx.buf
    ensures got == Frames(sent) && Clean(rx) && rx.src.stream == []
  {
    hide PlainLine, Destuff, Burst, Tail, AllFit, Frames, Receiver.Ahead;
    ghost var part := BurstPlain(rx.src.stream, sent);
    BurstFits(rx.src.stream, sent);
    CleanUnparsed(rx);
    got := [];
    ghost var left := sent;
    var more := true;
    while more
      invariant rx.Valid() && AllFit(left)
      invariant got + Frames(left) == Frames(sent)
      invariant if more then rx.Unparsed() == PlainLine(left) + part
                else left == [] && Clean(rx) && rx.src.stream == []
      decreases |left|, more
    {
      var r := ReceiveNext(rx, left, part);
      more := r.Received?;
      FramesParts(left);
      if more {
        got := got + [Frame(rx.buf[2], rx.buf[6..6 + rx.pduLen])];
        left := left[1..];
      }
    }
    FramesParts(left);
  }

  lemma CleanUnparsed(rx: Receiver)
    requires Clean(rx)
    ensures rx.Unparsed() == Destuff(false, rx.src.stream).0
  {
  }

  lemma FramesParts(items: seq<Item>)
    ensures if items == [] then Frames(items) == []
            else Frames(items) == [items[0].frame] + Frames(items[1..]) && (AllFit(items) ==> AllFit(items[1..]))
  {
  }

  lemma BurstFits(octets: seq<octet>, items: seq<Item>)
    requires Burst(octets, items)
    ensures AllFit(items)
  {
  }

  /** Silences between frames lose nothing: over any sequence of bursts, each cut into arbitrary
      pieces and perhaps breaking off a frame, exactly the whole frames are returned, in order. */
  method ReceiveBursts(rx: Receiver, bursts: seq<seq<octet>>, ghost sent: seq<seq<Item>>) returns (got: seq<Frame>)
    requires Clean(rx) && rx.src.stream == [] && |bursts| == |sent|
    requires forall i :: 0 <= i < |sent| ==> Burst(bursts[i], sent[i])
    modifies rx, rx.src, rx.buf
    ensures got == AllFrames(sent)
  {
    hide Burst;
    got := [];
    for i := 0 to |bursts|
      invariant Clean(rx) && rx.src.stream == []
      invariant got + AllFrames(sent[i..]) == AllFrames(sent)
    {
      rx.src.Arrive(bursts[i]);
      assert [] + bursts[i] == bursts[i];
      var part := ReceiveAll(rx, sent[i]);
      Regroup(got, part, AllFrames(sent[i + 1..]));
      got := got + part;
    }
  }

  ghost function AllFrames(bursts: seq<seq<Item>>): seq<Frame>
  {
    if bursts == [] then [] else Frames(bursts[0]) + AllFrames(bursts[1..])
  }

  lemma FirstThenRest(items: seq<Item>, part: seq<octet>)
    requires items != []
    ensures PlainLine(items) + part == items[0].noise + (Plain(items[0].frame) + (PlainLine(items[1..]) + part))
  {
    hide Plain;
  }

  /** Frames that fit the buffer can be told apart from their octets. */
  lemma SameFirst(f: Frame, rest: seq<octet>, g: Frame, after: seq<octet>)
    requires FrameLength(|f.pdu|) <= MTU && FrameLength(|g.pdu|) <= MTU
    requires Plain(f) + rest == Plain(g) + after
    ensures f == g && rest == after
  {
    hide Plain, NextFrame;
    NextFrameComplete(f, rest);
    NextFrameComplete(g, after);
    assert rest == (Plain(f) + rest)[|Plain(f)|..];
    assert after == (Plain(g) + after)[|Plain(f)|..];
  }

  lemma NextFrameNeedsHeader(s: seq<octet>)
    ensures NextFrame(s).Some? ==> GoodHeader(s)
  {
  }

  function FrameLength(len: nat): nat
  {
    if len == 0 then 6 else len + 8
  }

  /** The `len` octets of data after the header are there and match their check. */
  predicate GoodData(s: seq<octet>, len: nat)
    requires 0 < len
  {
    len + 8 <= |s| && DataCheck(s[6..6 + len]) == Join(s[len + 7], s[len + 6])
  }

  /** The frame that fits the buffer and stands at the very start of a plain stream, if any. */
  function NextFrame(s: seq<octet>): Option<Frame>
  {
    if !GoodHeader(s) then None else
    var len := Join(s[3], s[4]);
    if len == 0 then Some(Frame(s[2], []))
    else if len + 8 <= MTU && GoodData(s, len) then Some(Frame(s[2], s[6..6 + len]))
    else None
  }

  /** How many octets a bad header makes the receiver discard: one if it does not even begin like
      a header, otherwise two. */
  function Discarded(s: seq<octet>): nat
  {
    if s == [] || s[0] != 0x55 then 1 else 2
  }

  /** Where the search comes to a good header, if it does before the stream ends. */
  function Resync(s: seq<octet>): (at: Option<nat>)
    ensures at.Some? ==> at.value + 6 <= |s| && GoodHeader(s[at.value..])
    decreases |s|
  {
    if |s| < 6 then None
    else if GoodHeader(s) then assert s[0..] == s; Some(0)
    else
      var k := Discarded(s);
      var at := Resync(s[k..]);
      assert at.Some? ==> s[k..][at.value..] == s[k + at.value..];
      Farther(at, k)
  }

  function Farther(at: Option<nat>, k: nat): Option<nat>
  {
    if at.Some? then Some(at.value + k) else None
  }

  lemma ResyncStep(s: seq<octet>)
    ensures |s| < 6 ==> Resync(s) == None
    ensures |s| >= 6 && GoodHeader(s) ==> Resync(s) == Some(0)
    ensures |s| >= 6 && !GoodHeader(s) ==> Resync(s) == Farther(Resync(s[Discarded(s)..]), Discarded(s))
  {
    hide GoodHeader;
  }

  /** The outcome of a call on stream `s`. */
  ghost predicate Meets(s: seq<octet>, r: Outcome, skipped: seq<octet>, nothing: int)
  {
    match Resync(s)
    case None => r == Failed(nothing)
    case Some(at) =>
      && skipped == s[..at]
      && (r.Received? <==> NextFrame(s[at..]).Some?)
      && (r.Failed? ==> r.code == if Spoilt(s[at..]) then -1 else nothing)
  }

  /** The stream ends before a frame does. */
  predicate RunsDry(s: seq<octet>)
  {
    var at := Resync(s);
    at.None? || Incomplete(s[at.value..])
  }

  /** All of a first frame that fits is there, but its data check is bad. */
  predicate Spoilt(s: seq<octet>)
    requires GoodHeader(s)
  {
    var len := Join(s[3], s[4]);
    0 < len && len + 8 <= MTU && len + 8 <= |s| && !GoodData(s, len)
  }

  /** A plain stream that ends inside its first header, or inside a first frame that fits. */
  predicate Incomplete(s: seq<octet>)
  {
    |s| < 6 || (GoodHeader(s) && |s| < Join(s[3], s[4]) + 8 <= MTU && Join(s[3], s[4]) > 0)
  }

  lemma DestuffNothing()
    ensures forall dle :: Destuff(dle, []) == ([], dle)
  {
  }

  lemma Regroup<T>(a: seq<T>, b: seq<T>, c: seq<T>)
    ensures a + (b + c) == (a + b) + c
  {
  }

  lemma GoodHeaderPrefix(s: seq<octet>)
    requires |s| >= 6
    ensures GoodHeader(s) == GoodHeader(s[..6])
  {
  }

  /** One more raw octet. */
  lemma DestuffNext(dle: bool, raw: seq<octet>, i: nat)
    requires i < |raw|
    ensures
      var (out, mid) := Destuff(dle, raw[..i]);
      Destuff(dle, raw[..i + 1]) ==
        if mid then (out + [raw[i] % 0x80], false)
        else if raw[i] == DLE then (out, true)
        else (out + [raw[i]], false)
  {
    hide Destuff;
    var (out, mid) := Destuff(dle, raw[..i]);
    assert raw[..i + 1] == raw[..i] + [raw[i]];
    DestuffAppend(dle, raw[..i], [raw[i]]);
    DestuffSingle(mid, raw[i]);
    assert out + [] == out;
  }

  lemma DestuffSingle(dle: bool, c: octet)
    ensures Destuff(dle, [c]) ==
      if dle then ([c % 0x80], false) else if c == DLE then ([], true) else ([c], false)
  {
    assert [c][1..] == [];
    assert [c % 0x80] + [] == [c % 0x80] && [c] + [] == [c];
  }
}
