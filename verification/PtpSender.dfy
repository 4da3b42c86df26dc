/**
  The sending side of a connected BACnet point-to-point link (clause 10.4.9 of ANSI/ASHRAE 135,
  as the program has it): one message at a time, retransmitted on a timer or on request, and
  released by an acknowledgement of its own parity or after too many tries.
 */
module PtpSender {
  import opened Octets
  import opened PtpFrame

  const HEARTBEAT_XOFF: octet := 0x00
  const HEARTBEAT_XON: octet := 0x01
  const DATA_0: octet := 0x02
  const DATA_1: octet := 0x03
  const ACK_0_XON: octet := 0x06
  const ACK_1_XON: octet := 0x07
  const NAK_0_XON: octet := 0x0a
  const NAK_1_XON: octet := 0x0b
  const CONNECT_REQ: octet := 0x0c
  const CONNECT_RESP: octet := 0x0d
  const DISCONNECT_REQ: octet := 0x0e
  const DISCONNECT_RESP: octet := 0x0f

  const TX_IDLE := 15000
  const RX_IDLE := 30000
  const DISC_RETRY := 5000
  const DATA_RETRY := 1000
  const RETRY_MAX: nat := 3
  const CLOCK_RANGE: nat := 0x1_0000_0000

  datatype Mode = Connected | Disconnecting | Disconnected

  /** The transmit half of the link: `pdu` is the message not yet acknowledged, empty if none;
      `flag` is what a sender must take first, and clears by taking it. */
  datatype Link = Link(
    mode: Mode,
    xon: bool,
    seqno: nat,
    pdu: seq<octet>,
    flag: bool,
    retryTimer: nat,
    retries: nat,
    rxIdle: nat,
    txIdle: nat)

  /** What the loop makes of the code the receiver returned. */
  datatype Event = Heard(typ: octet) | TimedOut | Ignored

  /** A frame type is from 0 up, so a device that returns 0 reads as a heartbeat with XOFF. The
      timeout code is -1, which a bad data check also returns. No other code has a case. */
  function EventOf(code: int): Event
  {
    if 0 <= code < 256 then Heard(code as octet) else if code == -1 then TimedOut else Ignored
  }

  function Later(now: nat, ms: nat): nat
  {
    (now + ms) % CLOCK_RANGE
  }

  /** The timer lies in the past: its signed 32-bit distance from now is negative. */
  predicate Past(timer: nat, now: nat)
  {
    (timer - now) % CLOCK_RANGE >= CLOCK_RANGE / 2
  }

  function DataType(seqno: nat): octet
  {
    if seqno % 2 == 1 then DATA_1 else DATA_0
  }

  predicate IsData(f: Frame)
  {
    f.typ == DATA_0 || f.typ == DATA_1
  }

  /** A frame leaves and the transmit idle timer restarts. */
  function Sending(l: Link, now: nat, f: Frame): (Link, seq<Frame>)
  {
    (l.(txIdle := Later(now, TX_IDLE)), [f])
  }

  /** The message is done with and the flag given back. */
  function Released(l: Link): Link
  {
    l.(pdu := [], flag := true)
  }

  /** The retransmission timer of an outstanding message has run out. */
  predicate Due(l: Link, now: nat)
  {
    l.pdu != [] && Past(l.retryTimer, now)
  }

  function Retry(l: Link, now: nat): (Link, seq<Frame>)
  {
    if !Due(l, now) then (l, [])
    else
      var l := l.(retries := l.retries + 1);
      if l.retries < RETRY_MAX then
        var l := l.(retryTimer := Later(now, DATA_RETRY));
        if l.xon then Sending(l, now, Frame(DataType(l.seqno), l.pdu)) else (l, [])
      else (Released(l), [])
  }

  function HangUp(l: Link, now: nat): (Link, seq<Frame>)
  {
    if !Past(l.rxIdle, now) then (l, [])
    else
      Sending(l.(mode := Disconnecting, retryTimer := Later(now, DISC_RETRY), retries := 0), now,
              Frame(DISCONNECT_REQ, [0x01]))
  }

  function Beat(l: Link, now: nat): (Link, seq<Frame>)
  {
    if !Past(l.txIdle, now) then (l, []) else Sending(l, now, Frame(HEARTBEAT_XON, []))
  }

  function Silence(l: Link, now: nat): (Link, seq<Frame>)
  {
    var (l1, a) := Retry(l, now);
    var (l2, b) := HangUp(l1, now);
    var (l3, c) := Beat(l2, now);
    (l3, a + b + c)
  }

  function Handle(l: Link, typ: octet, now: nat): (Link, seq<Frame>)
  {
    if typ == HEARTBEAT_XOFF then (l.(xon := false), [])
    else if typ == HEARTBEAT_XON then (l.(xon := true), [])
    else if typ == DATA_0 then Sending(l, now, Frame(ACK_0_XON, []))
    else if typ == DATA_1 then Sending(l, now, Frame(ACK_1_XON, []))
    else if typ == ACK_0_XON || typ == ACK_1_XON then
      if l.seqno % 2 == (typ - ACK_0_XON) as int then (Released(l.(seqno := (l.seqno + 1) % CLOCK_RANGE)), []) else (l, [])
    else if typ == NAK_0_XON || typ == NAK_1_XON then
      if l.seqno % 2 == (typ - NAK_0_XON) as int then Sending(l, now, Frame(DataType(l.seqno), l.pdu)) else (l, [])
    else if typ == CONNECT_REQ then Sending(l, now, Frame(CONNECT_RESP, []))
    else if typ == DISCONNECT_REQ then Sending(l.(mode := Disconnected), now, Frame(DISCONNECT_RESP, []))
    else (l, [])
  }

  /** One turn of the connected loop. */
  function Turn(l: Link, e: Event, now: nat): (Link, seq<Frame>)
  {
    match e
    case Heard(typ) => Handle(if typ > 0 then l.(rxIdle := Later(now, RX_IDLE)) else l, typ, now)
    case TimedOut => Silence(l, now)
    case Ignored => (l, [])
  }

  /** Taking a message from the network layer; sent at once if the peer is ready. */
  function Accept(l: Link, pdu: seq<octet>, now: nat): (Link, seq<Frame>)
  {
    var l := l.(retryTimer := Later(now, DATA_RETRY), retries := 0, pdu := pdu, flag := false);
    if l.xon then Sending(l, now, Frame(DataType(l.seqno), pdu)) else (l, [])
  }

  // ----- Runs -----

  datatype Action = Hear(e: Event, now: nat) | Submit(pdu: seq<octet>, now: nat)

  /** A sender waits for the flag, which it uses up even if the link turns out not to be connected
      or a message to be outstanding. What else a link does that is not connected is outside this
      model. */
  function Step(l: Link, a: Action): (Link, seq<Frame>)
  {
    match a
    case Hear(e, now) => if l.mode == Connected then Turn(l, e, now) else (l, [])
    case Submit(pdu, now) =>
      if !l.flag then (l, [])
      else if l.mode != Connected || l.pdu != [] then (l.(flag := false), [])
      else Accept(l, pdu, now)
  }

  function After(l: Link, acts: seq<Action>): Link
    decreases |acts|
  {
    if acts == [] then l else After(Step(l, acts[0]).0, acts[1..])
  }

  /** The step takes a message. */
  predicate Takes(l: Link, a: Action)
  {
    a.Submit? && l.flag && l.mode == Connected && l.pdu == []
  }

  /** The step hears an acknowledgement of the current parity with XON. */
  predicate Acknowledges(l: Link, a: Action)
  {
    l.mode == Connected && a.Hear? && a.e.Heard? &&
    a.e.typ == if l.seqno % 2 == 1 then ACK_1_XON else ACK_0_XON
  }

  /** The step releases the message because it has been tried too often. */
  predicate Abandons(l: Link, a: Action)
  {
    a.Hear? && a.e.TimedOut? && l.mode == Connected && Due(l, a.now) && l.retries + 1 >= RETRY_MAX
  }

  /** The last message taken during the run, or `before` if none was. */
  function LastTaken(before: seq<octet>, l: Link, acts: seq<Action>): seq<octet>
    decreases |acts|
  {
    if acts == [] then before
    else LastTaken(if Takes(l, acts[0]) then acts[0].pdu else before, Step(l, acts[0]).0, acts[1..])
  }

  function Acknowledgements(l: Link, acts: seq<Action>): nat
    decreases |acts|
  {
    if acts == [] then 0
    else (if Acknowledges(l, acts[0]) then 1 else 0) + Acknowledgements(Step(l, acts[0]).0, acts[1..])
  }

  // ----- What one step does -----

  lemma RetryEffect(l: Link, now: nat)
    ensures
      var (l', out) := Retry(l, now);
      && l'.seqno == l.seqno && l'.pdu == (if Due(l, now) && l.retries + 1 >= RETRY_MAX then [] else l.pdu)
      && (out == [] || (out == [Frame(DataType(l.seqno), l.pdu)] && Due(l, now) && l.retries + 1 < RETRY_MAX))
      && l'.retries == l.retries + (if Due(l, now) then 1 else 0)
      && l'.flag == (l.flag || (Due(l, now) && l.retries + 1 >= RETRY_MAX)) && l'.mode == l.mode
  {
    hide Past, Later, DataType;
  }

  lemma TailEffect(l: Link, now: nat)
    ensures
      var (l1, b) := HangUp(l, now);
      var (l2, c) := Beat(l1, now);
      && (l2.seqno, l2.pdu, l2.flag) == (l.seqno, l.pdu, l.flag)
      && (l2.mode == Connected ==> l2.retries == l.retries)
      && (forall f :: f in b || f in c ==> !IsData(f))
  {
    hide Past, Later;
  }

  lemma SilenceEffect(l: Link, now: nat)
    ensures
      var (l', out) := Silence(l, now);
      && l'.seqno == l.seqno && (l'.pdu == l.pdu || l'.pdu == [])
      && (forall f :: f in out && IsData(f) ==> f == Frame(DataType(l.seqno), l.pdu))
      && (l'.mode == Connected && l'.pdu != [] ==> l'.retries == l.retries + (if Due(l, now) then 1 else 0))
      && (Due(l, now) ==> (l'.pdu == [] <==> l.retries + 1 >= RETRY_MAX))
      && (!Due(l, now) ==> l'.pdu == l.pdu)
      && l'.flag == (l.flag || (Due(l, now) && l.retries + 1 >= RETRY_MAX))
      && ((exists f :: f in out && IsData(f)) ==> Due(l, now) && l.retries + 1 < RETRY_MAX)
  {
    hide Past, Retry, HangUp, Beat, DataType;
    RetryEffect(l, now);
    TailEffect(Retry(l, now).0, now);
  }

  lemma HandleEffect(l: Link, typ: octet, now: nat)
    ensures
      var (l', out) := Handle(l, typ, now);
      && l'.retries == l.retries && (l'.pdu == l.pdu || l'.pdu == [])
      && (forall f :: f in out && IsData(f) ==> f == Frame(DataType(l.seqno), l.pdu))
      && (if typ == (if l.seqno % 2 == 1 then ACK_1_XON else ACK_0_XON)
          then l'.seqno == (l.seqno + 1) % CLOCK_RANGE && l'.pdu == [] && l'.flag && out == []
          else l'.seqno == l.seqno && l'.pdu == l.pdu && l'.flag == l.flag)
  {
  }

  /** Every data frame of a step has the current parity and the outstanding octets, and only a
      matching acknowledgement moves the sequence number. */
  lemma StepEffect(l: Link, a: Action)
    ensures
      var (l', out) := Step(l, a);
      && (forall f :: f in out && IsData(f) ==> f == Frame(DataType(l.seqno), if Takes(l, a) then a.pdu else l.pdu))
      && l'.seqno == (if Acknowledges(l, a) then (l.seqno + 1) % CLOCK_RANGE else l.seqno)
      && (Takes(l, a) ==> l'.pdu == a.pdu && !l'.flag)
      && (!Takes(l, a) ==> l'.pdu == l.pdu || l'.pdu == [])
      && (l'.flag && !l.flag ==> Acknowledges(l, a) || Abandons(l, a))
  {
    hide Past, Silence, Handle, Later, DataType;
    if l.mode == Connected && a.Hear? {
      match a.e {
        case Heard(typ) => HandleEffect(if typ > 0 then l.(rxIdle := Later(a.now, RX_IDLE)) else l, typ, a.now);
        case TimedOut => SilenceEffect(l, a.now);
        case Ignored =>
      }
    }
  }

  // ----- Every run -----

  lemma {:induction false} SequenceCounts(l: Link, acts: seq<Action>)
    requires l.seqno < CLOCK_RANGE
    ensures After(l, acts).seqno == (l.seqno + Acknowledgements(l, acts)) % CLOCK_RANGE
    decreases |acts|
  {
    hide Step, Acknowledges;
    if acts != [] {
      StepEffect(l, acts[0]);
      SequenceCounts(Step(l, acts[0]).0, acts[1..]);
    }
  }

  lemma {:induction false} OutstandingWasTaken(l: Link, acts: seq<Action>, before: seq<octet>)
    requires l.pdu == [] || l.pdu == before
    ensures After(l, acts).pdu == [] || After(l, acts).pdu == LastTaken(before, l, acts)
    decreases |acts|
  {
    hide Step;
    if acts != [] {
      StepEffect(l, acts[0]);
      OutstandingWasTaken(Step(l, acts[0]).0, acts[1..], if Takes(l, acts[0]) then acts[0].pdu else before);
    }
  }

  lemma ParityWraps(n: nat)
    ensures DataType(n % CLOCK_RANGE) == DataType(n)
  {
  }

  /** In every run, every data frame carries either nothing or exactly the octets last accepted,
      and the parity of the number of acknowledgements so far, although the counter wraps. */
  lemma DataFrames(l: Link, acts: seq<Action>, a: Action, f: Frame)
    requires l.seqno < CLOCK_RANGE && l.pdu == []
    requires f in Step(After(l, acts), a).1 && IsData(f)
    ensures f.typ == DataType(l.seqno + Acknowledgements(l, acts))
    ensures
      var now := After(l, acts);
      var last := LastTaken([], l, acts);
      f.pdu == (if Takes(now, a) then a.pdu else now.pdu) && (Takes(now, a) || f.pdu == [] || f.pdu == last)
  {
    hide Step, Takes, DataType, After, LastTaken, Acknowledgements;
    SequenceCounts(l, acts);
    OutstandingWasTaken(l, acts, []);
    StepEffect(After(l, acts), a);
    ParityWraps(l.seqno + Acknowledgements(l, acts));
  }

  /** A repeated acknowledgement is ignored. */
  lemma RepeatedAckIgnored(l: Link, typ: octet, now: nat, again: nat)
    requires l.mode == Connected && (typ == ACK_0_XON || typ == ACK_1_XON) && l.seqno < CLOCK_RANGE
    ensures
      var l1 := Step(l, Hear(Heard(typ), now)).0;
      var (l2, out) := Step(l1, Hear(Heard(typ), again));
      out == [] && l2 == l1.(rxIdle := Later(again, RX_IDLE))
  {
    hide Later;
    SuccessorParity(l.seqno);
  }

  lemma SuccessorParity(n: nat)
    ensures (n + 1) % CLOCK_RANGE % 2 != n % 2
  {
  }

  /** Timer retransmissions of the message outstanding at the start of the run, up to its release. */
  function Resends(l: Link, acts: seq<Action>): nat
    decreases |acts|
  {
    if acts == [] || l.pdu == [] || l.mode != Connected then 0
    else
      (if acts[0].Hear? && acts[0].e.TimedOut? && exists f :: f in Step(l, acts[0]).1 && IsData(f) then 1 else 0)
      + Resends(Step(l, acts[0]).0, acts[1..])
  }

  /** Along every run at most two timer retransmissions precede the release of the message. */
  lemma {:induction false} ResendsBounded(l: Link, acts: seq<Action>)
    requires l.pdu != [] && l.mode == Connected ==> l.retries < RETRY_MAX
    ensures Resends(l, acts) + l.retries <= RETRY_MAX - 1 || Resends(l, acts) == 0
    decreases |acts|
  {
    hide Silence, Handle, Past, IsData, Later;
    if acts != [] && l.pdu != [] && l.mode == Connected {
      var a := acts[0];
      if a.Hear? && a.e.TimedOut? {
        SilenceEffect(l, a.now);
      } else if a.Hear? && a.e.Heard? {
        HandleEffect(if a.e.typ > 0 then l.(rxIdle := Later(a.now, RX_IDLE)) else l, a.e.typ, a.now);
      }
      ResendsBounded(Step(l, a).0, acts[1..]);
    }
  }

  /** So a message just taken is retransmitted by the timer at most twice. */
  lemma AtMostTwo(l: Link, pdu: seq<octet>, now: nat, acts: seq<Action>)
    requires l.mode == Connected && l.pdu == []
    ensures Resends(Step(l, Submit(pdu, now)).0, acts) <= RETRY_MAX - 1
  {
    hide Resends, Later;
    ResendsBounded(Step(l, Submit(pdu, now)).0, acts);
  }

  /** Without the flag nothing is taken until an acknowledgement of the current parity or a
      give-up brings it back. */
  lemma {:induction false} NothingTakenWithoutFlag(l: Link, acts: seq<Action>, before: seq<octet>)
    requires !l.flag && forall k :: 0 <= k < |acts| ==> !Returns(After(l, acts[..k]), acts[k])
    ensures !After(l, acts).flag && LastTaken(before, l, acts) == before
    decreases |acts|
  {
    hide Step, Acknowledges, Abandons;
    if acts != [] {
      var l1, rest := Step(l, acts[0]).0, acts[1..];
      StepEffect(l, acts[0]);
      assert acts[..0] == [] && !Returns(After(l, acts[..0]), acts[0]);
      forall k | 0 <= k < |rest| ensures !Returns(After(l1, rest[..k]), rest[k]) {
        assert acts[..k + 1][1..] == rest[..k] && acts[..k + 1][0] == acts[0] && acts[k + 1] == rest[k];
        assert After(l, acts[..k + 1]) == After(l1, rest[..k]);
      }
      NothingTakenWithoutFlag(l1, rest, before);
    }
  }

  predicate Returns(l: Link, a: Action)
  {
    Acknowledges(l, a) || Abandons(l, a)
  }

  // ----- The link as the program updates it -----

  /** A sender got its message taken, an error, or no flag yet. */
  datatype Reply = Took | Again | Waiting

  class Sender {
    var mode: Mode
    var xon: bool
    var seqno: nat
    const buf: array<octet>
    var len: nat
    var flag: bool
    var retryTimer: nat
    var retries: nat
    var rxIdle: nat
    var txIdle: nat
    /** Every frame sent so far. */
    var sent: seq<Frame>

    ghost predicate Valid()
      reads this
    {
      buf.Length == MTU && len <= buf.Length
    }

    ghost function View(): Link
      requires Valid()
      reads this, buf
    {
      Link(mode, xon, seqno, buf[..len], flag, retryTimer, retries, rxIdle, txIdle)
    }

    /** The loop's set-up of a link that is already connected. */
    constructor (now: nat)
      ensures Valid() && fresh(buf) && sent == []
      ensures View() == Link(Connected, false, 1, [], true, 0, 0, Later(now, RX_IDLE), 0)
    {
      mode, xon, seqno, len, flag := Connected, false, 1, 0, true;
      buf := new octet[MTU](_ => 0);
      retryTimer, retries, rxIdle, txIdle := 0, 0, Later(now, RX_IDLE), 0;
      sent := [];
    }

    method Emit(f: Frame, now: nat)
      requires Valid()
      modifies this
      ensures Valid() && (View(), sent) == Sent(old(sent), Sending(old(View()), now, f))
    {
      txIdle := Later(now, TX_IDLE);
      sent := sent + [f];
    }

    method EmitData(now: nat)
      requires Valid()
      modifies this
      ensures Valid()
      ensures (View(), sent) == Sent(old(sent), Sending(old(View()), now, Frame(DataType(old(seqno)), old(View()).pdu)))
    {
      if seqno % 2 == 1 {
        Emit(Frame(DATA_1, buf[..len]), now);
      } else {
        Emit(Frame(DATA_0, buf[..len]), now);
      }
    }

    method RetryData(now: nat)
      requires Valid()
      modifies this
      ensures Valid() && (View(), sent) == Sent(old(sent), Retry(old(View()), now))
    {
      hide Past, Later, DataType;
      assert sent + [] == sent;
      if len > 0 {
        if Past(retryTimer, now) {
          retries := retries + 1;
          if retries < RETRY_MAX {
            retryTimer := Later(now, DATA_RETRY);
            if xon {
              EmitData(now);
            }
          } else {
            len := 0;
            flag := true;
          }
        }
      }
    }

    method Quiet(now: nat)
      requires Valid()
      modifies this
      ensures Valid() && (View(), sent) == Sent(old(sent), Silence(old(View()), now))
    {
      hide Past, Later, Retry;
      ghost var l1 := Retry(View(), now).0;
      ghost var a, b := Retry(View(), now).1, HangUp(l1, now).1;
      ghost var c := Beat(HangUp(l1, now).0, now).1;
      assert sent + a + b + c == sent + (a + b + c);
      RetryData(now);
      assert sent + [] == sent && sent + b + [] == sent + b;
      if Past(rxIdle, now) {
        retryTimer, retries := Later(now, DISC_RETRY), 0;
        mode := Disconnecting;
        Emit(Frame(DISCONNECT_REQ, [0x01]), now);
      }
      if Past(txIdle, now) {
        Emit(Frame(HEARTBEAT_XON, []), now);
      }
    }

    method Acked()
      requires Valid()
      modifies this
      ensures Valid() && sent == old(sent)
      ensures View() == Released(old(View()).(seqno := (old(seqno) + 1) % CLOCK_RANGE))
    {
      seqno := (seqno + 1) % CLOCK_RANGE;
      len := 0;
      flag := true;
    }

    method HandleFrame(typ: octet, now: nat)
      requires Valid()
      modifies this
      ensures Valid() && (View(), sent) == Sent(old(sent), Handle(old(View()), typ, now))
    {
      hide Past, Later, DataType;
      assert sent + [] == sent;
      if typ == HEARTBEAT_XOFF {
        xon := false;
      } else if typ == HEARTBEAT_XON {
        xon := true;
      } else if typ == DATA_0 {
        Emit(Frame(ACK_0_XON, []), now);
      } else if typ == DATA_1 {
        Emit(Frame(ACK_1_XON, []), now);
      } else if typ == ACK_0_XON {
        if seqno % 2 == 0 {
          Acked();
        }
      } else if typ == ACK_1_XON {
        if seqno % 2 == 1 {
          Acked();
        }
      } else if typ == NAK_0_XON {
        if seqno % 2 == 0 {
          EmitData(now);
        }
      } else if typ == NAK_1_XON {
        if seqno % 2 == 1 {
          EmitData(now);
        }
      } else if typ == CONNECT_REQ {
        Emit(Frame(CONNECT_RESP, []), now);
      } else if typ == DISCONNECT_REQ {
        mode := Disconnected;
        Emit(Frame(DISCONNECT_RESP, []), now);
      }
    }

    /** One turn of the loop while connected, on the code the receiver returned. */
    method Loop(code: int, now: nat)
      requires Valid() && mode == Connected
      modifies this
      ensures Valid() && (View(), sent) == Sent(old(sent), Step(old(View()), Hear(EventOf(code), now)))
    {
      hide Past, Later, Silence, Handle;
      assert sent + [] == sent;
      if code > 0 && code < 256 {
        rxIdle := Later(now, RX_IDLE);
      }
      if 0 <= code < 256 {
        HandleFrame(code as octet, now);
      } else if code == -1 {
        Quiet(now);
      }
    }

    /** Takes the flag and then the message, if there is a flag to take, the link is connected and
        nothing is outstanding. */
    method Send(pdu: seq<octet>, now: nat) returns (reply: Reply)
      requires Valid() && |pdu| <= buf.Length
      modifies this, buf
      ensures Valid() && (View(), sent) == Sent(old(sent), Step(old(View()), Submit(pdu, now)))
      ensures reply == Took <==> Takes(old(View()), Submit(pdu, now))
      ensures reply == Again <==> old(flag) && old(mode) != Connected
    {
      hide Past, Later, DataType;
      assert sent + [] == sent;
      reply := Waiting;
      if flag {
        flag := false;
        if mode != Connected {
          reply := Again;
        } else if len == 0 {
          reply := Took;
          retryTimer, retries := Later(now, DATA_RETRY), 0;
          Copy(pdu);
          len := |pdu|;
          assert buf[..len] == pdu;
          if xon {
            EmitData(now);
          }
        }
      }
    }

    method Copy(pdu: seq<octet>)
      requires |pdu| <= buf.Length
      modifies buf
      ensures buf[..|pdu|] == pdu
    {
      for i := 0 to |pdu|
        invariant buf[..i] == pdu[..i]
      {
        buf[i] := pdu[i];
      }
    }
  }

  /** A step taken with `before` already sent. */
  function Sent(before: seq<Frame>, r: (Link, seq<Frame>)): (Link, seq<Frame>)
  {
    (r.0, before + r.1)
  }
}
