/**
  Both ends of a point-to-point link and the line between them. Data frames and
  acknowledgements keep their order but any of them may be lost; the receiving end
  acknowledges every data frame, repeated or not.
 */
module PtpTransfer {
  import opened Octets
  import opened PtpFrame
  import opened PtpSender

  datatype System = System(
    tx: Link,
    /** Data frames and acknowledgement types under way, oldest first. */
    data: seq<Frame>,
    acks: seq<octet>,
    /** A message, perhaps an empty one, has been taken and not yet released. */
    open: bool,
    /** Data frames that reached the peer; messages taken by the sender, other than those it gave
        up; messages it saw acknowledged. */
    delivered: seq<Frame>,
    taken: seq<seq<octet>>,
    acked: seq<seq<octet>>)

  datatype Move =
    | Give(pdu: seq<octet>, now: nat)
    | Tick(now: nat)
    | PeerReady(on: bool, now: nat)
    | DataArrives
    | AckArrives(now: nat)
    | LoseData(i: nat)
    | LoseAck(i: nat)

  function Without<T>(s: seq<T>, i: nat): (r: seq<T>)
    ensures |r| == if i < |s| then |s| - 1 else |s|
  {
    if i < |s| then s[..i] + s[i + 1..] else s
  }

  function OnlyData(out: seq<Frame>): seq<Frame>
  {
    if out == [] then [] else (if IsData(out[0]) then [out[0]] else []) + OnlyData(out[1..])
  }

  function AckFor(typ: octet): octet
  {
    if typ == DATA_1 then ACK_1_XON else ACK_0_XON
  }

  /** The acknowledgement is the one the receiving loop sends. */
  lemma AckForIsSent(l: Link, typ: octet, now: nat)
    requires l.mode == Connected && (typ == DATA_0 || typ == DATA_1)
    ensures PtpSender.Step(l, Hear(Heard(typ), now)).1 == [Frame(AckFor(typ), [])]
  {
  }

  function ButLast<T>(s: seq<T>): seq<T>
  {
    if s == [] then s else s[..|s| - 1]
  }

  /** A move of the sending end. */
  function Sender(s: System, a: Action): System
  {
    var (l, out) := PtpSender.Step(s.tx, a);
    s.(tx := l, data := s.data + OnlyData(out),
       open := if Takes(s.tx, a) then true else if Returns(s.tx, a) then false else s.open,
       taken := if Takes(s.tx, a) then s.taken + [a.pdu]
                else if Abandons(s.tx, a) then ButLast(s.taken) else s.taken,
       acked := if Acknowledges(s.tx, a) then s.acked + [s.tx.pdu] else s.acked)
  }

  function Step(s: System, m: Move): System
  {
    match m
    case Give(pdu, now) => Sender(s, Submit(pdu, now))
    case Tick(now) => Sender(s, Hear(TimedOut, now))
    case PeerReady(on, now) => Sender(s, Hear(Heard(if on then HEARTBEAT_XON else HEARTBEAT_XOFF), now))
    case DataArrives =>
      if s.data == [] then s
      else s.(data := s.data[1..], delivered := s.delivered + [s.data[0]], acks := s.acks + [AckFor(s.data[0].typ)])
    case AckArrives(now) =>
      if s.acks == [] then s else Sender(s.(acks := s.acks[1..]), Hear(Heard(s.acks[0]), now))
    case LoseData(i) => s.(data := Without(s.data, i))
    case LoseAck(i) => s.(acks := Without(s.acks, i))
  }

  function Run(s: System, moves: seq<Move>): System
    decreases |moves|
  {
    if moves == [] then s else Run(Step(s, moves[0]), moves[1..])
  }

  function Initial(now: nat): System
  {
    System(Link(Connected, false, 1, [], true, 0, 0, Later(now, RX_IDLE), 0), [], [], false, [], [], [])
  }

  /** What is left when a data frame with the parity of the one before it is dropped. */
  function Distinct(d: seq<Frame>): seq<seq<octet>>
  {
    if d == [] then []
    else
      var n := |d| - 1;
      Distinct(d[..n]) + if n > 0 && d[n - 1].typ == d[n].typ then [] else [d[n].pdu]
  }

  predicate GivesUp(s: System, m: Move)
  {
    m.Tick? && Abandons(s.tx, Hear(TimedOut, m.now))
  }

  /** No copy of the current message is under way and none has arrived. */
  ghost predicate Unseen(s: System)
  {
    !Arrived(s) && forall i :: 0 <= i < |s.data| ==> s.data[i].typ != Current(s)
  }

  /** A message may be given up as long as no copy of it is under way or has arrived. */
  ghost predicate Harmless(s: System, m: Move)
  {
    GivesUp(s, m) ==> Unseen(s)
  }

  ghost predicate HarmlessRun(s: System, moves: seq<Move>)
    decreases |moves|
  {
    moves == [] || (Harmless(s, moves[0]) && HarmlessRun(Step(s, moves[0]), moves[1..]))
  }

  // ----- The invariant -----

  /** Parity of the current message, as a frame type. */
  function Current(s: System): octet
  {
    DataType(s.tx.seqno)
  }

  /** The current message has reached the peer. */
  predicate Arrived(s: System)
  {
    s.delivered != [] && s.delivered[|s.delivered| - 1].typ == Current(s)
  }

  /** Frames of the current parity carry the current message, and come after all others. */
  ghost predicate DataOrdered(s: System)
  {
    && (forall i :: 0 <= i < |s.data| ==> IsData(s.data[i]))
    && (forall i :: 0 <= i < |s.data| && s.data[i].typ == Current(s) ==> s.data[i].pdu == s.tx.pdu && s.open)
    && (forall i, j :: 0 <= i < j < |s.data| && s.data[i].typ == Current(s) ==> s.data[j].typ == Current(s))
    && (forall i :: 0 <= i < |s.data| && s.data[i].typ != Current(s) ==> s.delivered != [] && !Arrived(s))
  }

  /** So do acknowledgements of the current parity, and there are none before it has arrived. */
  ghost predicate AcksOrdered(s: System)
  {
    && (forall i :: 0 <= i < |s.acks| ==> s.acks[i] == ACK_0_XON || s.acks[i] == ACK_1_XON)
    && (forall i, j :: 0 <= i < j < |s.acks| && s.acks[i] == AckFor(Current(s)) ==> s.acks[j] == AckFor(Current(s)))
    && (!Arrived(s) ==> forall i :: 0 <= i < |s.acks| ==> s.acks[i] != AckFor(Current(s)))
  }

  ghost predicate Counted(s: System)
  {
    && s.tx.seqno < CLOCK_RANGE
    && (forall i :: 0 <= i < |s.delivered| ==> IsData(s.delivered[i]))
    && (Arrived(s) || s.tx.pdu != [] ==> s.open)
    && (s.tx.mode == Connected ==> s.tx.flag == !s.open)
    && Distinct(s.delivered) == s.acked + (if Arrived(s) then [s.tx.pdu] else [])
    && s.taken == s.acked + (if s.open then [s.tx.pdu] else [])
  }

  ghost predicate Inv(s: System)
  {
    DataOrdered(s) && AcksOrdered(s) && Counted(s)
  }

  // ----- Moves of the line and of the peer -----

  lemma LoseDataKeeps(s: System, i: nat)
    requires Inv(s) && i < |s.data|
    ensures Inv(Step(s, LoseData(i)))
  {
    hide Distinct, DataType, IsData, Without;
    var s' := Step(s, LoseData(i));
    forall k | 0 <= k < |s'.data| ensures s'.data[k] == s.data[Shifted(k, i)] {
      WithoutAt(s.data, i, k);
    }
  }

  /** Where element `k` was before element `i` was removed. */
  function Shifted(k: nat, i: nat): nat
  {
    if k < i then k else k + 1
  }

  lemma WithoutAt<T>(s: seq<T>, i: nat, k: nat)
    requires i < |s| && k < |Without(s, i)|
    ensures Shifted(k, i) < |s| && Without(s, i)[k] == s[Shifted(k, i)]
  {
  }

  lemma LoseAckKeeps(s: System, i: nat)
    requires Inv(s) && i < |s.acks|
    ensures Inv(Step(s, LoseAck(i)))
  {
    hide Distinct, DataType, IsData, Without;
    var s' := Step(s, LoseAck(i));
    forall k | 0 <= k < |s'.acks| ensures s'.acks[k] == s.acks[Shifted(k, i)] {
      WithoutAt(s.acks, i, k);
    }
  }

  lemma {:induction false} DistinctNext(d: seq<Frame>, f: Frame)
    ensures Distinct(d + [f]) == Distinct(d) + if d != [] && d[|d| - 1].typ == f.typ then [] else [f.pdu]
  {
    var e := d + [f];
    assert e[..|d|] == d && e[|d|] == f && (d != [] ==> e[|d| - 1] == d[|d| - 1]);
  }

  lemma DataArrivesKeeps(s: System)
    requires Inv(s)
    ensures Inv(Step(s, DataArrives))
  {
    hide Distinct, DataType;
    CurrentIsData(s);
    if s.data != [] {
      var s', f := Step(s, DataArrives), s.data[0];
      DistinctNext(s.delivered, f);
      assert s.acked + [] == s.acked && s.acked + [s.tx.pdu] + [] == s.acked + [s.tx.pdu];
      assert forall k :: 0 <= k < |s'.data| ==> s'.data[k] == s.data[k + 1];
      assert forall k :: 0 <= k < |s.acks| ==> s'.acks[k] == s.acks[k];
    }
  }

  // ----- Moves of the sender -----

  lemma {:induction false} OnlyDataIs(out: seq<Frame>)
    ensures forall f :: f in OnlyData(out) ==> f in out && IsData(f)
  {
    if out != [] {
      OnlyDataIs(out[1..]);
    }
  }

  /** Anything that leaves the sequence number alone and sends only the current message. */
  lemma SenderKeeps(s: System, a: Action)
    requires Inv(s) && !Acknowledges(s.tx, a) && (Abandons(s.tx, a) ==> Unseen(s))
    requires
      var (l, out) := PtpSender.Step(s.tx, a);
      && l.seqno == s.tx.seqno
      && l.pdu == (if Takes(s.tx, a) then a.pdu else if Abandons(s.tx, a) then [] else s.tx.pdu)
      && (l.mode == Connected ==> s.tx.mode == Connected
                                  && l.flag == (!Takes(s.tx, a) && (Abandons(s.tx, a) || s.tx.flag)))
      && forall f :: f in out && IsData(f) ==> f == Frame(Current(s), l.pdu) && (Takes(s.tx, a) || l.pdu != [])
    ensures Inv(Sender(s, a))
  {
    hide PtpSender.Step, DataType, Acknowledges, Past;
    var s', more := Sender(s, a), OnlyData(PtpSender.Step(s.tx, a).1);
    OnlyDataIs(PtpSender.Step(s.tx, a).1);
    assert s'.data == s.data + more && s'.acks == s.acks && s'.delivered == s.delivered && s'.acked == s.acked;
    forall k | 0 <= k < |more| ensures more[k] == Frame(Current(s), s'.tx.pdu) && s'.open {
      assert more[k] in more;
    }
    assert s.acked + [] == s.acked;
    if Abandons(s.tx, a) {
      assert ButLast(s.acked + [s.tx.pdu]) == s.acked;
    }
    assert Arrived(s') == Arrived(s);
    CurrentIsData(s);
  }

  lemma CurrentIsData(s: System)
    ensures Current(s) == DATA_0 || Current(s) == DATA_1
  {
  }

  lemma GiveKeeps(s: System, pdu: seq<octet>, now: nat)
    requires Inv(s)
    ensures Inv(Sender(s, Submit(pdu, now)))
  {
    hide DataOrdered, AcksOrdered, DataType, Later, Distinct;
    StepEffect(s.tx, Submit(pdu, now));
    SenderKeeps(s, Submit(pdu, now));
  }

  lemma TickKeeps(s: System, now: nat)
    requires Inv(s) && Harmless(s, Tick(now))
    ensures Inv(Sender(s, Hear(TimedOut, now)))
  {
    hide Inv, DataType, Later, Silence, Past;
    SilenceEffect(s.tx, now);
    SenderKeeps(s, Hear(TimedOut, now));
  }

  lemma PeerReadyKeeps(s: System, on: bool, now: nat)
    requires Inv(s)
    ensures Inv(Step(s, PeerReady(on, now)))
  {
    hide Inv, DataType, Later;
    SenderKeeps(s, Hear(Heard(if on then HEARTBEAT_XON else HEARTBEAT_XOFF), now));
  }

  /** An acknowledgement of the current message releases it; the other parity becomes current. */
  lemma ReleaseKeeps(s: System, now: nat)
    requires Inv(s) && s.acks != [] && Acknowledges(s.tx, Hear(Heard(s.acks[0]), now))
    ensures Inv(Step(s, AckArrives(now)))
  {
    hide Handle, Later;
    HandleEffect(s.tx.(rxIdle := Later(now, RX_IDLE)), s.acks[0], now);
    SuccessorParity(s.tx.seqno);
    var s' := Step(s, AckArrives(now));
    assert s.acks[0] == AckFor(Current(s));
    assert s'.data == s.data + [] == s.data && s'.acks == s.acks[1..];
    assert s'.delivered == s.delivered && s'.acked == s.acked + [s.tx.pdu] && s'.tx.pdu == [];
    assert Current(s') != Current(s);
    assert s'.acked + [] == s'.acked;
  }

  lemma StaleAckKeeps(s: System, now: nat)
    requires Inv(s) && s.acks != [] && !Acknowledges(s.tx, Hear(Heard(s.acks[0]), now))
    ensures Inv(Step(s, AckArrives(now)))
  {
    hide DataType, Later;
    var s1 := s.(acks := s.acks[1..]);
    assert forall k :: 0 <= k < |s1.acks| ==> s1.acks[k] == s.acks[k + 1];
    assert Inv(s1);
    SenderKeeps(s1, Hear(Heard(s.acks[0]), now));
  }

  lemma MoveKeeps(s: System, m: Move)
    requires Inv(s) && Harmless(s, m)
    ensures Inv(Step(s, m))
  {
    hide Inv, Sender, Acknowledges;
    match m {
      case Give(pdu, now) => GiveKeeps(s, pdu, now);
      case Tick(now) => TickKeeps(s, now);
      case PeerReady(on, now) => PeerReadyKeeps(s, on, now);
      case DataArrives => DataArrivesKeeps(s);
      case AckArrives(now) =>
        if s.acks != [] {
          if Acknowledges(s.tx, Hear(Heard(s.acks[0]), now)) {
            ReleaseKeeps(s, now);
          } else {
            StaleAckKeeps(s, now);
          }
        }
      case LoseData(i) => if i < |s.data| { LoseDataKeeps(s, i); }
      case LoseAck(i) => if i < |s.acks| { LoseAckKeeps(s, i); }
    }
  }

  lemma {:induction false} RunKeeps(s: System, moves: seq<Move>)
    requires Inv(s) && HarmlessRun(s, moves)
    ensures Inv(Run(s, moves))
    decreases |moves|
  {
    hide Inv, Step, Harmless;
    if moves != [] {
      MoveKeeps(s, moves[0]);
      RunKeeps(Step(s, moves[0]), moves[1..]);
    }
  }

  /** In every run whose give-ups are harmless, whatever the line loses: what
      reached the peer, less repetitions, is what the sender took and did not give up, in order,
      except perhaps the message still outstanding, and every acknowledged message is among it. */
  lemma InOrderDelivery(start: nat, moves: seq<Move>)
    requires HarmlessRun(Initial(start), moves)
    ensures
      var s := Run(Initial(start), moves);
      && (Distinct(s.delivered) == s.acked || Distinct(s.delivered) == s.taken)
      && (s.taken == s.acked || s.taken == s.acked + [s.tx.pdu])
  {
    hide Step, Harmless;
    var s0 := Initial(start);
    assert Inv(s0);
    RunKeeps(s0, moves);
    var s := Run(s0, moves);
    assert s.acked + [] == s.acked;
  }

  // ----- A message given up, and an empty one -----

  lemma OneMove(s: System, m: Move, rest: seq<Move>)
    ensures Run(s, [m] + rest) == Run(Step(s, m), rest)
  {
    assert ([m] + rest)[1..] == rest;
  }

  function Carrying(pdu: seq<octet>): Frame
  {
    Frame(DATA_1, pdu)
  }

  /** A message taken while the peer is ready leaves at once. */
  lemma TakenAndSent(s: System, pdu: seq<octet>, now: nat)
    requires s.tx.mode == Connected && s.tx.pdu == [] && s.tx.flag && s.tx.xon && s.tx.seqno == 1
    ensures
      var s' := Step(s, Give(pdu, now));
      && s' == s.(tx := s'.tx, data := s.data + [Carrying(pdu)], open := true, taken := s.taken + [pdu])
      && s'.tx == s.tx.(pdu := pdu, flag := false, retries := 0, retryTimer := Later(now, DATA_RETRY), txIdle := Later(now, TX_IDLE))
  {
    var f := Carrying(pdu);
    assert [f][1..] == [] && OnlyData([f]) == [f] + [];
  }

  /** An acknowledgement of it releases whatever is outstanding. */
  lemma AcknowledgedBlindly(s: System, now: nat)
    requires s.tx.mode == Connected && s.tx.seqno == 1 && s.acks != [] && s.acks[0] == ACK_1_XON
    ensures
      var s' := Step(s, AckArrives(now));
      s'.acked == s.acked + [s.tx.pdu] && s'.delivered == s.delivered && s'.taken == s.taken && s'.tx.flag
  {
  }

  /** After a stretch in which `older` was sent and released without an acknowledgement, a late
      acknowledgement of it counts for the next message, which nobody has received. */
  lemma LateAcknowledgement(s: System, older: seq<octet>, newer: seq<octet>, now: nat)
    requires s.tx.mode == Connected && s.tx.pdu == [] && s.tx.flag && s.tx.xon && s.tx.seqno == 1
    requires s.data != [] && s.data[0] == Carrying(older) && s.acks == [] && s.delivered == [] && s.acked == []
    ensures
      var s' := Run(s, [DataArrives, Give(newer, now), AckArrives(now)]);
      s'.acked == [newer] && s'.delivered == [Carrying(older)]
  {
    hide Sender;
    var s1 := Step(s, DataArrives);
    var s2 := Step(s1, Give(newer, now));
    TakenAndSent(s1, newer, now);
    AcknowledgedBlindly(s2, now);
    OneMove(s2, AckArrives(now), []);
    OneMove(s1, Give(newer, now), [AckArrives(now)]);
    OneMove(s, DataArrives, [Give(newer, now), AckArrives(now)]);
    assert [AckArrives(now)] + [] == [AckArrives(now)];
    assert [Give(newer, now)] + [AckArrives(now)] == [Give(newer, now), AckArrives(now)];
    assert [DataArrives] + [Give(newer, now), AckArrives(now)] == [DataArrives, Give(newer, now), AckArrives(now)];
    assert [] + [newer] == [newer];
  }

  /** After an empty message the next one waits until the empty one has been acknowledged. */
  lemma NextWaitsForEmpty()
    ensures
      var s := Run(Initial(0), [PeerReady(true, 0), Give([], 0), DataArrives, Give([2], 1), AckArrives(1)]);
      s.taken == [[]] && s.acked == [[]] && s.delivered == [Carrying([])] && s.tx.flag
  {
    hide Sender, Run;
    var s1 := Ready();
    var s2 := Step(s1, Give([], 0));
    TakenAndSent(s1, [], 0);
    var s3 := Step(s2, DataArrives);
    Refused(s3, [2], 1);
    AcknowledgedBlindly(s3, 1);
    var rest := [AckArrives(1)];
    OneMove(s3, AckArrives(1), []);
    OneMove(s3, Give([2], 1), rest);
    OneMove(s2, DataArrives, [Give([2], 1)] + rest);
    OneMove(s1, Give([], 0), [DataArrives] + ([Give([2], 1)] + rest));
    OneMove(Initial(0), PeerReady(true, 0), [Give([], 0)] + ([DataArrives] + ([Give([2], 1)] + rest)));
    assert rest + [] == rest;
    RunNothing(Step(s3, AckArrives(1)));
    assert [PeerReady(true, 0)] + ([Give([], 0)] + ([DataArrives] + ([Give([2], 1)] + rest))) ==
           [PeerReady(true, 0), Give([], 0), DataArrives, Give([2], 1), AckArrives(1)];
  }

  lemma RunNothing(s: System)
    ensures Run(s, []) == s
  {
  }

  /** A sender without the flag changes nothing. */
  lemma Refused(s: System, pdu: seq<octet>, now: nat)
    requires !s.tx.flag
    ensures Step(s, Give(pdu, now)) == s
  {
    assert OnlyData([]) == [] && s.data + [] == s.data;
  }

  lemma Ready() returns (s: System)
    ensures s == Step(Initial(0), PeerReady(true, 0)) == Initial(0).(tx := Initial(0).tx.(xon := true))
  {
    s := Step(Initial(0), PeerReady(true, 0));
    assert [] + [] == OnlyData([]);
  }

  /** A silence in which only the retransmission timer runs out. */
  lemma OneSilence(s: System, now: nat)
    requires s.tx.mode == Connected && s.tx.xon && Due(s.tx, now) && !Past(s.tx.rxIdle, now)
    requires !Past(s.tx.txIdle, now) && !Past(Later(now, TX_IDLE), now)
    ensures
      var s' := Step(s, Tick(now));
      && s' == s.(tx := s'.tx, data := s'.data, open := s'.open, taken := s'.taken) && s.data <= s'.data
      && s'.tx == if s.tx.retries + 1 < RETRY_MAX
                  then s.tx.(retries := s.tx.retries + 1, retryTimer := Later(now, DATA_RETRY), txIdle := Later(now, TX_IDLE))
                  else s.tx.(retries := s.tx.retries + 1, pdu := [], flag := true)
  {
    hide Past, Later, OnlyData;
  }

  /** Three of them end with the message released. */
  lemma ThreeSilences(s: System) returns (s1: System, s2: System, s3: System)
    requires s.tx.mode == Connected && s.tx.pdu != [] && s.tx.retries == 0 && s.tx.xon
    requires s.tx.retryTimer == 1000 && s.tx.rxIdle == 30000 && s.tx.txIdle == 15000
    ensures s1 == Step(s, Tick(1001)) && s2 == Step(s1, Tick(2002)) && s3 == Step(s2, Tick(3003))
    ensures s3.tx == s.tx.(pdu := [], flag := true, retries := 3, retryTimer := 3002, txIdle := 17002)
    ensures s.data <= s3.data && s3 == s.(tx := s3.tx, data := s3.data, open := s3.open, taken := s3.taken)
  {
    hide Step;
    OneSilence(s, 1001);
    s1 := Step(s, Tick(1001));
    OneSilence(s1, 2002);
    s2 := Step(s1, Tick(2002));
    OneSilence(s2, 3003);
    s3 := Step(s2, Tick(3003));
  }

  /** A message given up after three silent seconds, with its copies still under way. */
  lemma LostAfterGivingUp()
    ensures
      var s := Run(Initial(0), [PeerReady(true, 0), Give([1], 0), Tick(1001), Tick(2002), Tick(3003),
                                DataArrives, Give([2], 3004), AckArrives(3004)]);
      s.acked == [[2]] && s.delivered == [Carrying([1])]
  {
    hide Sender, Run;
    var s1 := Ready();
    var s2 := Step(s1, Give([1], 0));
    TakenAndSent(s1, [1], 0);
    var last := [DataArrives, Give([2], 3004), AckArrives(3004)];
    var s3, s4, s5 := ThreeSilences(s2);
    LateAcknowledgement(s5, [1], [2], 3004);
    OneMove(s4, Tick(3003), last);
    OneMove(s3, Tick(2002), [Tick(3003)] + last);
    OneMove(s2, Tick(1001), [Tick(2002)] + ([Tick(3003)] + last));
    OneMove(s1, Give([1], 0), [Tick(1001)] + ([Tick(2002)] + ([Tick(3003)] + last)));
    OneMove(Initial(0), PeerReady(true, 0), [Give([1], 0)] + ([Tick(1001)] + ([Tick(2002)] + ([Tick(3003)] + last))));
    assert [PeerReady(true, 0)] + ([Give([1], 0)] + ([Tick(1001)] + ([Tick(2002)] + ([Tick(3003)] + last)))) ==
           [PeerReady(true, 0), Give([1], 0), Tick(1001), Tick(2002), Tick(3003), DataArrives, Give([2], 3004), AckArrives(3004)];
  }
}
