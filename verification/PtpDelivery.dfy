/**
  Whether a message can still get through after the line has lost everything: if and only if the
  sender has a try left.
 */
module PtpDelivery {
  import opened Octets
  import opened PtpFrame
  import opened PtpSender
  import opened PtpTransfer
  import opened PtpLoss
  import opened PtpLaws

  predicate Loss(m: Move)
  {
    m.LoseData? || m.LoseAck?
  }

  predicate NoneGiven(moves: seq<Move>)
  {
    forall i :: 0 <= i < |moves| ==> !moves[i].Give?
  }

  /** The line can lose all that is under way. */
  lemma {:induction false} LoseAll(s: System) returns (moves: seq<Move>)
    ensures Run(s, moves) == s.(data := [], acks := []) && forall m :: m in moves ==> Loss(m)
    decreases |s.data| + |s.acks|
  {
    if s.data == [] && s.acks == [] {
      moves := [];
    } else {
      var m := if s.data != [] then LoseData(0) else LoseAck(0);
      var more := LoseAll(PtpTransfer.Step(s, m));
      moves := [m] + more;
      OneMove(s, m, more);
    }
  }

  lemma SentOnly(f: Frame)
    requires IsData(f)
    ensures OnlyData([f]) == [f]
  {
    assert [f][1..] == [];
  }

  lemma HeardReady(s: System, now: nat)
    requires s.tx.mode == Connected
    ensures PtpTransfer.Step(s, PeerReady(true, now)) == s.(tx := s.tx.(xon := true, rxIdle := Later(now, RX_IDLE)))
  {
    assert s.data + [] == s.data;
  }

  /** An overdue message with a try left leaves again. */
  lemma SentAgain(s: System, now: nat)
    requires s.tx.mode == Connected && s.tx.xon && s.tx.pdu != [] && s.tx.retries + 1 < RETRY_MAX
    requires Past(s.tx.retryTimer, now) && !Past(s.tx.rxIdle, now)
    ensures
      var s', f := PtpTransfer.Step(s, Tick(now)), Frame(Current(s), s.tx.pdu);
      && s'.data == s.data + [f] && s' == s.(tx := s'.tx, data := s'.data)
      && s'.tx.mode == Connected && s'.tx.pdu == s.tx.pdu && s'.tx.seqno == s.tx.seqno
  {
    hide Past, Later, DataType;
    JustSet(now, TX_IDLE);
    CurrentIsData(s);
    SentOnly(Frame(Current(s), s.tx.pdu));
  }

  lemma ArrivesAndReturns(s: System, now: nat)
    requires s.tx.mode == Connected && s.data == [Frame(Current(s), s.tx.pdu)] && s.acks == []
    ensures
      var s1 := PtpTransfer.Step(s, DataArrives);
      var s2 := PtpTransfer.Step(s1, AckArrives(now));
      s2.delivered == s.delivered + [Frame(Current(s), s.tx.pdu)] && s2.acked == s.acked + [s.tx.pdu] && s2.tx.flag
  {
    hide Later;
    CurrentIsData(s);
  }

  /** With a try left: the peer says it is ready, the timer runs out, the copy arrives, and so
      does its acknowledgement. */
  lemma GetsThrough(s: System) returns (moves: seq<Move>)
    requires s.tx.mode == Connected && s.tx.pdu != [] && s.tx.retries + 1 < RETRY_MAX && s.data == [] && s.acks == []
    ensures NoneGiven(moves)
    ensures
      var s' := Run(s, moves);
      s'.acked == s.acked + [s.tx.pdu] && s'.delivered == s.delivered + [Frame(Current(s), s.tx.pdu)] && s'.tx.flag
  {
    hide PtpTransfer.Step, Run, Past, Later, DataType;
    var now := s.tx.retryTimer + 1;
    JustSet(now, RX_IDLE);
    assert Past(s.tx.retryTimer, now) by { OneLate(s.tx.retryTimer); }
    var s1 := PtpTransfer.Step(s, PeerReady(true, now));
    var s2 := PtpTransfer.Step(s1, Tick(now));
    var s3 := PtpTransfer.Step(s2, DataArrives);
    HeardReady(s, now);
    SentAgain(s1, now);
    assert s2.data == [Frame(Current(s), s.tx.pdu)];
    ArrivesAndReturns(s2, now);
    moves := [PeerReady(true, now)] + ([Tick(now)] + ([DataArrives] + ([AckArrives(now)] + [])));
    OneMove(s3, AckArrives(now), []);
    OneMove(s2, DataArrives, [AckArrives(now)] + []);
    OneMove(s1, Tick(now), [DataArrives] + ([AckArrives(now)] + []));
    OneMove(s, PeerReady(true, now), [Tick(now)] + ([DataArrives] + ([AckArrives(now)] + [])));
    RunNothing(PtpTransfer.Step(s3, AckArrives(now)));
  }

  lemma OneLate(timer: nat)
    ensures Past(timer, timer + 1)
  {
  }

  // ----- Without a try left -----

  /** Nothing is under way and no more copies will be. */
  ghost predicate Exhausted(s: System)
  {
    s.data == [] && s.acks == [] && (s.tx.pdu == [] || s.tx.mode != Connected || s.tx.retries + 1 >= RETRY_MAX)
  }

  lemma ExhaustedSender(s: System, a: Action)
    requires Exhausted(s) && a.Hear? && (a.e.Heard? ==> a.e.typ == HEARTBEAT_XOFF || a.e.typ == HEARTBEAT_XON)
    ensures Exhausted(PtpTransfer.Sender(s, a)) && PtpTransfer.Sender(s, a).acked == s.acked
    ensures PtpTransfer.Sender(s, a).delivered == s.delivered
  {
    hide PtpSender.Step, Past, Later;
    FieldsExactly(s.tx, a);
    var out := PtpSender.Step(s.tx, a).1;
    forall f | f in out ensures !IsData(f) {
      FramesExactly(s.tx, a, f);
    }
    NoData(out);
  }

  lemma {:induction false} ExhaustedForEver(s: System, moves: seq<Move>)
    requires Exhausted(s) && NoneGiven(moves)
    ensures Run(s, moves).acked == s.acked && Run(s, moves).delivered == s.delivered
    decreases |moves|
  {
    hide PtpTransfer.Sender;
    if moves != [] {
      match moves[0] {
        case Tick(now) => ExhaustedSender(s, Hear(TimedOut, now));
        case PeerReady(on, now) => ExhaustedSender(s, Hear(Heard(if on then HEARTBEAT_XON else HEARTBEAT_XOFF), now));
        case _ =>
      }
      ExhaustedForEver(PtpTransfer.Step(s, moves[0]), moves[1..]);
    }
  }

  /** From any connected state with a message outstanding: once the line has lost everything under
      way, the message can still be delivered and acknowledged if and only if it has been found
      overdue fewer than two times. */
  lemma DeliverableExactly(s: System)
    requires s.tx.mode == Connected && s.tx.pdu != []
    ensures
      var lost := s.(data := [], acks := []);
      (exists moves :: NoneGiven(moves) && Run(lost, moves).acked == s.acked + [s.tx.pdu]) <==> s.tx.retries < 2
  {
    hide Run, NoneGiven;
    var lost := s.(data := [], acks := []);
    if s.tx.retries + 1 < RETRY_MAX {
      var moves := GetsThrough(lost);
    } else {
      forall moves | NoneGiven(moves) ensures Run(lost, moves).acked != s.acked + [s.tx.pdu] {
        ExhaustedForEver(lost, moves);
        assert |Run(lost, moves).acked| == |s.acked|;
      }
    }
  }

  /** So a line that loses everything at first cannot keep a message with a try left from the peer. */
  lemma DeliveredAfterLoss(s: System) returns (lose: seq<Move>, more: seq<Move>)
    requires s.tx.mode == Connected && s.tx.pdu != [] && s.tx.retries < 2
    ensures (forall m :: m in lose ==> Loss(m)) && NoneGiven(more)
    ensures
      var s' := Run(s, lose + more);
      s'.delivered == s.delivered + [Frame(Current(s), s.tx.pdu)] && s'.acked == s.acked + [s.tx.pdu]
  {
    hide Run, NoneGiven;
    lose := LoseAll(s);
    more := GetsThrough(s.(data := [], acks := []));
    RunAppend(s, lose, more);
  }
}
