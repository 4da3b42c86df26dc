/**
  When a sender can go on. A message is taken only with the flag, and the flag comes back only
  with an acknowledgement or a give-up; an empty message is never retransmitted and never given
  up, so after it everything hangs on the one copy that may have been sent.
 */
module PtpEmpty {
  import opened Octets
  import opened PtpFrame
  import opened PtpSender
  import opened PtpTransfer
  import opened PtpLoss

  ghost predicate Typed(s: System)
  {
    && (forall i :: 0 <= i < |s.data| ==> IsData(s.data[i]))
    && (forall i :: 0 <= i < |s.acks| ==> s.acks[i] == ACK_0_XON || s.acks[i] == ACK_1_XON)
  }

  /** A data frame or an acknowledgement of the current parity is under way. */
  ghost predicate UnderWay(s: System)
  {
    || (exists i :: 0 <= i < |s.data| && s.data[i].typ == Current(s))
    || (exists i :: 0 <= i < |s.acks| && s.acks[i] == AckFor(Current(s)))
  }

  /** The flag is gone, and there is nothing to give up and nothing to wait for. */
  ghost predicate Stuck(s: System)
  {
    !s.tx.flag && s.tx.pdu == [] && Typed(s) && !UnderWay(s)
  }

  lemma StuckSender(s: System, a: Action)
    requires Stuck(s) && !Acknowledges(s.tx, a)
    requires a.Hear? && a.e.Heard? ==> a.e.typ != NAK_0_XON && a.e.typ != NAK_1_XON
    ensures
      var s' := PtpTransfer.Sender(s, a);
      && s' == s.(tx := s'.tx) && !s'.tx.flag && s'.tx.pdu == [] && s'.tx.seqno == s.tx.seqno
  {
    hide Typed, UnderWay, DataType, Later, Silence, Past;
    var out := PtpSender.Step(s.tx, a).1;
    if a.Hear? && a.e.TimedOut? {
      SilenceEffect(s.tx, a.now);
    }
    NoData(out);
    assert s.data + [] == s.data;
  }

  lemma SameLine(s: System, s': System)
    requires Stuck(s) && s' == s.(tx := s'.tx) && !s'.tx.flag && s'.tx.pdu == [] && s'.tx.seqno == s.tx.seqno
    ensures Stuck(s')
  {
  }

  lemma StuckAck(s: System, now: nat)
    requires Stuck(s) && s.acks != []
    ensures Stuck(PtpTransfer.Step(s, AckArrives(now))) && PtpTransfer.Step(s, AckArrives(now)).taken == s.taken
  {
    hide PtpTransfer.Sender;
    var s1 := s.(acks := s.acks[1..]);
    assert forall i :: 0 <= i < |s1.acks| ==> s1.acks[i] == s.acks[i + 1];
    assert Current(s1) == Current(s);
    assert s.acks[0] != AckFor(Current(s));
    StuckSender(s1, Hear(Heard(s.acks[0]), now));
    SameLine(s1, PtpTransfer.Step(s, AckArrives(now)));
  }

  lemma StuckArrival(s: System)
    requires Stuck(s) && s.data != []
    ensures Stuck(PtpTransfer.Step(s, DataArrives)) && PtpTransfer.Step(s, DataArrives).taken == s.taken
  {
    hide PtpTransfer.Sender, DataType;
    var s' := PtpTransfer.Step(s, DataArrives);
    CurrentIsData(s);
    assert s.data[0].typ != Current(s);
    assert forall i :: 0 <= i < |s'.data| ==> s'.data[i] == s.data[i + 1];
    assert forall i :: 0 <= i < |s.acks| ==> s'.acks[i] == s.acks[i];
    assert Current(s') == Current(s);
  }

  lemma StuckLoseData(s: System, i: nat)
    requires Stuck(s) && i < |s.data|
    ensures Stuck(PtpTransfer.Step(s, LoseData(i)))
  {
    hide DataType, IsData, Without;
    var s' := PtpTransfer.Step(s, LoseData(i));
    forall k | 0 <= k < |s'.data| ensures s'.data[k] == s.data[Shifted(k, i)] {
      WithoutAt(s.data, i, k);
    }
  }

  lemma StuckLoseAck(s: System, i: nat)
    requires Stuck(s) && i < |s.acks|
    ensures Stuck(PtpTransfer.Step(s, LoseAck(i)))
  {
    hide DataType, IsData, Without;
    var s' := PtpTransfer.Step(s, LoseAck(i));
    forall k | 0 <= k < |s'.acks| ensures s'.acks[k] == s.acks[Shifted(k, i)] {
      WithoutAt(s.acks, i, k);
    }
  }

  /** The action of the sending end behind a move, if it is one. */
  function ActionOf(m: Move): Action
    requires m.Give? || m.Tick? || m.PeerReady?
  {
    match m
    case Give(pdu, now) => Submit(pdu, now)
    case Tick(now) => Hear(TimedOut, now)
    case PeerReady(on, now) => Hear(Heard(if on then HEARTBEAT_XON else HEARTBEAT_XOFF), now)
  }

  lemma StuckMove(s: System, m: Move)
    requires Stuck(s)
    ensures Stuck(PtpTransfer.Step(s, m)) && PtpTransfer.Step(s, m).taken == s.taken
  {
    hide Stuck, PtpTransfer.Sender;
    match m {
      case DataArrives => if s.data != [] { StuckArrival(s); }
      case AckArrives(now) => if s.acks != [] { StuckAck(s, now); }
      case LoseData(i) => if i < |s.data| { StuckLoseData(s, i); }
      case LoseAck(i) => if i < |s.acks| { StuckLoseAck(s, i); }
      case _ =>
        StuckSender(s, ActionOf(m));
        SameLine(s, PtpTransfer.Step(s, m));
    }
  }

  /** Nothing is ever taken again. */
  lemma {:induction false} StuckForEver(s: System, moves: seq<Move>)
    requires Stuck(s)
    ensures Stuck(Run(s, moves)) && Run(s, moves).taken == s.taken
    decreases |moves|
  {
    hide Stuck, PtpTransfer.Step;
    if moves != [] {
      StuckMove(s, moves[0]);
      StuckForEver(PtpTransfer.Step(s, moves[0]), moves[1..]);
    }
  }

  // ----- What is under way can bring the flag back -----

  lemma {:induction false} AckAmong(data: seq<Frame>, i: nat)
    requires i < |data|
    ensures i < |AcksFor(data)| && AcksFor(data)[i] == AckFor(data[i].typ)
  {
    if i > 0 {
      AckAmong(data[1..], i - 1);
    }
  }

  lemma FlagComesBack(s: System) returns (moves: seq<Move>)
    requires s.tx.mode == Connected && s.tx.pdu == [] && Typed(s) && UnderWay(s)
    ensures Run(s, moves).taken == s.taken + [[]]
  {
    hide PtpTransfer.Step, DataType, Run;
    var a := DeliverAll(s);
    var s1 := Run(s, a);
    AcksForAre(s.data);
    var k: nat;
    if i: nat :| i < |s.acks| && s.acks[i] == AckFor(Current(s)) {
      k := i;
    } else {
      var i: nat :| i < |s.data| && s.data[i].typ == Current(s);
      AckAmong(s.data, i);
      k := |s.acks| + i;
    }
    assert s1.acks[k] == AckFor(Current(s1));
    var b := AckUntil(s1, k, 0);
    var s2 := Run(s1, b);
    RunAppend(s, a, b);
    RunAppend(s, a + b, [Give([], 0)]);
    OneMove(s2, Give([], 0), []);
    RunNothing(PtpTransfer.Step(s2, Give([], 0)));
    assert [Give([], 0)] + [] == [Give([], 0)];
    TakenWithFlag(s2, [], 0);
    moves := a + b + [Give([], 0)];
  }

  lemma TakenWithFlag(s: System, pdu: seq<octet>, now: nat)
    requires s.tx.mode == Connected && s.tx.pdu == [] && s.tx.flag
    ensures PtpTransfer.Step(s, Give(pdu, now)).taken == s.taken + [pdu]
  {
  }

  ghost predicate TakesMore(s: System, moves: seq<Move>)
  {
    |Run(s, moves).taken| > |s.taken|
  }

  /** A connected sender without the flag and with no octets outstanding can take another message
      if and only if a copy or an acknowledgement of the current parity is under way. */
  lemma GoesOnExactly(s: System)
    requires s.tx.mode == Connected && s.tx.pdu == [] && !s.tx.flag && Typed(s)
    ensures (exists moves :: TakesMore(s, moves)) <==> UnderWay(s)
  {
    hide Run, UnderWay, Typed;
    if UnderWay(s) {
      var moves := FlagComesBack(s);
      assert TakesMore(s, moves);
    } else {
      forall moves ensures !TakesMore(s, moves) {
        StuckForEver(s, moves);
      }
    }
  }

  lemma EmptyState(s: System, now: nat)
    requires Inv(s) && Takes(s.tx, Submit([], now))
    ensures
      var s' := PtpTransfer.Step(s, Give([], now));
      && s'.tx.mode == Connected && s'.tx.pdu == [] && !s'.tx.flag && Typed(s')
      && (UnderWay(s') <==> s.tx.xon)
  {
    hide Distinct, Later;
    var s', f := PtpTransfer.Step(s, Give([], now)), Frame(Current(s), []);
    CurrentIsData(s);
    assert [f][1..] == [] && OnlyData([f]) == [f] + [] == [f] && OnlyData([]) == [];
    assert s'.data == if s.tx.xon then s.data + [f] else s.data;
    assert s.tx.xon ==> s'.data[|s.data|] == f;
    assert Current(s') == Current(s);
  }

  /** After an empty message another can be taken if and only if the empty one was sent. */
  lemma EmptyExactly(s: System, now: nat)
    requires Inv(s) && Takes(s.tx, Submit([], now))
    ensures
      var s' := PtpTransfer.Step(s, Give([], now));
      (exists moves :: TakesMore(s', moves)) <==> s.tx.xon
  {
    hide Inv, PtpTransfer.Step, TakesMore, UnderWay, Typed;
    EmptyState(s, now);
    GoesOnExactly(PtpTransfer.Step(s, Give([], now)));
  }

  /** A message offered before the link is connected is refused and uses up the flag, so once
      connected the link takes nothing, ever. */
  lemma EarlySendBlocks(start: nat, pdu: seq<octet>, now: nat, moves: seq<Move>)
    ensures
      var before := Initial(start).tx.(mode := Disconnected);
      var l := PtpSender.Step(before, Submit(pdu, now)).0;
      Run(Initial(start).(tx := l.(mode := Connected)), moves).taken == []
  {
    hide Run, Later;
    var l := PtpSender.Step(Initial(start).tx.(mode := Disconnected), Submit(pdu, now)).0;
    StuckForEver(Initial(start).(tx := l.(mode := Connected)), moves);
  }
}
