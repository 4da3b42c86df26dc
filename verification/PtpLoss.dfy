/**
  Exactly when a message given up does harm: if and only if a copy of it is under way or has
  arrived. Its parity is then still in use, so the peer takes the next message for a repetition
  and the sender takes the old acknowledgement for a new one.
 */
module PtpLoss {
  import opened Octets
  import opened PtpFrame
  import opened PtpSender
  import opened PtpTransfer

  /** What reached the peer, less repetitions, is what the sender took and did not give up,
      except perhaps the message still outstanding. */
  ghost predicate InOrder(s: System)
  {
    && (Distinct(s.delivered) == s.acked || Distinct(s.delivered) == s.taken)
    && (s.taken == s.acked || s.taken == s.acked + [s.tx.pdu])
  }

  /** Every message seen acknowledged is one that a peer dropping repetitions has. */
  ghost predicate Lossless(s: System)
  {
    forall m :: m in s.acked ==> m in Distinct(s.delivered)
  }

  lemma InvGood(s: System)
    requires Inv(s)
    ensures InOrder(s) && Lossless(s)
  {
    hide Distinct;
    assert s.acked + [] == s.acked;
  }

  // ----- Continuations that give nothing up -----

  predicate Quiet(m: Move)
  {
    !m.Tick?
  }

  predicate AllQuiet(moves: seq<Move>)
  {
    forall i :: 0 <= i < |moves| ==> Quiet(moves[i])
  }

  lemma {:induction false} QuietHarmless(s: System, moves: seq<Move>)
    requires AllQuiet(moves)
    ensures HarmlessRun(s, moves)
    decreases |moves|
  {
    hide PtpTransfer.Step, Unseen;
    if moves != [] {
      QuietHarmless(PtpTransfer.Step(s, moves[0]), moves[1..]);
    }
  }

  lemma {:induction false} RunAppend(s: System, a: seq<Move>, b: seq<Move>)
    ensures Run(s, a + b) == Run(Run(s, a), b)
    decreases |a|
  {
    hide PtpTransfer.Step;
    if a == [] {
      assert a + b == b;
    } else {
      assert (a + b)[0] == a[0] && (a + b)[1..] == a[1..] + b;
      RunAppend(PtpTransfer.Step(s, a[0]), a[1..], b);
    }
  }

  function AcksFor(data: seq<Frame>): seq<octet>
  {
    if data == [] then [] else [AckFor(data[0].typ)] + AcksFor(data[1..])
  }

  /** Everything under way can arrive. */
  lemma {:induction false} DeliverAll(s: System) returns (moves: seq<Move>)
    ensures AllQuiet(moves)
    ensures Run(s, moves) == s.(data := [], delivered := s.delivered + s.data, acks := s.acks + AcksFor(s.data))
    decreases |s.data|
  {
    hide PtpTransfer.Step;
    if s.data == [] {
      moves := [];
      assert s.delivered + s.data == s.delivered && s.acks + AcksFor(s.data) == s.acks;
    } else {
      var s1 := PtpTransfer.Step(s, DataArrives);
      OneArrives(s);
      var more := DeliverAll(s1);
      moves := [DataArrives] + more;
      OneMove(s, DataArrives, more);
    }
  }

  lemma OneArrives(s: System)
    requires s.data != []
    ensures
      var s1 := PtpTransfer.Step(s, DataArrives);
      && s1 == s.(data := s.data[1..], delivered := s1.delivered, acks := s1.acks)
      && s1.delivered + s1.data == s.delivered + s.data && s1.acks + AcksFor(s1.data) == s.acks + AcksFor(s.data)
  {
    hide PtpTransfer.Sender, AckFor;
  }

  // ----- The order is lost -----

  /** Delivering everything delivers a current message that is under way or has arrived. */
  lemma DeliveredAfterAll(s: System)
    requires Inv(s) && !Unseen(s)
    ensures Distinct(s.delivered + s.data) == s.acked + [s.tx.pdu]
  {
    hide PtpTransfer.Step, Distinct, DataType, IsData;
    var moves := DeliverAll(s);
    QuietHarmless(s, moves);
    RunKeeps(s, moves);
    var s' := Run(s, moves);
    if s.data != [] {
      var n := |s.data| - 1;
      assert (s.delivered + s.data)[|s.delivered| + n] == s.data[n];
      assert Arrived(s');
    } else {
      assert s.delivered + s.data == s.delivered;
    }
  }

  lemma GivenUpState(s: System, now: nat)
    requires Inv(s) && GivesUp(s, Tick(now))
    ensures
      var s' := PtpTransfer.Step(s, Tick(now));
      && s' == s.(tx := s'.tx, open := false, taken := s.acked)
      && s'.tx.pdu == [] && s'.tx.flag && s'.tx.seqno == s.tx.seqno && s.tx.pdu != []
  {
    hide Distinct, DataType, Silence, Past, DataOrdered, AcksOrdered;
    SilenceEffect(s.tx, now);
    NoData(PtpSender.Step(s.tx, Hear(TimedOut, now)).1);
    assert s.data + [] == s.data && ButLast(s.acked + [s.tx.pdu]) == s.acked;
  }

  lemma {:induction false} NoData(out: seq<Frame>)
    requires forall f :: f in out ==> !IsData(f)
    ensures OnlyData(out) == []
  {
    if out != [] {
      NoData(out[1..]);
    }
  }

  /** A give-up keeps every continuation in order if and only if no copy of the message is under
      way and none has arrived. */
  lemma GiveUpExactly(s: System, now: nat)
    requires Inv(s) && GivesUp(s, Tick(now))
    ensures
      var s' := PtpTransfer.Step(s, Tick(now));
      (forall moves :: HarmlessRun(s', moves) ==> InOrder(Run(s', moves))) <==> Unseen(s)
  {
    hide Inv, PtpTransfer.Step, HarmlessRun, Run, Unseen, Distinct, GivesUp;
    var s' := PtpTransfer.Step(s, Tick(now));
    if Unseen(s) {
      GiveUpKeeps(s, now);
      forall moves | HarmlessRun(s', moves) ensures InOrder(Run(s', moves)) {
        RunKeeps(s', moves);
        InvGood(Run(s', moves));
      }
    } else {
      GivenUpState(s, now);
      DeliveredAfterAll(s);
      var moves := DeliverAll(s');
      QuietHarmless(s', moves);
      assert |s.acked + [s.tx.pdu]| != |s.acked|;
      assert !InOrder(Run(s', moves));
    }
  }

  lemma GiveUpKeeps(s: System, now: nat)
    requires Inv(s) && GivesUp(s, Tick(now)) && Unseen(s)
    ensures Inv(PtpTransfer.Step(s, Tick(now)))
  {
    hide Inv, PtpTransfer.Step, Unseen, GivesUp;
    MoveKeeps(s, Tick(now));
  }

  // ----- The next message is lost -----

  /** The link is up with nothing outstanding, but the last data frame to arrive has, or will
      have, the parity the next message gets. */
  ghost predicate Stale(s: System)
  {
    && s.tx.mode == Connected && s.tx.pdu == [] && s.tx.flag
    && (forall i :: 0 <= i < |s.data| ==> IsData(s.data[i]))
    && (forall i :: 0 <= i < |s.acks| ==> s.acks[i] == ACK_0_XON || s.acks[i] == ACK_1_XON)
    && (var d := s.delivered + s.data; d != [] && d[|d| - 1].typ == Current(s))
  }

  lemma {:induction false} DistinctFrom(d: seq<Frame>, m: seq<octet>)
    requires forall f :: f in d ==> f.pdu != m
    ensures m !in Distinct(d)
  {
    if d != [] {
      var n := |d| - 1;
      assert d[n] in d;
      DistinctFrom(d[..n], m);
    }
  }

  /** There is always a message that nothing in `d` carries. */
  lemma {:induction false} NewMessage(d: seq<Frame>) returns (m: seq<octet>)
    ensures m != [] && forall f :: f in d ==> |f.pdu| < |m|
  {
    if d == [] {
      m := [1];
    } else {
      var w := NewMessage(d[1..]);
      m := w + d[0].pdu;
    }
  }

  /** Acknowledgements arrive until one of the current parity releases the message. */
  lemma {:induction false} AckUntil(s: System, k: nat, now: nat) returns (moves: seq<Move>)
    requires s.tx.mode == Connected && k < |s.acks| && s.acks[k] == AckFor(Current(s))
    requires forall i :: 0 <= i < |s.acks| ==> s.acks[i] == ACK_0_XON || s.acks[i] == ACK_1_XON
    ensures AllQuiet(moves)
    ensures
      var s' := Run(s, moves);
      && s'.acked == s.acked + [s.tx.pdu] && s'.delivered == s.delivered && s'.taken == s.taken
      && s'.tx.mode == Connected && s'.tx.pdu == [] && s'.tx.flag
    decreases k
  {
    hide Later;
    var s1 := PtpTransfer.Step(s, AckArrives(now));
    if s.acks[0] == AckFor(Current(s)) {
      moves := [AckArrives(now)];
      OneMove(s, AckArrives(now), []);
      assert [AckArrives(now)] + [] == moves;
    } else {
      assert s1 == s.(tx := s.tx.(rxIdle := s1.tx.rxIdle), acks := s.acks[1..], data := s1.data);
      var more := AckUntil(s1, k - 1, now);
      moves := [AckArrives(now)] + more;
      OneMove(s, AckArrives(now), more);
    }
  }

  lemma {:induction false} AcksForAre(data: seq<Frame>)
    ensures forall i :: 0 <= i < |AcksFor(data)| ==> AcksFor(data)[i] == ACK_0_XON || AcksFor(data)[i] == ACK_1_XON
  {
    if data != [] {
      AcksForAre(data[1..]);
    }
  }

  lemma MadeReady(s: System, now: nat)
    requires s.tx.mode == Connected
    ensures
      var s' := PtpTransfer.Step(s, PeerReady(true, now));
      s' == s.(tx := s.tx.(xon := true, rxIdle := Later(now, RX_IDLE)))
  {
    hide Later;
    assert OnlyData([]) == [] && s.data + [] == s.data;
  }

  lemma Given(s: System, m: seq<octet>, now: nat)
    requires s.tx.mode == Connected && s.tx.pdu == [] && s.tx.flag && s.tx.xon && s.data == []
    ensures
      var s' := PtpTransfer.Step(s, Give(m, now));
      && s' == s.(tx := s'.tx, data := [Frame(Current(s), m)], open := true, taken := s.taken + [m])
      && s'.tx.pdu == m && s'.tx.mode == Connected && s'.tx.seqno == s.tx.seqno
  {
    hide Later;
    var f := Frame(Current(s), m);
    assert [f][1..] == [] && OnlyData([f]) == [f] + [] == [f] && [] + [f] == [f];
  }

  /** From a stale state the next message, sent and received, is taken for a repetition and yet
      acknowledged. */
  lemma LosesNext(s: System, now: nat) returns (moves: seq<Move>)
    requires Stale(s)
    ensures AllQuiet(moves) && !Lossless(Run(s, moves))
  {
    hide PtpTransfer.Step, Distinct, DataType, Run;
    var d := s.delivered + s.data;
    var m := NewMessage(d);
    var s1 := PtpTransfer.Step(s, PeerReady(true, now));
    MadeReady(s, now);
    var a := DeliverAll(s1);
    var s2 := Run(s1, a);
    var s3 := PtpTransfer.Step(s2, Give(m, now));
    Given(s2, m, now);
    var b := DeliverAll(s3);
    var s4 := Run(s3, b);
    AcksForAre(s.data);
    AcksForAre(s3.data);
    AckOfOne(s3.data[0]);
    var c := AckUntil(s4, |s4.acks| - 1, now);
    Assembled(s, s1, s2, s3, s4, a, b, c, m, now);
    moves := [PeerReady(true, now)] + (a + ([Give(m, now)] + (b + c)));
    DistinctNext(d, Frame(Current(s), m));
    assert s4.delivered == d + [Frame(Current(s), m)];
    DistinctFrom(d, m);
    assert m in Run(s, moves).acked && m !in Distinct(Run(s, moves).delivered);
  }

  lemma AckOfOne(f: Frame)
    ensures AcksFor([f]) == [AckFor(f.typ)]
  {
    assert [f][1..] == [];
  }

  lemma Assembled(s: System, s1: System, s2: System, s3: System, s4: System, a: seq<Move>, b: seq<Move>, c: seq<Move>,
                  m: seq<octet>, now: nat)
    requires s1 == PtpTransfer.Step(s, PeerReady(true, now)) && s2 == Run(s1, a)
    requires s3 == PtpTransfer.Step(s2, Give(m, now)) && s4 == Run(s3, b)
    requires AllQuiet(a) && AllQuiet(b) && AllQuiet(c)
    ensures
      var moves := [PeerReady(true, now)] + (a + ([Give(m, now)] + (b + c)));
      AllQuiet(moves) && Run(s, moves) == Run(s4, c)
  {
    hide PtpTransfer.Step, Run;
    OneMove(s, PeerReady(true, now), a + ([Give(m, now)] + (b + c)));
    RunAppend(s1, a, [Give(m, now)] + (b + c));
    OneMove(s2, Give(m, now), b + c);
    RunAppend(s3, b, c);
  }

  lemma DistinctGrows(d: seq<Frame>, f: Frame)
    ensures forall m :: m in Distinct(d) ==> m in Distinct(d + [f])
  {
    hide Distinct;
    DistinctNext(d, f);
  }

  /** A link that is down acknowledges nothing more. */
  lemma {:induction false} DownKeeps(s: System, moves: seq<Move>)
    requires s.tx.mode != Connected && Lossless(s)
    ensures Lossless(Run(s, moves))
    decreases |moves|
  {
    hide Distinct;
    if moves != [] {
      if s.data != [] {
        DistinctGrows(s.delivered, s.data[0]);
      }
      DownKeeps(PtpTransfer.Step(s, moves[0]), moves[1..]);
    }
  }

  /** A give-up loses no later message if and only if no copy of it is under way or has arrived,
      or the link goes down with it. */
  lemma GiveUpLosesExactly(s: System, now: nat)
    requires Inv(s) && GivesUp(s, Tick(now))
    ensures
      var s' := PtpTransfer.Step(s, Tick(now));
      (forall moves :: HarmlessRun(s', moves) ==> Lossless(Run(s', moves))) <==> Unseen(s) || s'.tx.mode != Connected
  {
    hide Inv, PtpTransfer.Step, HarmlessRun, Run, Unseen, Lossless, GivesUp, Stale;
    var s' := PtpTransfer.Step(s, Tick(now));
    if Unseen(s) {
      GiveUpKeeps(s, now);
      forall moves | HarmlessRun(s', moves) ensures Lossless(Run(s', moves)) {
        RunKeeps(s', moves);
        InvGood(Run(s', moves));
      }
    } else if s'.tx.mode != Connected {
      StillLossless(s, now);
      forall moves ensures Lossless(Run(s', moves)) {
        DownKeeps(s', moves);
      }
    } else {
      StaleAfterGiveUp(s, now);
      var moves := LosesNext(s', now);
      QuietHarmless(s', moves);
    }
  }

  lemma StillLossless(s: System, now: nat)
    requires Inv(s) && GivesUp(s, Tick(now))
    ensures Lossless(PtpTransfer.Step(s, Tick(now)))
  {
    hide Inv, PtpTransfer.Step, GivesUp, Distinct;
    InvGood(s);
    GivenUpState(s, now);
  }

  lemma StaleAfterGiveUp(s: System, now: nat)
    requires Inv(s) && GivesUp(s, Tick(now)) && !Unseen(s) && PtpTransfer.Step(s, Tick(now)).tx.mode == Connected
    ensures Stale(PtpTransfer.Step(s, Tick(now)))
  {
    hide PtpTransfer.Step, GivesUp, Distinct, DataType;
    GivenUpState(s, now);
    if s.data != [] {
      assert (s.delivered + s.data)[|s.delivered| + |s.data| - 1] == s.data[|s.data| - 1];
    } else {
      assert s.delivered + s.data == s.delivered;
    }
  }

}
