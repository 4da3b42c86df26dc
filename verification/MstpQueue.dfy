/**
  When another message can be queued. A sender needs the flag, and only the node that sends a
  queued message gives it back; an empty message is never sent.
 */
module MstpQueue {
  import opened Octets
  import opened MstpFrame
  import opened Mstp

  // ----- Without the flag and with nothing queued -----

  predicate Blocked(s: State)
  {
    !s.tx.flag && s.tx.len == 0
  }

  lemma BlockedStep(s: State, a: Action, ts: octet)
    requires Blocked(s)
    ensures Blocked(Step(s, a, ts).0) && !SendsData(Step(s, a, ts).1)
  {
    hide PassOf, Rank;
    PassSound(s, ts);
  }

  /** Nothing is ever queued again and no data is ever sent again. */
  lemma {:induction false} BlockedForEver(s: State, acts: seq<Action>, ts: octet)
    requires Blocked(s)
    ensures Blocked(Run(s, acts, ts).0) && !SendsData(Run(s, acts, ts).1)
    decreases |acts|
  {
    hide Step, Blocked;
    if acts != [] {
      BlockedStep(s, acts[0], ts);
      BlockedForEver(Step(s, acts[0], ts).0, acts[1..], ts);
    }
  }

  // ----- Every run: the flag is there only with nothing queued -----

  predicate Tidy(s: State)
  {
    s.tx.flag ==> s.tx.len == 0
  }

  lemma {:induction false} RunTidy(s: State, acts: seq<Action>, ts: octet)
    requires Tidy(s)
    ensures Tidy(Run(s, acts, ts).0)
    decreases |acts|
  {
    hide PassOf, Rank;
    if acts != [] {
      PassSound(s, ts);
      RunTidy(Step(s, acts[0], ts).0, acts[1..], ts);
    }
  }

  // ----- A message that is queued can always be sent -----

  /** The flag is back, or what was queued still is. */
  predicate Pending(s: State)
  {
    s.tx.flag || s.tx.len > 0
  }

  function TokenFor(ts: octet): Reception { Valid(Frame(TOKEN, ts, 0, [])) }

  lemma UseGivesFlag(s: State, ts: octet)
    requires s.mode == UseToken && s.busy && Pending(s)
    ensures Step(s, Visit, ts).0.tx.flag
  {
  }

  lemma IdleGetsToken(s: State, ts: octet)
    requires s.mode == Idle && s.busy && s.valid && s.typ == TOKEN && s.dst == ts != BROADCAST && Timer(s) == 0
    ensures
      var s' := Step(s, Visit, ts).0;
      s'.mode == UseToken && s'.busy && s'.tx == s.tx
  {
  }

  lemma LineInUse(s: State, ts: octet)
    requires (s.mode == NoToken || s.mode == PassToken) && s.busy && s.events > MIN_OCTETS && Timer(s) == 0
    ensures Step(s, Visit, ts).0 == s.(mode := Idle)
  {
  }

  lemma PollDropped(s: State, ts: octet)
    requires s.mode == PollForMaster && s.busy && s.valid && s.typ == TOKEN && Timer(s) == 0
    ensures
      var s1 := Step(s, Visit, ts).0;
      var s2 := Step(s1, Visit, ts).0;
      s2.mode == Idle && !s2.busy && s2.tx == s.tx
  {
  }

  lemma AnswerExpires(s: State, ts: octet)
    requires s.mode == AnswerDataRequest && s.busy && Timer(s) == REPLY_DELAY
    ensures
      var s' := Step(s, Visit, ts).0;
      s'.mode == Idle && !s'.busy && s'.tx == s.tx
  {
  }

  lemma WaitBroken(s: State, ts: octet)
    requires s.mode == WaitForReply && s.busy && s.invalid && Timer(s) == 0 && Budgeted(s)
    ensures
      var s' := Step(s, Visit, ts).0;
      s'.mode == DoneWithToken && s'.busy && s'.tx == s.tx && Budgeted(s')
  {
  }

  lemma DoneMode(s: State, ts: octet)
    requires s.mode == DoneWithToken && Budgeted(s)
    ensures
      var p := DonePass(s, ts);
      if p.again then p.s.mode == UseToken else p.s.mode == PollForMaster || p.s.mode == PassToken
  {
    hide Next;
  }

  lemma DoneLeaves(s: State, ts: octet)
    requires s.mode == DoneWithToken && s.busy && Budgeted(s)
    ensures
      var s' := Step(s, Visit, ts).0;
      && s'.tx == s.tx && Budgeted(s')
      && (if s'.busy then s'.mode == UseToken else s'.mode == PollForMaster || s'.mode == PassToken)
  {
    hide DonePass, Rank;
    PassSound(s, ts);
    DoneMode(s, ts);
  }

  function Distance(m: Mode): nat
  {
    match m
    case PollForMaster => 1
    case AnswerDataRequest => 1
    case WaitForReply => 2
    case DoneWithToken => 2
    case _ => 0
  }

  /** The reception that sets a waiting node going. */
  function Prompt(s: State, ts: octet): (Reception, nat)
  {
    match s.mode
    case AnswerDataRequest => (Timeout, s.silence + REPLY_DELAY)
    case UseToken => (Timeout, 0)
    case WaitForReply => (SyncError, 0)
    case DoneWithToken => (SyncError, 0)
    case _ => (TokenFor(ts), 0)
  }

  lemma Prompted(s: State, ts: octet)
    requires Budgeted(s) && !s.busy
    ensures
      var (r, now) := Prompt(s, ts);
      var s' := Step(s, Hear(r, now), ts).0;
      && s' == Receive(s, r, now) && s'.busy && s'.mode == s.mode && s'.tx == s.tx && Budgeted(s')
      && (r.Valid? ==> s'.valid && s'.typ == TOKEN && s'.dst == ts && s'.events > MIN_OCTETS)
      && (r == SyncError ==> s'.invalid)
      && (r != Timeout ==> Timer(s') == 0)
      && (s.mode == AnswerDataRequest ==> Timer(s') == REPLY_DELAY)
  {
  }

  /** After the prompt the node gives the flag back, or waits closer to it. */
  lemma Onward(s: State, ts: octet) returns (acts: seq<Action>)
    requires Budgeted(s) && Pending(s) && !s.busy && ts != BROADCAST
    ensures
      var s' := Run(s, acts, ts).0;
      s'.tx.flag || (Budgeted(s') && Pending(s') && !s'.busy && Distance(s'.mode) < Distance(s.mode))
  {
    hide Step, Run, Receive, Timer, Rank;
    var (r, now) := Prompt(s, ts);
    Prompted(s, ts);
    var s1 := Step(s, Hear(r, now), ts).0;
    var s2 := Step(s1, Visit, ts).0;
    var s3 := Step(s2, Visit, ts).0;
    var s4 := Step(s3, Visit, ts).0;
    ReachesIn(s, Hear(r, now), ts);
    match s.mode {
      case Idle =>
        IdleGetsToken(s1, ts);
        UseGivesFlag(s2, ts);
        acts := [Hear(r, now), Visit, Visit];
      case NoToken | PassToken =>
        LineInUse(s1, ts);
        SameTimer(s1);
        IdleGetsToken(s2, ts);
        UseGivesFlag(s3, ts);
        acts := [Hear(r, now), Visit, Visit, Visit];
      case UseToken =>
        UseGivesFlag(s1, ts);
        acts := [Hear(r, now), Visit];
      case PollForMaster =>
        PollDropped(s1, ts);
        acts := [Hear(r, now), Visit, Visit];
      case AnswerDataRequest =>
        AnswerExpires(s1, ts);
        acts := [Hear(r, now), Visit];
      case WaitForReply =>
        WaitBroken(s1, ts);
        DoneLeaves(s2, ts);
        acts := [Hear(r, now), Visit, Visit];
        if s3.busy {
          UseGivesFlag(s3, ts);
          acts := [Hear(r, now), Visit, Visit, Visit];
        }
      case DoneWithToken =>
        DoneLeaves(s1, ts);
        acts := [Hear(r, now), Visit];
        if s2.busy {
          UseGivesFlag(s2, ts);
          acts := [Hear(r, now), Visit, Visit];
        }
    }
  }

  lemma SameTimer(s: State)
    ensures Timer(s.(mode := Idle)) == Timer(s)
  {
  }

  /** A reception and one, two or three passes. */
  lemma ReachesIn(s: State, a: Action, ts: octet)
    ensures
      var s1 := Step(s, a, ts).0;
      var s2 := Step(s1, Visit, ts).0;
      var s3 := Step(s2, Visit, ts).0;
      && Run(s, [a, Visit], ts).0 == s2 && Run(s, [a, Visit, Visit], ts).0 == s3
      && Run(s, [a, Visit, Visit, Visit], ts).0 == Step(s3, Visit, ts).0
  {
    hide Step, Run;
    var s1 := Step(s, a, ts).0;
    var s2 := Step(s1, Visit, ts).0;
    var s3 := Step(s2, Visit, ts).0;
    NoSteps(s2, ts);
    NoSteps(s3, ts);
    NoSteps(Step(s3, Visit, ts).0, ts);
    FirstStep(s1, Visit, [], ts);
    FirstStep(s2, Visit, [], ts);
    FirstStep(s3, Visit, [], ts);
    FirstStep(s1, Visit, [Visit], ts);
    FirstStep(s2, Visit, [Visit], ts);
    FirstStep(s1, Visit, [Visit, Visit], ts);
    FirstStep(s, a, [Visit], ts);
    FirstStep(s, a, [Visit, Visit], ts);
    FirstStep(s, a, [Visit, Visit, Visit], ts);
    assert [Visit] + [] == [Visit] && [Visit] + [Visit] == [Visit, Visit];
    assert [Visit] + [Visit, Visit] == [Visit, Visit, Visit];
    assert [a] + [Visit] == [a, Visit] && [a] + [Visit, Visit] == [a, Visit, Visit];
    assert [a] + [Visit, Visit, Visit] == [a, Visit, Visit, Visit];
  }

  lemma NoSteps(s: State, ts: octet)
    ensures Run(s, [], ts) == (s, [])
  {
  }

  lemma {:induction false} FlagComesBack(s: State, ts: octet) returns (acts: seq<Action>)
    requires Budgeted(s) && Pending(s) && !s.busy && ts != BROADCAST
    ensures Run(s, acts, ts).0.tx.flag
    decreases Distance(s.mode)
  {
    hide Run, Budgeted, Pending, Distance;
    acts := Onward(s, ts);
    var s' := Run(s, acts, ts).0;
    if !s'.tx.flag {
      var more := FlagComesBack(s', ts);
      RunAppend(s, acts, more, ts);
      acts := acts + more;
    }
  }

  // ----- What decides it -----

  ghost predicate CanQueueAgain(s: State, ts: octet)
  {
    exists acts :: Run(s, acts, ts).0.tx.flag
  }

  lemma {:induction false} VisitsPending(s: State, n: nat, ts: octet)
    requires Pending(s)
    ensures Pending(Run(s, seq(n, _ => Visit), ts).0)
    decreases n
  {
    hide PassOf, Rank;
    if n > 0 {
      assert seq(n, _ => Visit) == [Visit] + seq(n - 1, _ => Visit);
      FirstStep(s, Visit, seq(n - 1, _ => Visit), ts);
      PassSound(s, ts);
      VisitsPending(Step(s, Visit, ts).0, n - 1, ts);
    } else {
      assert seq(n, _ => Visit) == [];
    }
  }

  lemma {:induction false} CountVisits(n: nat)
    ensures Visits(seq(n, _ => Visit)) == n
  {
    if n > 0 {
      assert seq(n, _ => Visit)[1..] == seq(n - 1, _ => Visit);
      CountVisits(n - 1);
    }
  }

  /** In every state a run reaches, the flag can come back if and only if it is there or
      something is queued. */
  lemma QueueGoesOnExactly(s: State, ts: octet)
    requires Budgeted(s) && ts != BROADCAST
    ensures CanQueueAgain(s, ts) <==> Pending(s)
  {
    hide Run, Budgeted;
    if Pending(s) {
      var visits := seq(5, _ => Visit);
      CountVisits(5);
      ChainEnds(s, visits, ts);
      VisitsPending(s, 5, ts);
      RunBudgeted(s, visits, ts);
      var more := FlagComesBack(Run(s, visits, ts).0, ts);
      RunAppend(s, visits, more, ts);
    } else {
      forall acts ensures !Run(s, acts, ts).0.tx.flag {
        BlockedForEver(s, acts, ts);
      }
    }
  }

  // ----- A station whose address is the broadcast address never holds the token -----

  predicate Outsider(s: State)
  {
    !s.sole && s.mode != UseToken && s.mode != DoneWithToken && s.mode != WaitForReply
  }

  lemma ListeningOutside(s: State)
    requires Outsider(s) && (s.mode == Idle || s.mode == AnswerDataRequest)
    ensures Outsider(PassOf(s, BROADCAST).s)
  {
    hide Timer;
  }

  lemma SpeakingOutside(s: State)
    requires Outsider(s) && s.mode != Idle && s.mode != AnswerDataRequest
    ensures Outsider(PassOf(s, BROADCAST).s)
  {
    hide Timer;
  }

  lemma {:induction false} OutsideForEver(s: State, acts: seq<Action>)
    requires Outsider(s)
    ensures Outsider(Run(s, acts, BROADCAST).0) && (!s.tx.flag ==> !Run(s, acts, BROADCAST).0.tx.flag)
    decreases |acts|
  {
    hide PassOf, Rank;
    if acts != [] {
      PassSound(s, BROADCAST);
      if s.mode == Idle || s.mode == AnswerDataRequest {
        ListeningOutside(s);
      } else {
        SpeakingOutside(s);
      }
      OutsideForEver(Step(s, acts[0], BROADCAST).0, acts[1..]);
    }
  }

  /** In every run: after a message is taken, another can be if and only if it is not empty and
      the station's address is not the broadcast address. */
  lemma EmptyMessageExactly(ts: octet, clk: nat, before: seq<Action>, len: nat)
    requires Run(Initial(ts, clk), before, ts).0.tx.flag
    ensures
      var s := Step(Run(Initial(ts, clk), before, ts).0, Queue(len), ts).0;
      CanQueueAgain(s, ts) <==> len > 0 && ts != BROADCAST
  {
    hide Run, Rank;
    InitialSafe(ts, clk);
    RunBudgeted(Initial(ts, clk), before, ts);
    RunTidy(Initial(ts, clk), before, ts);
    var s := Run(Initial(ts, clk), before, ts).0;
    var s' := Step(s, Queue(len), ts).0;
    StepBudgeted(s, Queue(len), ts);
    if ts == BROADCAST {
      OutsideForEver(Initial(ts, clk), before);
      forall acts ensures !Run(s', acts, ts).0.tx.flag {
        OutsideForEver(s', acts);
      }
    } else {
      QueueGoesOnExactly(s', ts);
    }
  }
}
