/**
  What one pass of the MS/TP node does, told by message and by field instead of by state of the
  switch: which event sends which message, both ways, and which events touch which variable. The
  laws of whole runs stand on these.
 */
module MstpLaws {
  import opened Octets
  import opened MstpFrame
  import opened Mstp

  // ----- Events -----

  predicate Addressed(s: State, ts: octet)
  {
    s.dst == ts || s.dst == 255
  }

  /** Listening, with the line in use. */
  predicate Listens(s: State)
  {
    s.mode == Idle && Timer(s) < 500
  }

  predicate LineLost(s: State)
  {
    s.mode == Idle && Timer(s) >= 500
  }

  /** A token, or the reply to a poll, for this node alone. */
  predicate TokenArrives(s: State, ts: octet)
  {
    Listens(s) && s.valid && s.dst == ts && ts != 255 && (s.typ == 0 || s.typ == 2)
  }

  predicate Polled(s: State, ts: octet)
  {
    Listens(s) && s.valid && Addressed(s, ts) && s.typ == 1
  }

  /** A request to all. One for this node alone is not answered by the switch. */
  predicate Asked(s: State)
  {
    Listens(s) && s.valid && s.dst == 255 && (s.typ == 5 || s.typ == 3)
  }

  predicate SendsQueued(s: State)
  {
    s.mode == UseToken && s.tx.len > 0
  }

  predicate NothingQueued(s: State)
  {
    s.mode == UseToken && s.tx.len == 0
  }

  predicate AwaitsReply(s: State)
  {
    (s.tx.typ == 5 && s.tx.dst != 255) || s.tx.typ == 3
  }

  predicate ReplyLate(s: State)
  {
    s.mode == WaitForReply && Timer(s) >= 255
  }

  predicate ReplySpoilt(s: State)
  {
    s.mode == WaitForReply && Timer(s) < 255 && s.invalid
  }

  predicate FrameInstead(s: State)
  {
    s.mode == WaitForReply && Timer(s) < 255 && !s.invalid && s.valid
  }

  predicate IsReply(s: State, ts: octet)
  {
    s.dst == ts && (s.typ == 7 || s.typ == 4 || s.typ == 6)
  }

  /** The token is to be given up. */
  predicate Finished(s: State)
  {
    s.mode == DoneWithToken && s.frames >= 1
  }

  predicate NoSuccessor(s: State, ts: octet)
  {
    Finished(s) && !s.sole && s.ns == ts
  }

  predicate PassesOn(s: State, ts: octet)
  {
    Finished(s) && !NoSuccessor(s, ts) && s.tokens < 49 && (s.sole ==> s.ns == Next(ts))
  }

  predicate AnotherTurn(s: State, ts: octet)
  {
    Finished(s) && s.tokens < 49 && s.sole && s.ns != Next(ts)
  }

  /** Time to look for new masters, and whether all stations before the next one have been asked. */
  predicate Maintains(s: State, ts: octet)
  {
    Finished(s) && !NoSuccessor(s, ts) && s.tokens >= 49
  }

  predicate AllAsked(s: State)
  {
    Next(s.ps) == s.ns
  }

  predicate TokenInUse(s: State)
  {
    s.mode == PassToken && Timer(s) <= 20 && s.events > 4
  }

  predicate TokenUnused(s: State)
  {
    s.mode == PassToken && Timer(s) > 20
  }

  /** The node's turn to make a new token: in its own slot, or after everybody's. */
  predicate Claims(s: State, ts: octet)
  {
    s.mode == NoToken && Timer(s) >= 500 + 10 * (ts as int) && (Timer(s) < 510 + 10 * (ts as int) || Timer(s) > 820)
  }

  predicate LineFound(s: State, ts: octet)
  {
    s.mode == NoToken && !Claims(s, ts) && s.events > 4
  }

  predicate TakesReply(s: State, ts: octet)
  {
    s.mode == PollForMaster && s.valid && s.dst == ts && s.typ == 2
  }

  predicate Interrupted(s: State, ts: octet)
  {
    s.mode == PollForMaster && s.valid && !TakesReply(s, ts)
  }

  predicate NoAnswer(s: State)
  {
    s.mode == PollForMaster && !s.valid && (Timer(s) >= 20 || s.invalid)
  }

  predicate SweepGoesOn(s: State, ts: octet)
  {
    NoAnswer(s) && !s.sole && s.ns == ts && Next(s.ps) != ts
  }

  predicate SweepEnds(s: State, ts: octet)
  {
    NoAnswer(s) && !s.sole && s.ns == ts && Next(s.ps) == ts
  }

  predicate AnswersNow(s: State)
  {
    s.mode == AnswerDataRequest && Timer(s) < 250 && s.tx.len > 0 && (s.tx.typ == 4 || s.tx.typ == 6 || s.tx.typ > 127)
  }

  predicate Postpones(s: State)
  {
    s.mode == AnswerDataRequest && Timer(s) >= 250
  }

  // ----- What a reception leaves -----

  /** The timer of silence counts the ticks since the line was last busy, over a wrap of the
      clock too. */
  lemma TimerExact(s: State, d: nat)
    requires d < 0x8000_0000 && s.silence < 0x1_0000_0000 && s.clk == (s.silence + d) % 0x1_0000_0000
    ensures Timer(s) == d
  {
  }

  /** A waiting node that hears something starts a chain: a frame is put where the switch looks for
      it, anything but a silence restarts the timer, and every octet counts, those of the last
      frame again for a silence. */
  lemma HeardExactly(s: State, r: Reception, now: nat, ts: octet)
    requires !s.busy
    ensures
      var (s', out) := Step(s, Hear(r, now), ts);
      && out == [] && s'.busy && s'.clk == now && s'.tx == s.tx && s'.mode == s.mode && (s'.ns, s'.ps, s'.sole) == (s.ns, s.ps, s.sole)
      && (s'.frames, s'.retries, s'.tokens) == (s.frames, s.retries, s.tokens)
      && s'.events == s.events + s'.off
      && (if r.Valid? then (s'.typ, s'.dst, s'.src) == (r.frame.typ, r.frame.dst, r.frame.src) && s'.off == |r.frame.pdu| + 8
          else (s'.typ, s'.dst, s'.src) == (s.typ, s.dst, s.src) &&
               s'.off == if r == Timeout then s.off else if r == DataError then 8 else 0)
      && s'.valid == (s.valid || r.Valid?) && s'.invalid == (s.invalid || !(r.Valid? || r.Timeout?))
      && s'.silence == (if r.Timeout? then s.silence else now)
  {
  }

  // ----- Messages -----

  /** A token is owed: to be passed on, tried again, taken up after a poll in vain, or passed to
      the station that has just answered. */
  predicate TokenOwed(s: State, ts: octet)
  {
    PassesOn(s, ts) || (TokenUnused(s) && s.retries < 1) || (NoAnswer(s) && !s.sole && s.ns != ts) || TakesReply(s, ts)
  }

  /** The next station has not used the token it was passed twice. */
  predicate SuccessorLost(s: State)
  {
    TokenUnused(s) && s.retries >= 1
  }

  /** Whom a poll goes to: the first station after this one, the one after a station that is lost
      or known, the known one itself, or the one after the last one polled. */
  predicate FirstPoll(s: State, ts: octet)
  {
    NoSuccessor(s, ts) || Claims(s, ts)
  }

  predicate PollPast(s: State, ts: octet)
  {
    SuccessorLost(s) || (Maintains(s, ts) && AllAsked(s) && s.sole)
  }

  predicate PollKnown(s: State, ts: octet)
  {
    Maintains(s, ts) && AllAsked(s) && !s.sole
  }

  predicate NextPoll(s: State, ts: octet)
  {
    (Maintains(s, ts) && !AllAsked(s)) || SweepGoesOn(s, ts)
  }

  predicate PollOwed(s: State, ts: octet)
  {
    FirstPoll(s, ts) || PollPast(s, ts) || PollKnown(s, ts) || NextPoll(s, ts)
  }

  function PollTo(s: State, ts: octet): octet
  {
    if FirstPoll(s, ts) then Next(ts) else if PollPast(s, ts) then Next(s.ns)
    else if PollKnown(s, ts) then s.ns else Next(s.ps)
  }

  predicate Owed(s: State, ts: octet, m: Message)
  {
    || (m == Message(0, if TakesReply(s, ts) then s.src else s.ns, ts, false) && TokenOwed(s, ts))
    || (m == Message(1, PollTo(s, ts), ts, false) && PollOwed(s, ts))
    || (m == Message(2, s.src, s.dst, false) && Polled(s, ts))
    || (m == Message(7, s.src, ts, false) && Postpones(s))
    || (m == Message(s.tx.typ, s.tx.dst, ts, true) && (SendsQueued(s) || AnswersNow(s)))
  }

  ghost predicate SendsOwed(s: State, ts: octet, p: Pass)
  {
    |p.sent| <= 1 && forall m :: m in p.sent <==> Owed(s, ts, m)
  }

  // ----- Fields -----

  /** The next station is the one whose reply was taken last, until it is lost or a new token made;
      the poll station is the last one polled for a new master; sole is the master nobody answered. */
  ghost predicate StationsAfter(s: State, ts: octet, p: Pass)
  {
    && p.s.ns == (if TakesReply(s, ts) then s.src
                  else if Claims(s, ts) || PollPast(s, ts) then ts
                  else s.ns)
    && p.s.ps == (if TakesReply(s, ts) || PollKnown(s, ts) then ts
                  else if PollOwed(s, ts) then PollTo(s, ts)
                  else s.ps)
    && p.s.sole == ((s.sole && !TakesReply(s, ts) && !TokenArrives(s, ts)) || SweepEnds(s, ts))
  }

  ghost predicate CountersAfter(s: State, ts: octet, p: Pass)
  {
    && p.s.tokens == (if PassesOn(s, ts) then s.tokens + 1
                      else if AnotherTurn(s, ts) then 50
                      else if Maintains(s, ts) && AllAsked(s) then 1
                      else if TakesReply(s, ts) || Claims(s, ts) || SuccessorLost(s) then 0
                      else s.tokens)
    && p.s.retries == (if TokenUnused(s) && s.retries < 1 then s.retries + 1
                       else if TokenOwed(s, ts) || PollOwed(s, ts) then 0
                       else s.retries)
    && p.s.frames == (if SendsQueued(s) then s.frames + 1
                      else if NothingQueued(s) || ReplyLate(s) then 1
                      else if TokenArrives(s, ts) || AnotherTurn(s, ts) || (NoAnswer(s) && s.sole) || SweepEnds(s, ts) then 0
                      else s.frames)
    && p.s.events == (if LineLost(s) || TokenOwed(s, ts) || PollKnown(s, ts) then 0 else s.events)
  }

  /** What was received is used up, except by a request to be answered later. */
  ghost predicate LineAfter(s: State, ts: octet, p: Pass)
  {
    && p.s.valid == (s.valid && !((s.mode == Idle && !Asked(s)) || FrameInstead(s) || s.mode == PollForMaster
                                  || AnswersNow(s) || Postpones(s)))
    && p.s.invalid == (s.invalid && !(s.mode == Idle || ReplySpoilt(s) || NoAnswer(s)))
    && (p.s.typ, p.s.dst) == (if SendsQueued(s) then (s.tx.typ, s.tx.dst) else (s.typ, s.dst))
    && p.s.src == s.src && p.s.clk == s.clk && p.s.off == s.off && p.s.busy == s.busy
    && p.s.silence == (if p.sent != [] || (NoAnswer(s) && s.sole) then s.clk else s.silence)
    && p.s.tx == (if SendsQueued(s) then s.tx.(len := 0, flag := true) else s.tx)
  }

  /** What the pass leaves the node doing, and whether the switch is passed again: exactly when it
      went on without a message, a request to answer, or the wait of a sole master. */
  ghost predicate ModeAfter(s: State, ts: octet, p: Pass)
  {
    && p.s.mode == (if LineLost(s) then NoToken
                    else if TokenArrives(s, ts) || AnotherTurn(s, ts) || (NoAnswer(s) && s.sole) || SweepEnds(s, ts)
                            || (s.mode == DoneWithToken && s.frames < 1) then UseToken
                    else if Asked(s) then AnswerDataRequest
                    else if SendsQueued(s) && AwaitsReply(s) then WaitForReply
                    else if SendsQueued(s) || NothingQueued(s) || ReplyLate(s) || ReplySpoilt(s)
                            || (FrameInstead(s) && IsReply(s, ts)) then DoneWithToken
                    else if FrameInstead(s) || TokenInUse(s) || LineFound(s, ts) || Interrupted(s, ts)
                            || AnswersNow(s) || Postpones(s) then Idle
                    else if TokenOwed(s, ts) || PollKnown(s, ts) then PassToken
                    else if PollOwed(s, ts) then PollForMaster
                    else s.mode)
    && (p.again <==> p.s.mode != s.mode && p.sent == [] && !Asked(s) && !(NoAnswer(s) && s.sole))
  }

  ghost predicate Lawful(s: State, ts: octet, p: Pass)
  {
    SendsOwed(s, ts, p) && StationsAfter(s, ts, p) && CountersAfter(s, ts, p) && LineAfter(s, ts, p) && ModeAfter(s, ts, p)
  }

  lemma IdleSends(s: State, ts: octet)
    requires s.mode == Idle
    ensures SendsOwed(s, ts, IdlePass(s, ts))
  {
    hide Timer, Next;
  }

  lemma IdleCounts(s: State, ts: octet)
    requires s.mode == Idle
    ensures StationsAfter(s, ts, IdlePass(s, ts)) && CountersAfter(s, ts, IdlePass(s, ts))
  {
    hide Timer, Next;
  }

  lemma IdleLawful(s: State, ts: octet)
    requires s.mode == Idle
    ensures Lawful(s, ts, IdlePass(s, ts))
  {
    hide Timer, Next, SendsOwed, StationsAfter, CountersAfter;
    IdleSends(s, ts);
    IdleCounts(s, ts);
  }

  lemma UseLawful(s: State, ts: octet)
    requires s.mode == UseToken
    ensures Lawful(s, ts, UsePass(s, ts))
  {
    hide Timer, Next;
  }

  lemma WaitCounts(s: State, ts: octet)
    requires s.mode == WaitForReply
    ensures StationsAfter(s, ts, WaitPass(s, ts)) && CountersAfter(s, ts, WaitPass(s, ts))
  {
    hide Timer, Next;
  }

  lemma WaitLawful(s: State, ts: octet)
    requires s.mode == WaitForReply
    ensures Lawful(s, ts, WaitPass(s, ts))
  {
    hide Timer, Next, StationsAfter, CountersAfter;
    WaitCounts(s, ts);
  }

  lemma DoneSends(s: State, ts: octet)
    requires s.mode == DoneWithToken
    ensures SendsOwed(s, ts, DonePass(s, ts))
  {
    hide Timer, Next;
  }

  lemma DoneStations(s: State, ts: octet)
    requires s.mode == DoneWithToken
    ensures StationsAfter(s, ts, DonePass(s, ts))
  {
    hide Timer, Next;
  }

  lemma DoneCounts(s: State, ts: octet)
    requires s.mode == DoneWithToken
    ensures CountersAfter(s, ts, DonePass(s, ts))
  {
    hide Timer, Next;
  }

  lemma DoneLawful(s: State, ts: octet)
    requires s.mode == DoneWithToken
    ensures Lawful(s, ts, DonePass(s, ts))
  {
    hide Timer, Next, SendsOwed, StationsAfter, CountersAfter;
    DoneSends(s, ts);
    DoneStations(s, ts);
    DoneCounts(s, ts);
  }

  lemma PassTokenSends(s: State, ts: octet)
    requires s.mode == PassToken
    ensures SendsOwed(s, ts, PassTokenPass(s, ts))
  {
    hide Timer, Next;
  }

  lemma PassTokenCounts(s: State, ts: octet)
    requires s.mode == PassToken
    ensures StationsAfter(s, ts, PassTokenPass(s, ts)) && CountersAfter(s, ts, PassTokenPass(s, ts))
  {
    hide Timer, Next;
  }

  lemma PassTokenLawful(s: State, ts: octet)
    requires s.mode == PassToken
    ensures Lawful(s, ts, PassTokenPass(s, ts))
  {
    hide Timer, Next, SendsOwed, StationsAfter, CountersAfter;
    PassTokenSends(s, ts);
    PassTokenCounts(s, ts);
  }

  lemma NoTokenSends(s: State, ts: octet)
    requires s.mode == NoToken
    ensures SendsOwed(s, ts, NoTokenPass(s, ts))
  {
    hide Timer, Next;
  }

  lemma NoTokenCounts(s: State, ts: octet)
    requires s.mode == NoToken
    ensures StationsAfter(s, ts, NoTokenPass(s, ts)) && CountersAfter(s, ts, NoTokenPass(s, ts))
  {
    hide Timer, Next;
  }

  lemma NoTokenLawful(s: State, ts: octet)
    requires s.mode == NoToken
    ensures Lawful(s, ts, NoTokenPass(s, ts))
  {
    hide Timer, Next, SendsOwed, StationsAfter, CountersAfter;
    NoTokenSends(s, ts);
    NoTokenCounts(s, ts);
  }

  lemma PollSends(s: State, ts: octet)
    requires s.mode == PollForMaster
    ensures SendsOwed(s, ts, PollPass(s, ts))
  {
    hide Timer, Next;
  }

  lemma PollCounts(s: State, ts: octet)
    requires s.mode == PollForMaster
    ensures StationsAfter(s, ts, PollPass(s, ts)) && CountersAfter(s, ts, PollPass(s, ts))
  {
    hide Timer, Next;
  }

  lemma PollLawful(s: State, ts: octet)
    requires s.mode == PollForMaster
    ensures Lawful(s, ts, PollPass(s, ts))
  {
    hide Timer, Next, SendsOwed, StationsAfter, CountersAfter;
    PollSends(s, ts);
    PollCounts(s, ts);
  }

  lemma AnswerLawful(s: State, ts: octet)
    requires s.mode == AnswerDataRequest
    ensures Lawful(s, ts, AnswerPass(s, ts))
  {
    hide Timer, Next;
  }

  /** Every pass through the switch obeys the laws. */
  lemma PassLawful(s: State, ts: octet)
    ensures Lawful(s, ts, PassOf(s, ts))
  {
    hide Lawful, IdlePass, UsePass, WaitPass, DonePass, PassTokenPass, NoTokenPass, PollPass, AnswerPass;
    match s.mode {
      case Idle => IdleLawful(s, ts);
      case UseToken => UseLawful(s, ts);
      case WaitForReply => WaitLawful(s, ts);
      case DoneWithToken => DoneLawful(s, ts);
      case PassToken => PassTokenLawful(s, ts);
      case NoToken => NoTokenLawful(s, ts);
      case PollForMaster => PollLawful(s, ts);
      case AnswerDataRequest => AnswerLawful(s, ts);
    }
  }
}
