/**
  The node as a member of the ring: where the tokens it sends go, how often it looks for new
  masters, how often it tries a station that is silent, and what it owes a station that calls.
 */
module MstpRing {
  import opened Octets
  import opened Options
  import opened MstpFrame
  import opened Mstp
  import opened MstpLaws

  /** A token the node itself originates. */
  predicate IsToken(m: Message)
  {
    !m.data && m.typ == 0
  }

  predicate IsPoll(m: Message)
  {
    !m.data && m.typ == 1
  }

  /** The messages of one step are those owed, if the step is a pass. */
  lemma StepSends(s: State, a: Action, ts: octet, m: Message)
    ensures m in Step(s, a, ts).1 <==> a == Visit && s.busy && Owed(s, ts, m)
  {
    hide PassOf, Owed;
    PassLawful(s, ts);
  }

  // ----- Where tokens go -----

  predicate ReplyTaken(s: State, a: Action, ts: octet)
  {
    a == Visit && s.busy && TakesReply(s, ts)
  }

  /** The station whose reply to a poll the node took last. */
  function LastReply(s: State, acts: seq<Action>, ts: octet, before: Option<octet>): Option<octet>
    decreases |acts|
  {
    if acts == [] then before
    else LastReply(Step(s, acts[0], ts).0, acts[1..], ts, if ReplyTaken(s, acts[0], ts) then Some(s.src) else before)
  }

  ghost predicate Follows(s: State, ts: octet, reply: Option<octet>)
  {
    && (s.ns != ts || s.mode == PassToken ==> reply == Some(s.ns))
    && (s.sole ==> s.ns == ts)
  }

  lemma FollowsVisit(s: State, ts: octet, reply: Option<octet>)
    requires Follows(s, ts, reply)
    ensures Follows(PassOf(s, ts).s, ts, if TakesReply(s, ts) then Some(s.src) else reply)
  {
    hide PassOf, Timer, Next, SendsOwed, CountersAfter, LineAfter;
    PassLawful(s, ts);
    NextDiffers(ts);
  }

  lemma FollowsStep(s: State, a: Action, ts: octet, reply: Option<octet>)
    requires Follows(s, ts, reply)
    ensures Follows(Step(s, a, ts).0, ts, if ReplyTaken(s, a, ts) then Some(s.src) else reply)
  {
    hide PassOf, TakesReply;
    FollowsVisit(s, ts, reply);
  }

  lemma TokenFollows(s: State, a: Action, ts: octet, reply: Option<octet>, m: Message)
    requires Follows(s, ts, reply) && m in Step(s, a, ts).1 && IsToken(m)
    ensures m.src == ts && (if ReplyTaken(s, a, ts) then Some(s.src) else reply) == Some(m.dst)
  {
    hide Step, Timer, Next;
    StepSends(s, a, ts, m);
    NextDiffers(ts);
  }

  lemma {:induction false} FollowsRun(s: State, acts: seq<Action>, ts: octet, reply: Option<octet>)
    requires Follows(s, ts, reply)
    ensures Follows(Run(s, acts, ts).0, ts, LastReply(s, acts, ts, reply))
    decreases |acts|
  {
    hide Step, Follows, ReplyTaken;
    if acts != [] {
      FollowsStep(s, acts[0], ts, reply);
      FollowsRun(Step(s, acts[0], ts).0, acts[1..], ts, if ReplyTaken(s, acts[0], ts) then Some(s.src) else reply);
    }
  }

  lemma {:induction false} LastReplyNext(s: State, acts: seq<Action>, a: Action, ts: octet, reply: Option<octet>)
    ensures
      var s' := Run(s, acts, ts).0;
      LastReply(s, acts + [a], ts, reply) == if ReplyTaken(s', a, ts) then Some(s'.src) else LastReply(s, acts, ts, reply)
    decreases |acts|
  {
    hide Step, ReplyTaken;
    if acts == [] {
      assert ([] + [a])[0] == a && ([] + [a])[1..] == [];
    } else {
      assert (acts + [a])[0] == acts[0] && (acts + [a])[1..] == acts[1..] + [a];
      LastReplyNext(Step(s, acts[0], ts).0, acts[1..], a, ts, if ReplyTaken(s, acts[0], ts) then Some(s.src) else reply);
    }
  }

  /** In every run, whatever the node hears and whatever is queued: every token it originates goes
      out under its own address to the station whose reply to a poll it took last, and none goes
      out before the first such reply. */
  lemma TokenToSuccessor(ts: octet, clk: nat, before: seq<Action>, a: Action, m: Message)
    requires m in Step(Run(Initial(ts, clk), before, ts).0, a, ts).1 && IsToken(m)
    ensures m.src == ts && LastReply(Initial(ts, clk), before + [a], ts, None) == Some(m.dst)
  {
    hide Step, Run, LastReply, ReplyTaken;
    FollowsRun(Initial(ts, clk), before, ts, None);
    LastReplyNext(Initial(ts, clk), before, a, ts, None);
    TokenFollows(Run(Initial(ts, clk), before, ts).0, a, ts, LastReply(Initial(ts, clk), before, ts, None), m);
  }

  /** A node done with the token that knows its successor sends it the token, or, the fiftieth
      time, a poll to somebody. */
  lemma HolderPassesOn(s: State, ts: octet)
    requires s.busy && s.mode == DoneWithToken && s.frames >= 1 && !s.sole && s.ns != ts
    ensures
      var (s', out) := Step(s, Visit, ts);
      if s.tokens < 49 then out == [Message(0, s.ns, ts, false)] && s'.mode == PassToken && s'.tokens == s.tokens + 1
      else |out| == 1 && IsPoll(out[0]) && out[0].src == ts &&
           out[0].dst == if Next(s.ps) == s.ns then s.ns else Next(s.ps)
  {
    hide PassOf, Next, Timer;
    PassLawful(s, ts);
    var p := PassOf(s, ts);
    var m := if s.tokens < 49 then Message(0, s.ns, ts, false) else Message(1, PollTo(s, ts), ts, false);
    assert m in p.sent;
    assert p.sent[0] == m;
  }

  // ----- How often it looks for new masters -----

  /** Tokens passed on from the end of a turn since a poll last went out. */
  function PassedSince(s: State, acts: seq<Action>, ts: octet, n: nat): nat
    decreases |acts|
  {
    if acts == [] then n else PassedSince(Step(s, acts[0], ts).0, acts[1..], ts, Passed(s, acts[0], ts, n))
  }

  function Passed(s: State, a: Action, ts: octet, n: nat): nat
  {
    var out := Step(s, a, ts).1;
    if exists m :: m in out && IsPoll(m) then 0
    else if s.mode == DoneWithToken && exists m :: m in out && IsToken(m) then n + 1
    else n
  }

  ghost predicate Paced(s: State, n: nat)
  {
    n <= s.tokens && n <= 49 && (s.mode == PollForMaster ==> n == 0)
  }

  lemma PacedStep(s: State, a: Action, ts: octet, n: nat)
    requires Paced(s, n)
    ensures Paced(Step(s, a, ts).0, Passed(s, a, ts, n))
  {
    hide PassOf, Timer, Next, StationsAfter, LineAfter;
    var out := Step(s, a, ts).1;
    if a == Visit && s.busy {
      PassLawful(s, ts);
      assert PollOwed(s, ts) ==> Message(1, PollTo(s, ts), ts, false) in out;
      assert forall m :: m in out && IsPoll(m) ==> PollOwed(s, ts);
      assert forall m :: m in out && IsToken(m) ==> TokenOwed(s, ts);
    }
  }

  lemma {:induction false} PacedRun(s: State, acts: seq<Action>, ts: octet, n: nat)
    requires Paced(s, n)
    ensures Paced(Run(s, acts, ts).0, PassedSince(s, acts, ts, n))
    decreases |acts|
  {
    hide Step, Paced, Passed;
    if acts != [] {
      PacedStep(s, acts[0], ts, n);
      PacedRun(Step(s, acts[0], ts).0, acts[1..], ts, Passed(s, acts[0], ts, n));
    }
  }

  /** In every run at most 49 tokens are passed on between two polls. */
  lemma LooksForMasters(ts: octet, clk: nat, acts: seq<Action>)
    ensures PassedSince(Initial(ts, clk), acts, ts, 0) <= 49
  {
    hide Step, Run, PassedSince;
    PacedRun(Initial(ts, clk), acts, ts, 0);
  }

  // ----- How often it tries a silent station -----

  /** The run never leaves the wait for the token to be used. */
  ghost predicate Watching(s: State, acts: seq<Action>, ts: octet)
    decreases |acts|
  {
    s.mode == PassToken && (acts == [] || Watching(Step(s, acts[0], ts).0, acts[1..], ts))
  }

  function Tokens(out: seq<Message>): nat
  {
    if out == [] then 0 else (if IsToken(out[0]) then 1 else 0) + Tokens(out[1..])
  }

  lemma {:induction false} TokensAppend(a: seq<Message>, b: seq<Message>)
    ensures Tokens(a + b) == Tokens(a) + Tokens(b)
  {
    if a == [] {
      assert a + b == b;
    } else {
      assert (a + b)[1..] == a[1..] + b;
      TokensAppend(a[1..], b);
    }
  }

  lemma TriesOnce(s: State, a: Action, ts: octet)
    requires s.mode == PassToken && Step(s, a, ts).0.mode == PassToken && s.retries <= 1
    ensures
      var (s', out) := Step(s, a, ts);
      s'.retries == s.retries + Tokens(out) <= 1
  {
    hide PassOf, Timer, Next, LineAfter, StationsAfter;
    var out := Step(s, a, ts).1;
    if a == Visit && s.busy {
      PassLawful(s, ts);
      if TokenOwed(s, ts) {
        assert Message(0, s.ns, ts, false) in out;
        assert out == [Message(0, s.ns, ts, false)] && out[1..] == [];
      } else {
        assert forall m :: m in out ==> !IsToken(m);
        assert out == [] || (out == [out[0]] && out[0] in out && out[1..] == []);
      }
    }
  }

  /** While the node waits for its successor to use the token it sends the token again at most
      once, and exactly as often as its retry count says. */
  lemma {:induction false} TriedTwice(s: State, acts: seq<Action>, ts: octet)
    requires Watching(s, acts, ts) && s.retries <= 1
    ensures s.retries + Tokens(Run(s, acts, ts).1) == Run(s, acts, ts).0.retries <= 1
    decreases |acts|
  {
    hide Step;
    if acts != [] {
      TriesOnce(s, acts[0], ts);
      TriedTwice(Step(s, acts[0], ts).0, acts[1..], ts);
      TokensAppend(Step(s, acts[0], ts).1, Run(Step(s, acts[0], ts).0, acts[1..], ts).1);
    }
  }

  /** Then it gives the station up: it forgets it and polls the address after it. */
  lemma GivesUpSuccessor(s: State, ts: octet)
    requires s.busy && s.mode == PassToken && s.retries >= 1 && Timer(s) > 20
    ensures
      var (s', out) := Step(s, Visit, ts);
      out == [Message(1, Next(s.ns), ts, false)] && s'.mode == PollForMaster && s'.ns == ts && s'.ps == Next(s.ns)
  {
    hide PassOf, Next, Timer;
    PassLawful(s, ts);
    assert Message(1, Next(s.ns), ts, false) in PassOf(s, ts).sent;
  }

  // ----- From a frame on the line to the answer -----

  lemma FreshTimer(s: State, f: Frame, now: nat)
    ensures Timer(Receive(s, Valid(f), now)) == 0
  {
  }

  /** A listening node answers a poll for it, or for all, at once, and goes on listening. */
  lemma PollAnswered(s: State, f: Frame, now: nat, ts: octet)
    requires !s.busy && s.mode == Idle && f.typ == 1 && (f.dst == ts || f.dst == 255)
    ensures
      var (s', out, _) := Chain(Receive(s, Valid(f), now), ts);
      out == [Message(2, f.src, f.dst, false)] && s'.mode == Idle && !s'.valid
  {
    hide PassOf, Timer, Next, Rank;
    var s1 := Receive(s, Valid(f), now);
    FreshTimer(s, f, now);
    PassLawful(s1, ts);
    assert Message(2, f.src, f.dst, false) in PassOf(s1, ts).sent;
  }

  /** A polling node passes the token to the station that answers and makes it its successor. */
  lemma ReplyAccepted(s: State, f: Frame, now: nat, ts: octet)
    requires !s.busy && s.mode == PollForMaster && f.typ == 2 && f.dst == ts
    ensures
      var (s', out, _) := Chain(Receive(s, Valid(f), now), ts);
      out == [Message(0, f.src, ts, false)] && s'.mode == PassToken && s'.ns == f.src && !s'.sole
  {
    hide PassOf, Timer, Next, Rank;
    var s1 := Receive(s, Valid(f), now);
    PassLawful(s1, ts);
    assert Message(0, f.src, ts, false) in PassOf(s1, ts).sent;
  }

  /** A listening node that is passed the token, or a reply, sends what is queued under its label. */
  lemma TokenUsed(s: State, f: Frame, now: nat, ts: octet)
    requires !s.busy && s.mode == Idle && (f.typ == 0 || f.typ == 2) && f.dst == ts != 255 && s.tx.len > 0
    ensures
      var (s', out, _) := Chain(Receive(s, Valid(f), now), ts);
      out == [Message(s.tx.typ, s.tx.dst, ts, true)] && s'.tx.len == 0 && s'.tx.flag
  {
    hide PassOf, Timer, Next, Rank;
    var s1 := Receive(s, Valid(f), now);
    FreshTimer(s, f, now);
    PassLawful(s1, ts);
    var s2 := PassOf(s1, ts).s;
    NothingSent(PassOf(s1, ts).sent);
    PassLawful(s2, ts);
    assert Message(s.tx.typ, s.tx.dst, ts, true) in PassOf(s2, ts).sent;
    assert PassOf(s2, ts).sent == [Message(s.tx.typ, s.tx.dst, ts, true)];
    assert [] + PassOf(s2, ts).sent == PassOf(s2, ts).sent;
  }

  lemma NothingSent(out: seq<Message>)
    ensures out != [] ==> exists m :: m in out
  {
    if out != [] {
      assert out[0] in out;
    }
  }

  lemma ChainParts(s: State, ts: octet)
    requires s.busy && PassOf(s, ts).s.busy
    ensures
      var p := PassOf(s, ts);
      if p.again then Chain(s, ts).0 == Chain(p.s, ts).0 && Chain(s, ts).1 == p.sent + Chain(p.s, ts).1
      else Chain(s, ts).0 == p.s.(busy := false) && Chain(s, ts).1 == p.sent
  {
    hide PassOf, Rank;
  }

  /** With nothing queued it passes the token straight on to its successor. */
  lemma TokenPassedOn(s: State, f: Frame, now: nat, ts: octet)
    requires !s.busy && s.mode == Idle && (f.typ == 0 || f.typ == 2) && f.dst == ts != 255
    requires s.tx.len == 0 && s.ns != ts && s.tokens < 49
    ensures
      var (s', out, _) := Chain(Receive(s, Valid(f), now), ts);
      out == [Message(0, s.ns, ts, false)] && s'.mode == PassToken && s'.tokens == s.tokens + 1
  {
    hide PassOf, Timer, Next, Rank, Chain;
    var s1 := Receive(s, Valid(f), now);
    FreshTimer(s, f, now);
    PassLawful(s1, ts);
    var s2 := PassOf(s1, ts).s;
    NothingSent(PassOf(s1, ts).sent);
    ChainParts(s1, ts);
    StraightOn(s2, ts);
    assert Chain(s1, ts).1 == [] + Chain(s2, ts).1 == Chain(s2, ts).1;
  }

  lemma StraightOn(s: State, ts: octet)
    requires s.busy && s.mode == UseToken && s.tx.len == 0 && s.ns != ts && !s.sole && s.tokens < 49
    ensures
      var (s', out, _) := Chain(s, ts);
      out == [Message(0, s.ns, ts, false)] && s'.mode == PassToken && s'.tokens == s.tokens + 1
  {
    hide PassOf, Timer, Next, Rank, Chain;
    PassLawful(s, ts);
    var s1 := PassOf(s, ts).s;
    NothingSent(PassOf(s, ts).sent);
    ChainParts(s, ts);
    HolderPassesOn(s1, ts);
    PassLawful(s1, ts);
    ChainParts(s1, ts);
  }
}
