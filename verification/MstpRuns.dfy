/**
  The node in use: any sequence of receptions and offered messages, given to the program one
  after the other, is one of the runs of the state machine.
 */
module MstpRuns {
  import opened Octets
  import opened MstpFrame
  import opened Mstp
  import opened MstpNode

  datatype Call = Heard(r: Reception, now: nat) | Offered(len: nat)

  /** The action of the environment behind a call. */
  function ActionOf(c: Call): Action
  {
    match c
    case Heard(r, now) => Hear(r, now)
    case Offered(len) => Queue(len)
  }

  function ActionsOf(calls: seq<Call>): seq<Action>
  {
    if calls == [] then [] else [ActionOf(calls[0])] + ActionsOf(calls[1..])
  }

  /** The actions of a run that are not passes of the node itself. */
  function Outside(acts: seq<Action>): seq<Action>
  {
    if acts == [] then [] else (if acts[0] == Visit then [] else [acts[0]]) + Outside(acts[1..])
  }

  /** What one call does to the node. */
  function Play(s: State, c: Call, ts: octet): (r: (State, seq<Message>))
    requires !s.busy
    ensures !r.0.busy
  {
    match c
    case Heard(r, now) => var (s', out, _) := Chain(Receive(s, r, now), ts); (s', out)
    case Offered(len) => Step(s, Queue(len), ts)
  }

  function PlayAll(s: State, calls: seq<Call>, ts: octet): (State, seq<Message>)
    requires !s.busy
    decreases |calls|
  {
    if calls == [] then (s, [])
    else
      var (s1, out) := Play(s, calls[0], ts);
      var (s2, rest) := PlayAll(s1, calls[1..], ts);
      (s2, out + rest)
  }

  lemma {:induction false} OutsideAppend(a: seq<Action>, b: seq<Action>)
    ensures Outside(a + b) == Outside(a) + Outside(b)
  {
    if a == [] {
      assert a + b == b;
    } else {
      assert (a + b)[1..] == a[1..] + b;
      OutsideAppend(a[1..], b);
    }
  }

  lemma {:induction false} OutsideVisits(n: nat)
    ensures Outside(seq(n, _ => Visit)) == []
  {
    if n > 0 {
      assert seq(n, _ => Visit)[1..] == seq(n - 1, _ => Visit);
      OutsideVisits(n - 1);
    }
  }

  lemma OutsideOne(a: Action)
    requires a != Visit
    ensures Outside([a]) == [a]
  {
    assert [a][1..] == [];
  }

  /** A reception and the chain it sets off. */
  lemma HandledIsRun(s: State, r: Reception, now: nat, ts: octet)
    requires !s.busy
    ensures
      var (s', out, n) := Chain(Receive(s, r, now), ts);
      Run(s, [Hear(r, now)] + seq(n, _ => Visit), ts) == (s', out)
  {
    hide Chain, Receive, Run;
    var s1 := Receive(s, r, now);
    var n := Chain(s1, ts).2;
    FirstStep(s, Hear(r, now), seq(n, _ => Visit), ts);
    ChainIsRun(s1, ts);
    assert [] + Chain(s1, ts).1 == Chain(s1, ts).1;
  }

  lemma PlayIsRun(s: State, c: Call, ts: octet) returns (acts: seq<Action>)
    requires !s.busy
    ensures Run(s, acts, ts) == Play(s, c, ts) && Outside(acts) == [ActionOf(c)]
  {
    hide Step, Chain, Receive, Outside, Run;
    OutsideOne(ActionOf(c));
    match c {
      case Heard(r, now) =>
        var n := Chain(Receive(s, r, now), ts).2;
        HandledIsRun(s, r, now, ts);
        acts := [Hear(r, now)] + seq(n, _ => Visit);
        OutsideAppend([Hear(r, now)], seq(n, _ => Visit));
        OutsideVisits(n);
      case Offered(len) =>
        acts := [Queue(len)] + [];
        OneStep(s, Queue(len), ts);
        assert acts == [Queue(len)];
    }
  }

  lemma OneStep(s: State, a: Action, ts: octet)
    ensures Run(s, [a] + [], ts) == Step(s, a, ts)
  {
    hide Step;
    FirstStep(s, a, [], ts);
    assert Step(s, a, ts).1 + [] == Step(s, a, ts).1;
  }

  /** Any sequence of calls is a run whose outside actions are the calls, in order. */
  lemma {:induction false} PlayedIsRun(s: State, calls: seq<Call>, ts: octet) returns (acts: seq<Action>)
    requires !s.busy
    ensures Run(s, acts, ts) == PlayAll(s, calls, ts) && Outside(acts) == ActionsOf(calls)
    decreases |calls|
  {
    hide Play;
    acts := [];
    if calls != [] {
      hide Run, Outside;
      var first := PlayIsRun(s, calls[0], ts);
      var rest := PlayedIsRun(Play(s, calls[0], ts).0, calls[1..], ts);
      acts := first + rest;
      RunAppend(s, first, rest, ts);
      OutsideAppend(first, rest);
    }
  }

  lemma {:induction false} VisitsAside(acts: seq<Action>, a: Action)
    requires a in acts && a != Visit
    ensures a in Outside(acts)
  {
    if a != acts[0] {
      VisitsAside(acts[1..], a);
    }
  }

  lemma {:induction false} CallBehind(calls: seq<Call>, a: Action)
    requires a in ActionsOf(calls)
    ensures exists c :: c in calls && a == ActionOf(c)
  {
    if a == ActionOf(calls[0]) {
      assert calls[0] in calls;
    } else {
      CallBehind(calls[1..], a);
    }
  }

  /** No call carries a frame from this node's own address. */
  predicate FromOthers(calls: seq<Call>, ts: octet)
  {
    forall c :: c in calls && c.Heard? && c.r.Valid? ==> c.r.frame.src != ts
  }

  /** In use, no station but station 0 ever sends the token to itself, whatever is queued and
      whatever it hears from others. */
  lemma InUseSafe(ts: octet, clk: nat, calls: seq<Call>)
    requires ts != 0 && FromOthers(calls, ts)
    ensures !SelfToken(PlayAll(Initial(ts, clk), calls, ts).1, ts)
  {
    hide Run, PlayAll, SelfToken, Outside, ActionsOf;
    var acts := PlayedIsRun(Initial(ts, clk), calls, ts);
    InitialSafe(ts, clk);
    forall a | a in acts ensures Unlabelled(a, ts) {
      if a != Visit {
        VisitsAside(acts, a);
        CallBehind(calls, a);
      }
    }
    OtherStationsSafe(Initial(ts, clk), acts, ts);
  }

  /** Performs the calls on a node just started. */
  method PerformAll(node: Node, calls: seq<Call>)
    requires node.Valid()
    modifies node
    ensures node.Valid()
    ensures node.s == PlayAll(old(node.s), calls, node.ts).0
    ensures node.sent == old(node.sent) + PlayAll(old(node.s), calls, node.ts).1
  {
    hide Chain, Receive, PassOf, Budgeted;
    ghost var s0, before := node.s, node.sent;
    for i := 0 to |calls|
      invariant node.Valid()
      invariant PlayAll(s0, calls, node.ts).0 == PlayAll(node.s, calls[i..], node.ts).0
      invariant before + PlayAll(s0, calls, node.ts).1 == node.sent + PlayAll(node.s, calls[i..], node.ts).1
    {
      ghost var s1, sent1 := node.s, node.sent;
      match calls[i] {
        case Heard(r, now) => var _ := node.Handle(r, now);
        case Offered(len) => var _ := node.Enqueue(len);
      }
      assert sent1 + [] == sent1;
      assert calls[i..][0] == calls[i] && calls[i..][1..] == calls[i + 1..];
      assert node.s == Play(s1, calls[i], node.ts).0 && node.sent == sent1 + Play(s1, calls[i], node.ts).1;
      Regroup(sent1, Play(s1, calls[i], node.ts).1, PlayAll(node.s, calls[i + 1..], node.ts).1);
    }
  }

  lemma Regroup<T>(a: seq<T>, b: seq<T>, c: seq<T>)
    ensures a + (b + c) == (a + b) + c
  {
  }
}
