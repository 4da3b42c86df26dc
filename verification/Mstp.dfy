/**
  The MS/TP master node (clause 9.5.6 of ANSI/ASHRAE 135, as the program has it): one node
  against an environment that chooses every frame, silence, clock reading and queued message.
  A step is a reception, one pass through the switch over the state, or another thread
  queueing a message; the passes after one reception form a chain that other threads can
  interrupt anywhere.
 */
module Mstp {
  import opened Octets
  import opened MstpFrame

  const MAX_INFO_FRAMES: nat := 1
  const MAX_MASTER: int := 31
  const POLL_INTERVAL: nat := 50
  const RETRY_TOKEN: nat := 1
  const MIN_OCTETS: nat := 4

  const NO_TOKEN_TIME := 500
  const REPLY_DELAY := 250
  const REPLY_TIMEOUT := 255
  const SLOT := 10
  const USAGE_TIMEOUT := 20

  const TOKEN: octet := 0
  const POLL_FOR_MASTER: octet := 1
  const REPLY_POLL_FOR_MASTER: octet := 2
  const TEST_REQUEST: octet := 3
  const TEST_RESPONSE: octet := 4
  const DATA_EXPECTING_REPLY: octet := 5
  const DATA_NOT_EXPECTING_REPLY: octet := 6
  const REPLY_POSTPONED: octet := 7

  const BROADCAST: octet := 255

  datatype Mode =
    | Idle
    | AnswerDataRequest
    | NoToken
    | PollForMaster
    | PassToken
    | UseToken
    | DoneWithToken
    | WaitForReply

  /** A frame put on the wire, by the quick sender or, with data, by the general one. */
  datatype Message = Message(typ: octet, dst: octet, src: octet, data: bool)

  /** The queued message and its label. A sender takes the flag before it looks for room; sending
      what is queued gives it back. */
  datatype Outbox = Outbox(len: nat, typ: octet, dst: octet, flag: bool)

  datatype State = State(
    mode: Mode,
    /** Next station, poll station. */
    ns: octet,
    ps: octet,
    sole: bool,
    frames: nat,
    retries: nat,
    events: nat,
    tokens: nat,
    /** Type and addresses of the last frame handled, and whether it waits to be handled. */
    typ: octet,
    dst: octet,
    src: octet,
    valid: bool,
    invalid: bool,
    /** Clock readings, 32 bits wide. */
    silence: nat,
    clk: nat,
    /** Octets counted by the last reception; a silent one leaves it alone. */
    off: nat,
    tx: Outbox,
    /** A chain of passes is under way. */
    busy: bool)

  /** A pass through the switch: `again` when it jumps back instead of waiting. */
  datatype Pass = Pass(s: State, sent: seq<Message>, again: bool)

  /** The next address, cyclically. */
  function Next(a: octet): octet
  {
    ((a as int + 1) % (MAX_MASTER + 1)) as octet
  }

  /** Time since the line was last busy: a difference of clocks read as a signed 32-bit value. */
  function Timer(s: State): int
  {
    var d := (s.clk - s.silence) % 0x1_0000_0000;
    if d < 0x8000_0000 then d else d - 0x1_0000_0000
  }

  function Stop(s: State): Pass { Pass(s, [], false) }

  function Again(s: State): Pass { Pass(s, [], true) }

  /** Sends a message, restarts the silence timer and waits. */
  function Send(s: State, m: Message): Pass
  {
    Pass(s.(silence := s.clk), [m], false)
  }

  function Quick(s: State, typ: octet, dst: octet, src: octet): Pass
  {
    Send(s, Message(typ, dst, src, false))
  }

  function IdlePass(s: State, ts: octet): Pass
  {
    if Timer(s) >= NO_TOKEN_TIME then
      Again(s.(mode := NoToken, events := 0, valid := false, invalid := false))
    else if !s.valid then Stop(s.(invalid := false))
    else
      var s := s.(invalid := false);
      var done := s.(valid := false);
      if s.dst != ts && s.dst != BROADCAST then Stop(done)
      else if s.typ == TOKEN || s.typ == REPLY_POLL_FOR_MASTER then
        if s.dst == BROADCAST then Stop(done)
        else Again(done.(mode := UseToken, frames := 0, sole := false))
      else if s.typ == POLL_FOR_MASTER then Quick(done, REPLY_POLL_FOR_MASTER, s.src, s.dst)
      else if s.typ == DATA_EXPECTING_REPLY || s.typ == TEST_REQUEST then
        if s.dst == BROADCAST then Stop(s.(mode := AnswerDataRequest)) else Stop(done)
      else Stop(done)
  }

  function UsePass(s: State, ts: octet): Pass
  {
    if s.tx.len == 0 then Again(s.(mode := DoneWithToken, frames := MAX_INFO_FRAMES))
    else
      var waits := (s.tx.typ == DATA_EXPECTING_REPLY && s.tx.dst != BROADCAST) || s.tx.typ == TEST_REQUEST;
      Send(s.(mode := if waits then WaitForReply else DoneWithToken,
              typ := s.tx.typ, dst := s.tx.dst, tx := s.tx.(len := 0, flag := true), frames := s.frames + 1),
           Message(s.tx.typ, s.tx.dst, ts, true))
  }

  function WaitPass(s: State, ts: octet): Pass
  {
    if Timer(s) >= REPLY_TIMEOUT then Again(s.(mode := DoneWithToken, frames := MAX_INFO_FRAMES))
    else if s.invalid then Again(s.(mode := DoneWithToken, invalid := false))
    else if s.valid then
      var reply := s.dst == ts && (s.typ == REPLY_POSTPONED || s.typ == TEST_RESPONSE || s.typ == DATA_NOT_EXPECTING_REPLY);
      Again(s.(mode := if reply then DoneWithToken else Idle, valid := false))
    else Stop(s)
  }

  function DonePass(s: State, ts: octet): Pass
  {
    if s.frames < MAX_INFO_FRAMES then Again(s.(mode := UseToken))
    else if !s.sole && s.ns == ts then
      Quick(s.(mode := PollForMaster, ps := Next(ts), retries := 0), POLL_FOR_MASTER, Next(ts), ts)
    else if s.tokens < POLL_INTERVAL - 1 then
      if s.sole && s.ns != Next(ts) then Again(s.(mode := UseToken, frames := 0, tokens := POLL_INTERVAL))
      else Quick(s.(mode := PassToken, tokens := s.tokens + 1, retries := 0, events := 0), TOKEN, s.ns, ts)
    else if Next(s.ps) == s.ns then
      if s.sole then
        Quick(s.(mode := PollForMaster, ps := Next(s.ns), ns := ts, retries := 0, tokens := 1),
              POLL_FOR_MASTER, Next(s.ns), ts)
      else
        Quick(s.(mode := PassToken, ps := ts, retries := 0, tokens := 1, events := 0), POLL_FOR_MASTER, s.ns, ts)
    else Quick(s.(mode := PollForMaster, ps := Next(s.ps), retries := 0), POLL_FOR_MASTER, Next(s.ps), ts)
  }

  function PassTokenPass(s: State, ts: octet): Pass
  {
    if Timer(s) <= USAGE_TIMEOUT then
      if s.events > MIN_OCTETS then Again(s.(mode := Idle)) else Stop(s)
    else if s.retries < RETRY_TOKEN then
      Quick(s.(retries := s.retries + 1, events := 0), TOKEN, s.ns, ts)
    else
      Quick(s.(mode := PollForMaster, ps := Next(s.ns), ns := ts, retries := 0, tokens := 0),
            POLL_FOR_MASTER, Next(s.ns), ts)
  }

  function NoTokenPass(s: State, ts: octet): Pass
  {
    var t := Timer(s);
    var mine, next, last := NO_TOKEN_TIME + SLOT * (ts as int), NO_TOKEN_TIME + SLOT * (ts as int + 1),
                            NO_TOKEN_TIME + SLOT * (MAX_MASTER + 1);
    if t >= mine && (t < next || t > last) then
      Quick(s.(mode := PollForMaster, ps := Next(ts), ns := ts, tokens := 0, retries := 0),
            POLL_FOR_MASTER, Next(ts), ts)
    else if s.events > MIN_OCTETS then Again(s.(mode := Idle))
    else Stop(s)
  }

  predicate Expired(s: State)
  {
    Timer(s) >= USAGE_TIMEOUT || s.invalid
  }

  function PollPass(s: State, ts: octet): Pass
  {
    if s.valid then
      if s.dst == ts && s.typ == REPLY_POLL_FOR_MASTER then
        Quick(s.(mode := PassToken, sole := false, ns := s.src, ps := ts, events := 0, tokens := 0, retries := 0,
                 valid := false), TOKEN, s.src, ts)
      else Again(s.(mode := Idle, valid := false))
    else if Expired(s) then
      var s := s.(invalid := false);
      if s.sole then Stop(s.(mode := UseToken, frames := 0, silence := s.clk))
      else if s.ns != ts then Quick(s.(mode := PassToken, events := 0, retries := 0), TOKEN, s.ns, ts)
      else if Next(s.ps) != ts then Quick(s.(ps := Next(s.ps), retries := 0), POLL_FOR_MASTER, Next(s.ps), ts)
      else Again(s.(mode := UseToken, sole := true, frames := 0))
    else Stop(s)
  }

  predicate Answers(s: State)
  {
    s.tx.len > 0 && (s.tx.typ == TEST_RESPONSE || s.tx.typ == DATA_NOT_EXPECTING_REPLY || s.tx.typ > 127)
  }

  function AnswerPass(s: State, ts: octet): Pass
  {
    var idle := s.(mode := Idle, valid := false);
    if Timer(s) < REPLY_DELAY && Answers(s) then Send(idle, Message(s.tx.typ, s.tx.dst, ts, true))
    else if Timer(s) >= REPLY_DELAY then Quick(idle, REPLY_POSTPONED, s.src, ts)
    else Stop(s)
  }

  function PassOf(s: State, ts: octet): Pass
  {
    match s.mode
    case Idle => IdlePass(s, ts)
    case UseToken => UsePass(s, ts)
    case WaitForReply => WaitPass(s, ts)
    case DoneWithToken => DonePass(s, ts)
    case PassToken => PassTokenPass(s, ts)
    case NoToken => NoTokenPass(s, ts)
    case PollForMaster => PollPass(s, ts)
    case AnswerDataRequest => AnswerPass(s, ts)
  }

  /** A reception, or the silence that ends the wait for one. */
  function Receive(s: State, r: Reception, clk: nat): (s': State)
    ensures s'.busy
  {
    var off := match r
      case Timeout => s.off
      case Valid(f) => |f.pdu| + 8
      case DataError => 8
      case _ => 0;
    var s := s.(off := off, events := s.events + off, clk := clk, busy := true);
    match r
    case Timeout => s
    case Valid(f) => s.(valid := true, typ := f.typ, dst := f.dst, src := f.src, silence := clk)
    case _ => s.(invalid := true, silence := clk)
  }

  // ----- Runs -----

  datatype Action =
    | Hear(r: Reception, clk: nat)
    | Visit
    | Queue(len: nat)
    | Label(typ: octet, dst: octet)

  /** One step; an action that is not possible now changes nothing. A sender waits for the flag
      and for an empty queue, then stores data and length and nothing else. Type and address of what is
      queued are cleared once, at start; no code of the link sets them, so labelling them is an
      action of its own, left to the environment. */
  function Step(s: State, a: Action, ts: octet): (State, seq<Message>)
  {
    match a
    case Hear(r, clk) => if s.busy then (s, []) else (Receive(s, r, clk), [])
    case Visit =>
      if !s.busy then (s, [])
      else
        var p := PassOf(s, ts);
        (p.s.(busy := p.again), p.sent)
    case Queue(len) =>
      if !s.tx.flag then (s, []) else (s.(tx := s.tx.(flag := false, len := if s.tx.len > 0 then s.tx.len else len)), [])
    case Label(typ, dst) => (s.(tx := s.tx.(typ := typ, dst := dst)), [])
  }

  function Run(s: State, acts: seq<Action>, ts: octet): (State, seq<Message>)
    decreases |acts|
  {
    if acts == [] then (s, [])
    else
      var (s1, out) := Step(s, acts[0], ts);
      var (s2, rest) := Run(s1, acts[1..], ts);
      (s2, out + rest)
  }

  function Initial(ts: octet, clk: nat): State
  {
    State(Idle, ts, ts, false, 0, 0, 0, 0, 0, 0, 0, false, false, clk, clk, 0, Outbox(0, 0, 0, true), false)
  }

  // ----- Invariants -----

  /** The frame budget is spent when the node is done with the token and not when it uses it. */
  ghost predicate Budgeted(s: State)
  {
    && (s.mode == UseToken ==> s.frames < MAX_INFO_FRAMES)
    && (s.mode == DoneWithToken || s.mode == WaitForReply ==> s.frames >= MAX_INFO_FRAMES)
  }

  /** A sole master has no next station; the token is only passed to another station. */
  ghost predicate Inv(s: State, ts: octet)
  {
    && (s.sole ==> s.ns == ts)
    && (s.mode == PassToken ==> s.ns != ts)
    && Budgeted(s)
  }

  /** The node answers itself: it would take its own reply for that of another master. */
  predicate AnswersItself(s: State, ts: octet)
  {
    s.mode == PollForMaster && s.valid && s.dst == ts && s.typ == REPLY_POLL_FOR_MASTER && s.src == ts
  }

  lemma NextDiffers(a: octet)
    ensures Next(a) != a
  {
  }

  predicate SelfToken(out: seq<Message>, ts: octet)
  {
    exists m :: m in out && m.typ == TOKEN && m.dst == ts
  }

  /** A queued message that is itself a token for this node. */
  predicate QueuedSelfToken(s: State, ts: octet)
  {
    s.tx.len > 0 && s.tx.typ == TOKEN && s.tx.dst == ts
  }

  /** The pass keeps the invariant and sends no token to this node, each unless it must. */
  ghost predicate Sound(s: State, p: Pass, ts: octet)
  {
    && (Inv(p.s, ts) || AnswersItself(s, ts))
    && |p.sent| <= 1
    && (p.sent != [] ==> ((p.sent[0].typ == TOKEN && p.sent[0].dst == ts) <==>
                          (AnswersItself(s, ts) || (s.mode == UseToken && QueuedSelfToken(s, ts)))))
    && (p.sent == [] ==> !AnswersItself(s, ts) && !(s.mode == UseToken && QueuedSelfToken(s, ts)))
  }

  /** A bound on the passes still to come in the chain. */
  function Rank(s: State): nat
  {
    var again := if s.sole && s.tokens < POLL_INTERVAL - 1 then 2 else 0;
    var done := 1 + again + if s.frames < MAX_INFO_FRAMES then 2 else 0;
    if !s.busy then 0
    else
      match s.mode
      case AnswerDataRequest => 1
      case Idle => if Timer(s) >= NO_TOKEN_TIME then 2 else if s.valid then 3 else 1
      case NoToken => if s.events > MIN_OCTETS then 4 else 1
      case PassToken => 4
      case UseToken => 2 + again
      case DoneWithToken => done
      case WaitForReply => if done < 2 then 3 else 1 + done
      case PollForMaster => if s.tokens < POLL_INTERVAL - 1 then 5 else 3
  }

  /** A pass shortens the chain, keeps the budget, only reads the source address, empties the
      queue and gives the flag back exactly when it uses the token to send, sends data under the
      queue's label, and makes the node sole master only when it has
      polled every address up to its own. */
  ghost predicate Orderly(s: State, ts: octet, p: Pass)
  {
    && (s.busy ==> Rank(p.s.(busy := p.again)) < Rank(s))
    && p.s.busy == s.busy && p.s.src == s.src && (p.s.valid ==> s.valid)
    && (p.s.sole && !s.sole ==> s.mode == PollForMaster && Next(s.ps) == ts)
    && p.s.tx == (if s.mode == UseToken && s.tx.len > 0 then s.tx.(len := 0, flag := true) else s.tx)
    && (Budgeted(s) ==> Budgeted(p.s))
    && (forall m :: m in p.sent && m.data ==>
                      m.typ == s.tx.typ && m.dst == s.tx.dst && s.tx.len > 0 && (s.mode == UseToken || Answers(s)))
  }

  lemma IdleSound(s: State, ts: octet)
    requires s.mode == Idle
    ensures Orderly(s, ts, IdlePass(s, ts)) && (Inv(s, ts) ==> Sound(s, IdlePass(s, ts), ts))
  {
    hide Timer;
  }

  lemma UseSound(s: State, ts: octet)
    requires s.mode == UseToken
    ensures Orderly(s, ts, UsePass(s, ts)) && (Inv(s, ts) ==> Sound(s, UsePass(s, ts), ts))
  {
  }

  lemma WaitSound(s: State, ts: octet)
    requires s.mode == WaitForReply
    ensures Orderly(s, ts, WaitPass(s, ts)) && (Inv(s, ts) ==> Sound(s, WaitPass(s, ts), ts))
  {
    hide Timer;
  }

  lemma DoneOrderly(s: State, ts: octet)
    requires s.mode == DoneWithToken
    ensures Orderly(s, ts, DonePass(s, ts))
  {
    hide Next, Timer;
  }

  lemma DoneSound(s: State, ts: octet)
    requires s.mode == DoneWithToken
    ensures Orderly(s, ts, DonePass(s, ts)) && (Inv(s, ts) ==> Sound(s, DonePass(s, ts), ts))
  {
    hide Next, Orderly;
    DoneOrderly(s, ts);
    NextDiffers(ts);
  }

  lemma PassTokenSound(s: State, ts: octet)
    requires s.mode == PassToken
    ensures Orderly(s, ts, PassTokenPass(s, ts)) && (Inv(s, ts) ==> Sound(s, PassTokenPass(s, ts), ts))
  {
    hide Next, Timer;
  }

  lemma NoTokenSound(s: State, ts: octet)
    requires s.mode == NoToken
    ensures Orderly(s, ts, NoTokenPass(s, ts)) && (Inv(s, ts) ==> Sound(s, NoTokenPass(s, ts), ts))
  {
    hide Next, Timer;
  }

  lemma PollSound(s: State, ts: octet)
    requires s.mode == PollForMaster
    ensures Orderly(s, ts, PollPass(s, ts)) && (Inv(s, ts) ==> Sound(s, PollPass(s, ts), ts))
  {
    hide Next, Timer;
  }

  lemma AnswerSound(s: State, ts: octet)
    requires s.mode == AnswerDataRequest
    ensures Orderly(s, ts, AnswerPass(s, ts)) && (Inv(s, ts) ==> Sound(s, AnswerPass(s, ts), ts))
  {
    hide Timer;
  }

  lemma PassSound(s: State, ts: octet)
    ensures Orderly(s, ts, PassOf(s, ts)) && (Inv(s, ts) ==> Sound(s, PassOf(s, ts), ts))
  {
    hide Sound, Orderly, Inv, IdlePass, UsePass, WaitPass, DonePass, PassTokenPass, NoTokenPass, PollPass, AnswerPass;
    match s.mode {
      case Idle => IdleSound(s, ts);
      case UseToken => UseSound(s, ts);
      case WaitForReply => WaitSound(s, ts);
      case DoneWithToken => DoneSound(s, ts);
      case PassToken => PassTokenSound(s, ts);
      case NoToken => NoTokenSound(s, ts);
      case PollForMaster => PollSound(s, ts);
      case AnswerDataRequest => AnswerSound(s, ts);
    }
  }

  /** A pass sends this node's own token to itself in exactly two situations. */
  lemma SelfTokenExactly(s: State, ts: octet)
    requires Inv(s, ts)
    ensures SelfToken(PassOf(s, ts).sent, ts) <==>
            AnswersItself(s, ts) || (s.mode == UseToken && QueuedSelfToken(s, ts))
  {
    hide PassOf, Inv;
    PassSound(s, ts);
    var out := PassOf(s, ts).sent;
    assert forall m :: m in out ==> m == out[0];
    assert out != [] ==> out[0] in out;
  }

  // ----- Every run -----

  /** The label of the queue is that of a token for this node. */
  predicate SelfLabelled(s: State, ts: octet)
  {
    s.tx.typ == TOKEN && s.tx.dst == ts
  }

  /** No received frame claims to come from this node, and nothing is queued under the label of a
      token for it. */
  predicate Foreign(s: State, a: Action, ts: octet)
  {
    match a
    case Hear(Valid(f), _) => f.src != ts
    case Queue(len) => len == 0 || !s.tx.flag || !SelfLabelled(s, ts)
    case Label(typ, dst) => !(typ == TOKEN && dst == ts)
    case _ => true
  }

  ghost predicate ForeignRun(s: State, acts: seq<Action>, ts: octet)
    decreases |acts|
  {
    acts == [] || (Foreign(s, acts[0], ts) && ForeignRun(Step(s, acts[0], ts).0, acts[1..], ts))
  }

  ghost predicate SafeState(s: State, ts: octet)
  {
    Inv(s, ts) && (s.valid ==> s.src != ts) && !QueuedSelfToken(s, ts)
  }

  lemma StepSafe(s: State, a: Action, ts: octet)
    requires SafeState(s, ts) && Foreign(s, a, ts)
    ensures SafeState(Step(s, a, ts).0, ts) && !SelfToken(Step(s, a, ts).1, ts)
  {
    hide PassOf, Rank;
    if a == Visit && s.busy {
      PassSound(s, ts);
      SelfTokenExactly(s, ts);
    }
  }

  /** In every run of steps in which no received frame carries this node's own address and
      nothing is queued as a token for it, the node never sends the token to itself, and the
      invariants hold throughout. */
  lemma {:induction false} NeverTokenToItself(s: State, acts: seq<Action>, ts: octet)
    requires SafeState(s, ts) && ForeignRun(s, acts, ts)
    ensures SafeState(Run(s, acts, ts).0, ts) && !SelfToken(Run(s, acts, ts).1, ts)
    decreases |acts|
  {
    hide Step, SafeState, Foreign;
    if acts != [] {
      StepSafe(s, acts[0], ts);
      NeverTokenToItself(Step(s, acts[0], ts).0, acts[1..], ts);
    }
  }

  lemma InitialSafe(ts: octet, clk: nat)
    ensures SafeState(Initial(ts, clk), ts) && Budgeted(Initial(ts, clk))
  {
  }

  // ----- Queues that nobody labels -----

  /** The link's own code, and no frame with this node's address. */
  predicate Unlabelled(a: Action, ts: octet)
  {
    !a.Label? && (a.Hear? && a.r.Valid? ==> a.r.frame.src != ts)
  }

  /** Any station but station 0 is safe whatever is queued, because an unlabelled message goes to
      station 0. */
  lemma {:induction false} OtherStationsSafe(s: State, acts: seq<Action>, ts: octet)
    requires SafeState(s, ts) && s.tx.typ == TOKEN && s.tx.dst == 0 != ts && forall a :: a in acts ==> Unlabelled(a, ts)
    ensures !SelfToken(Run(s, acts, ts).1, ts)
    decreases |acts|
  {
    hide Step, SafeState;
    if acts != [] {
      assert acts[0] in acts && Foreign(s, acts[0], ts);
      StepSafe(s, acts[0], ts);
      LabelKept(s, acts[0], ts);
      OtherStationsSafe(Step(s, acts[0], ts).0, acts[1..], ts);
    }
  }

  lemma LabelKept(s: State, a: Action, ts: octet)
    requires !a.Label?
    ensures Step(s, a, ts).0.tx.typ == s.tx.typ && Step(s, a, ts).0.tx.dst == s.tx.dst
  {
    hide PassOf, Rank;
    PassSound(s, ts);
  }

  predicate SendsData(out: seq<Message>)
  {
    exists m :: m in out && m.data
  }

  ghost predicate ZeroState(s: State)
  {
    Inv(s, 0) && (s.valid ==> s.src != 0) && s.tx.typ == TOKEN && s.tx.dst == 0
  }

  lemma StepAtZero(s: State, a: Action)
    requires ZeroState(s) && Unlabelled(a, 0)
    ensures ZeroState(Step(s, a, 0).0)
    ensures SelfToken(Step(s, a, 0).1, 0) <==> SendsData(Step(s, a, 0).1)
  {
    hide PassOf, Rank;
    if a == Visit && s.busy {
      PassSound(s, 0);
      SelfTokenExactly(s, 0);
      DataFromUse(s);
    }
  }

  lemma DataFromUse(s: State)
    requires s.tx.typ == TOKEN
    ensures SendsData(PassOf(s, 0).sent) <==> s.mode == UseToken && s.tx.len > 0
  {
    hide PassOf, Rank;
    PassSound(s, 0);
    if s.mode == UseToken && s.tx.len > 0 {
      UseSendsQueued(s, 0);
      assert Message(s.tx.typ, s.tx.dst, 0, true) in PassOf(s, 0).sent;
    }
  }

  lemma UseSendsQueued(s: State, ts: octet)
    requires s.mode == UseToken && s.tx.len > 0
    ensures PassOf(s, ts).sent == [Message(s.tx.typ, s.tx.dst, ts, true)]
  {
  }

  /** At station 0 every unlabelled message is a token for the node itself, so it sends one if and
      only if it sends any data at all. */
  lemma {:induction false} StationZeroExactly(s: State, acts: seq<Action>)
    requires ZeroState(s) && forall a :: a in acts ==> Unlabelled(a, 0)
    ensures SelfToken(Run(s, acts, 0).1, 0) <==> SendsData(Run(s, acts, 0).1)
    decreases |acts|
  {
    hide Step, ZeroState, Unlabelled;
    if acts != [] {
      StepAtZero(s, acts[0]);
      StationZeroExactly(Step(s, acts[0], 0).0, acts[1..]);
    }
  }

  const TOKEN_FROM_5 := Frame(TOKEN, 0, 5, [])

  /** Station 0 queues an octet, is passed the token by station 5, and sends itself a token. */
  lemma UnlabelledAtZero()
    ensures SelfToken(Run(Initial(0, 0), [Queue(1), Hear(Valid(TOKEN_FROM_5), 1), Visit, Visit], 0).1, 0)
  {
    hide Run;
    var hear := Hear(Valid(TOKEN_FROM_5), 1);
    var s1 := Initial(0, 0).(tx := Outbox(1, 0, 0, false));
    var s2 := Receive(s1, Valid(TOKEN_FROM_5), 1);
    var s3 := s2.(valid := false, mode := UseToken);
    assert Step(s2, Visit, 0).0 == s3;
    FirstStep(s3, Visit, [], 0);
    FirstStep(s2, Visit, [Visit], 0);
    FirstStep(s1, hear, [Visit, Visit], 0);
    FirstStep(Initial(0, 0), Queue(1), [hear, Visit, Visit], 0);
    assert [Visit] + [] == [Visit] && [Visit] + [Visit] == [Visit, Visit] && [hear] + [Visit, Visit] == [hear, Visit, Visit];
    assert [Queue(1)] + [hear, Visit, Visit] == [Queue(1), hear, Visit, Visit];
    assert Message(TOKEN, 0, 0, true) in Run(s3, [Visit], 0).1;
  }

  const OWN_REPLY := Frame(REPLY_POLL_FOR_MASTER, 0, 0, [])

  function AloneListening(): State { Receive(Initial(0, 0), Timeout, 500) }

  function AlonePolling(): State
  {
    AloneListening().(mode := PollForMaster, ps := 1, busy := false, silence := 500)
  }

  lemma AloneSteps()
    ensures
      var mid := AloneListening().(mode := NoToken);
      && Step(Initial(0, 0), Hear(Timeout, 500), 0).0 == AloneListening()
      && Step(AloneListening(), Visit, 0).0 == mid
      && Step(mid, Visit, 0).0 == AlonePolling()
      && Step(AlonePolling(), Hear(Valid(OWN_REPLY), 501), 0).0 == Receive(AlonePolling(), Valid(OWN_REPLY), 501)
      && Step(Receive(AlonePolling(), Valid(OWN_REPLY), 501), Visit, 0).1 == [Message(TOKEN, 0, 0, false)]
  {
  }

  /** The condition is needed: station 0, alone, hears its own reply and passes itself the token. */
  lemma OwnAddressHeard()
    ensures SelfToken(Run(Initial(0, 0), [Hear(Timeout, 500), Visit, Visit, Hear(Valid(OWN_REPLY), 501), Visit], 0).1, 0)
  {
    hide Run, Step, Receive, AloneListening, AlonePolling;
    AloneSteps();
    var a1, a2 := Hear(Timeout, 500), Hear(Valid(OWN_REPLY), 501);
    var mid, s4 := AloneListening().(mode := NoToken), Receive(AlonePolling(), Valid(OWN_REPLY), 501);
    FirstStep(s4, Visit, [], 0);
    FirstStep(AlonePolling(), a2, [Visit], 0);
    FirstStep(mid, Visit, [a2, Visit], 0);
    FirstStep(AloneListening(), Visit, [Visit, a2, Visit], 0);
    FirstStep(Initial(0, 0), a1, [Visit, Visit, a2, Visit], 0);
    assert [Visit] + [] == [Visit] && [a2] + [Visit] == [a2, Visit] && [Visit] + [a2, Visit] == [Visit, a2, Visit];
    assert [Visit] + [Visit, a2, Visit] == [Visit, Visit, a2, Visit];
    assert [a1] + [Visit, Visit, a2, Visit] == [a1, Visit, Visit, a2, Visit];
    assert Message(TOKEN, 0, 0, false) in Run(s4, [Visit], 0).1;
  }

  lemma FirstStep(s: State, a: Action, rest: seq<Action>, ts: octet)
    ensures Run(s, [a] + rest, ts) == (Run(Step(s, a, ts).0, rest, ts).0, Step(s, a, ts).1 + Run(Step(s, a, ts).0, rest, ts).1)
  {
    assert ([a] + rest)[1..] == rest;
  }

  lemma {:induction false} RunAppend(s: State, a: seq<Action>, b: seq<Action>, ts: octet)
    ensures
      var (s1, out1) := Run(s, a, ts);
      var (s2, out2) := Run(s1, b, ts);
      Run(s, a + b, ts) == (s2, out1 + out2)
    decreases |a|
  {
    hide Step;
    if a == [] {
      assert a + b == b && [] + Run(s, b, ts).1 == Run(s, b, ts).1;
    } else {
      assert (a + b)[1..] == a[1..] + b && (a + b)[0] == a[0];
      var (s1, out) := Step(s, a[0], ts);
      RunAppend(s1, a[1..], b, ts);
      var mid := Run(s1, a[1..], ts);
      assert out + (mid.1 + Run(mid.0, b, ts).1) == (out + mid.1) + Run(mid.0, b, ts).1;
    }
  }

  // ----- Chains of passes -----

  /** Every pass lowers the bound, from any state at all. */
  lemma RankDrops(s: State, ts: octet)
    requires s.busy
    ensures Rank(Step(s, Visit, ts).0) < Rank(s)
  {
    hide PassOf, Rank;
    PassSound(s, ts);
  }

  lemma RankBound(s: State)
    ensures Rank(s) <= 6
    ensures Budgeted(s) ==> Rank(s) <= 5
  {
  }

  function Visits(acts: seq<Action>): nat
  {
    if acts == [] then 0 else (if acts[0] == Visit then 1 else 0) + Visits(acts[1..])
  }

  lemma {:induction false} ChainShrinks(s: State, acts: seq<Action>, ts: octet)
    requires forall a :: a in acts ==> !a.Hear?
    ensures Rank(Run(s, acts, ts).0) == 0 || Rank(Run(s, acts, ts).0) + Visits(acts) <= Rank(s)
    decreases |acts|
  {
    hide Rank, PassOf, Timer;
    if acts != [] {
      ChainShrinks(Step(s, acts[0], ts).0, acts[1..], ts);
      if acts[0] == Visit && s.busy {
        RankDrops(s, ts);
      } else {
        RankIdle(s, acts[0], ts);
      }
    }
  }

  lemma RankIdle(s: State, a: Action, ts: octet)
    requires !a.Hear? && (a == Visit ==> !s.busy)
    ensures Rank(Step(s, a, ts).0) == Rank(s)
    ensures !s.busy ==> Rank(s) == 0
  {
  }

  lemma BusyRanked(s: State)
    ensures s.busy <==> Rank(s) > 0
  {
    hide Timer;
  }

  /** Five passes end a chain that starts within the budget, whatever is queued between them; six
      end it in any state. */
  lemma ChainEnds(s: State, acts: seq<Action>, ts: octet)
    requires forall a :: a in acts ==> !a.Hear?
    ensures Visits(acts) >= 6 || (Budgeted(s) && Visits(acts) >= 5) ==> !Run(s, acts, ts).0.busy
  {
    hide Rank, PassOf;
    ChainShrinks(s, acts, ts);
    RankBound(s);
    BusyRanked(Run(s, acts, ts).0);
  }

  lemma StepBudgeted(s: State, a: Action, ts: octet)
    requires Budgeted(s)
    ensures Budgeted(Step(s, a, ts).0)
  {
    hide PassOf, Rank;
    PassSound(s, ts);
  }

  /** Every run keeps the budget, whatever it hears. */
  lemma {:induction false} RunBudgeted(s: State, acts: seq<Action>, ts: octet)
    requires Budgeted(s)
    ensures Budgeted(Run(s, acts, ts).0)
    decreases |acts|
  {
    hide Step, Budgeted;
    if acts != [] {
      StepBudgeted(s, acts[0], ts);
      RunBudgeted(Step(s, acts[0], ts).0, acts[1..], ts);
    }
  }

  /** So in every state that any run reaches, five passes end the chain. */
  lemma ReachableChainEnds(ts: octet, clk: nat, before: seq<Action>, acts: seq<Action>)
    requires (forall a :: a in acts ==> !a.Hear?) && Visits(acts) >= 5
    ensures !Run(Run(Initial(ts, clk), before, ts).0, acts, ts).0.busy
  {
    hide Run;
    InitialSafe(ts, clk);
    RunBudgeted(Initial(ts, clk), before, ts);
    ChainEnds(Run(Initial(ts, clk), before, ts).0, acts, ts);
  }

  /** The whole chain after a reception, undisturbed: where it stops, what it sends, how many
      passes it takes. */
  function Chain(s: State, ts: octet): (r: (State, seq<Message>, nat))
    requires s.busy
    ensures !r.0.busy && r.2 <= Rank(s) && (Budgeted(s) ==> Budgeted(r.0))
    decreases Rank(s)
  {
    PassSound(s, ts);
    var p := PassOf(s, ts);
    if !p.again then (p.s.(busy := false), p.sent, 1)
    else
      var (s', out, n) := Chain(p.s, ts);
      (s', p.sent + out, n + 1)
  }

  /** An undisturbed chain is one of the runs. */
  lemma {:induction false} ChainIsRun(s: State, ts: octet)
    requires s.busy
    ensures
      var (s', out, n) := Chain(s, ts);
      Run(s, seq(n, _ => Visit), ts) == (s', out)
    decreases Rank(s)
  {
    hide PassOf, Rank;
    PassSound(s, ts);
    var p, n := PassOf(s, ts), Chain(s, ts).2;
    assert seq(n, _ => Visit) == [Visit] + seq(n - 1, _ => Visit);
    FirstStep(s, Visit, seq(n - 1, _ => Visit), ts);
    if p.again {
      ChainIsRun(p.s, ts);
    } else {
      assert seq(n - 1, _ => Visit) == [] && p.sent + [] == p.sent;
    }
  }
}
