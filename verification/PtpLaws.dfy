/**
  What the sending side of a point-to-point link owes the line, told by frame and by field
  instead of by branch: when each frame goes out, both ways, and what a run of steps must send.
 */
module PtpLaws {
  import opened Octets
  import opened PtpFrame
  import opened PtpSender

  // ----- One step -----

  predicate Hears(l: Link, a: Action, typ: octet)
  {
    l.mode == Connected && a == Hear(Heard(typ), a.now)
  }

  predicate Silent(l: Link, a: Action)
  {
    l.mode == Connected && a == Hear(TimedOut, a.now)
  }

  /** The step finds the outstanding message overdue. */
  predicate Overdue(l: Link, a: Action)
  {
    Silent(l, a) && l.pdu != [] && Past(l.retryTimer, a.now)
  }

  /** A message leaves when it is taken with XON, when it is overdue with XON and has tries left,
      and whenever a NAK of its parity asks for it. */
  predicate DataLeaves(l: Link, a: Action)
  {
    || (Takes(l, a) && l.xon)
    || (Overdue(l, a) && l.xon && l.retries + 1 < 3)
    || Hears(l, a, if l.seqno % 2 == 1 then 0x0b else 0x0a)
  }

  /** The line has been idle in one direction for too long. */
  predicate PeerGone(l: Link, a: Action)
  {
    Silent(l, a) && Past(l.rxIdle, a.now)
  }

  predicate BeatDue(l: Link, a: Action)
  {
    Silent(l, a) && Past(l.txIdle, a.now) && !PeerGone(l, a) && !DataLeaves(l, a)
  }

  /** Why frame `f` should leave. */
  predicate Owed(l: Link, a: Action, f: Frame)
  {
    || (f == Frame(if l.seqno % 2 == 1 then 0x03 else 0x02, if a.Submit? then a.pdu else l.pdu) && DataLeaves(l, a))
    || (f == Frame(0x06, []) && Hears(l, a, 0x02)) || (f == Frame(0x07, []) && Hears(l, a, 0x03))
    || (f == Frame(0x0d, []) && Hears(l, a, 0x0c)) || (f == Frame(0x0f, []) && Hears(l, a, 0x0e))
    || (f == Frame(0x0e, [1]) && PeerGone(l, a)) || (f == Frame(0x01, []) && BeatDue(l, a))
  }

  lemma JustSet(now: nat, ms: nat)
    requires ms < 0x8000_0000
    ensures !Past(Later(now, ms), now)
  {
  }

  /** A timer set for `ms` has run out `d` ticks later if and only if `d` is more than `ms`, for
      waits of less than half the range of the clock, whether or not the clock wraps. */
  lemma TimerExact(now: nat, ms: nat, d: nat)
    requires ms < 0x8000_0000 && d < 0x8000_0000
    ensures Past(Later(now, ms), (now + d) % 0x1_0000_0000) <==> d > ms
  {
    WrappedDifference(now + ms, now + d);
  }

  lemma WrappedDifference(a: int, b: int)
    ensures (a % CLOCK_RANGE - b % CLOCK_RANGE) % CLOCK_RANGE == (a - b) % CLOCK_RANGE
  {
  }

  /** The three parts of a silence, in turn. */
  lemma QuietRetry(l: Link, now: nat)
    requires l.mode == Connected
    ensures
      var (l1, a) := Retry(l, now);
      var resent := l.pdu != [] && Past(l.retryTimer, now) && l.xon && l.retries + 1 < 3;
      && a == (if resent then [Frame(if l.seqno % 2 == 1 then 0x03 else 0x02, l.pdu)] else [])
      && l1.rxIdle == l.rxIdle && l1.txIdle == if resent then Later(now, TX_IDLE) else l.txIdle
  {
    hide Past, Later;
  }

  lemma QuietRest(l: Link, now: nat)
    ensures
      var (l1, b) := HangUp(l, now);
      var c := Beat(l1, now).1;
      && b == (if Past(l.rxIdle, now) then [Frame(0x0e, [1])] else [])
      && c == (if Past(l.txIdle, now) && !Past(l.rxIdle, now) then [Frame(0x01, [])] else [])
  {
    hide Past, Later;
    JustSet(now, TX_IDLE);
  }

  lemma QuietFrames(l: Link, now: nat, f: Frame)
    requires l.mode == Connected
    ensures f in Silence(l, now).1 <==> Owed(l, Hear(TimedOut, now), f)
    ensures |Silence(l, now).1| <= 2
  {
    hide Past, Later, Retry, HangUp, Beat;
    JustSet(now, TX_IDLE);
    QuietRetry(l, now);
    QuietRest(Retry(l, now).0, now);
  }

  lemma HeardFrames(l: Link, typ: octet, now: nat, f: Frame)
    requires l.mode == Connected
    ensures f in Handle(l, typ, now).1 <==> Owed(l, Hear(Heard(typ), now), f)
    ensures |Handle(l, typ, now).1| <= 1
  {
    hide Past, Later;
  }

  /** A frame leaves if and only if it is owed. */
  lemma FramesExactly(l: Link, a: Action, f: Frame)
    ensures f in Step(l, a).1 <==> Owed(l, a, f)
    ensures |Step(l, a).1| <= 2
  {
    hide Past, Later, Silence, Handle;
    if l.mode == Connected && a.Hear? {
      match a.e {
        case Heard(typ) =>
          var l1 := if typ > 0 then l.(rxIdle := Later(a.now, RX_IDLE)) else l;
          HeardFrames(l1, typ, a.now, f);
        case TimedOut => QuietFrames(l, a.now, f);
        case Ignored =>
      }
    }
  }

  /** The step gives up: the message is overdue for the third time. */
  predicate TriedEnough(l: Link, a: Action)
  {
    Overdue(l, a) && l.retries + 1 >= 3
  }

  predicate AckHeard(l: Link, a: Action)
  {
    Hears(l, a, if l.seqno % 2 == 1 then 0x07 else 0x06)
  }

  /** Field by field. Only heartbeats move the peer's readiness; a message is outstanding from the
      step that takes it to its acknowledgement or the third overdue silence; every frame sent
      restarts one idle timer and every frame heard, but the one of type 0, the other. */
  ghost predicate FieldsAfter(l: Link, a: Action, l': Link)
  {
    && l'.xon == ((l.xon || Hears(l, a, 0x01)) && !Hears(l, a, 0x00))
    && l'.mode == (if PeerGone(l, a) then Disconnecting else if Hears(l, a, 0x0e) then Disconnected else l.mode)
    && l'.seqno == (if AckHeard(l, a) then (l.seqno + 1) % 0x1_0000_0000 else l.seqno)
    && l'.pdu == (if Takes(l, a) then a.pdu else if AckHeard(l, a) || TriedEnough(l, a) then [] else l.pdu)
    && l'.flag == ((l.flag && !a.Submit?) || AckHeard(l, a) || TriedEnough(l, a))
    && l'.retries == (if Takes(l, a) || PeerGone(l, a) then 0 else if Overdue(l, a) then l.retries + 1 else l.retries)
    && l'.retryTimer == (if PeerGone(l, a) then Later(a.now, 5000)
                         else if Takes(l, a) || (Overdue(l, a) && !TriedEnough(l, a)) then Later(a.now, 1000)
                         else l.retryTimer)
    && l'.rxIdle == (if l.mode == Connected && a.Hear? && a.e.Heard? && a.e.typ > 0 then Later(a.now, 30000) else l.rxIdle)
    && l'.txIdle == (if Step(l, a).1 != [] then Later(a.now, 15000) else l.txIdle)
  }

  lemma HeardFields(l: Link, typ: octet, now: nat)
    requires l.mode == Connected
    ensures FieldsAfter(l, Hear(Heard(typ), now), Step(l, Hear(Heard(typ), now)).0)
  {
    hide Past, Later;
  }

  lemma QuietFields(l: Link, now: nat)
    requires l.mode == Connected
    ensures FieldsAfter(l, Hear(TimedOut, now), Step(l, Hear(TimedOut, now)).0)
  {
    hide Past, Later;
    JustSet(now, TX_IDLE);
  }

  lemma FieldsExactly(l: Link, a: Action)
    ensures FieldsAfter(l, a, Step(l, a).0)
  {
    hide Past, Later, Silence, Handle;
    if l.mode == Connected && a.Hear? && a.e.Heard? {
      HeardFields(l, a.e.typ, a.now);
    } else if l.mode == Connected && a.Hear? && a.e.TimedOut? {
      QuietFields(l, a.now);
    }
  }

  // ----- Runs -----

  /** Silences at which the message outstanding at the start of the run is overdue, up to its
      release. */
  function OverdueSilences(l: Link, acts: seq<Action>): nat
    decreases |acts|
  {
    if acts == [] || l.pdu == [] || l.mode != Connected then 0
    else (if Overdue(l, acts[0]) then 1 else 0) + OverdueSilences(Step(l, acts[0]).0, acts[1..])
  }

  /** The peer is ready whenever the message is overdue. */
  ghost predicate ReadyWhenOverdue(l: Link, acts: seq<Action>)
    decreases |acts|
  {
    acts == [] || ((Overdue(l, acts[0]) ==> l.xon) && ReadyWhenOverdue(Step(l, acts[0]).0, acts[1..]))
  }

  lemma CountedResend(l: Link, a: Action)
    requires l.pdu != [] && l.mode == Connected
    ensures (a.Hear? && a.e.TimedOut? && exists f :: f in Step(l, a).1 && IsData(f)) <==>
            Overdue(l, a) && l.xon && l.retries + 1 < 3
  {
    hide Past, Step;
    var f := Frame(if l.seqno % 2 == 1 then 0x03 else 0x02, l.pdu);
    FramesExactly(l, a, f);
    forall g | g in Step(l, a).1 ensures Owed(l, a, g) {
      FramesExactly(l, a, g);
    }
  }

  /** Under a peer that is ready, the timer resends the message at every overdue silence but the
      last: as often as it is overdue, up to the tries left. */
  lemma {:induction false} ResendsExactly(l: Link, acts: seq<Action>)
    requires l.pdu != [] && l.mode == Connected ==> l.retries < 3
    requires ReadyWhenOverdue(l, acts)
    ensures
      var due, left := OverdueSilences(l, acts), 2 - l.retries;
      l.pdu != [] && l.mode == Connected ==> Resends(l, acts) == if due <= left then due else left
    decreases |acts|
  {
    hide Past, Step, Later;
    if acts != [] && l.pdu != [] && l.mode == Connected {
      CountedResend(l, acts[0]);
      FieldsExactly(l, acts[0]);
      ResendsExactly(Step(l, acts[0]).0, acts[1..]);
    }
  }

  function AllFrames(l: Link, acts: seq<Action>): seq<Frame>
    decreases |acts|
  {
    if acts == [] then [] else Step(l, acts[0]).1 + AllFrames(Step(l, acts[0]).0, acts[1..])
  }

  /** While the peer says neither that it is ready nor that it missed a frame, nothing that was
      not sent before leaves. */
  lemma {:induction false} XoffHolds(l: Link, acts: seq<Action>)
    requires !l.xon
    requires forall a :: a in acts && a.Hear? && a.e.Heard? ==> a.e.typ !in {0x01, 0x0a, 0x0b}
    ensures !After(l, acts).xon && forall f :: f in AllFrames(l, acts) ==> !IsData(f)
    decreases |acts|
  {
    hide Step, Past, Later;
    if acts != [] {
      assert acts[0] in acts;
      FieldsExactly(l, acts[0]);
      forall f | f in Step(l, acts[0]).1 ensures !IsData(f) {
        FramesExactly(l, acts[0], f);
      }
      XoffHolds(Step(l, acts[0]).0, acts[1..]);
    }
  }

  /** A link never stays silent: a silence more than 15 seconds after the last frame sends one. */
  lemma NeverMute(l: Link, now: nat, d: nat, a: Action)
    requires Silent(l, a) && l.txIdle == Later(now, 15000) && a.now == (now + d) % 0x1_0000_0000
    requires 15000 < d < 0x8000_0000
    ensures Step(l, a).1 != []
  {
    hide Past, Step, Later;
    TimerExact(now, 15000, d);
    FramesExactly(l, a, Frame(0x01, []));
    FramesExactly(l, a, Frame(0x0e, [1]));
    FramesExactly(l, a, Frame(if l.seqno % 2 == 1 then 0x03 else 0x02, l.pdu));
  }
}
