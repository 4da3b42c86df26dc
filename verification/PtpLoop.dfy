/**
  The link's loop as a whole: what comes in over the line decides, frame by frame, what the
  sending side does.
 */
module PtpLoop {
  import opened Octets
  import opened Options
  import opened PtpFrame
  import opened PtpReceiver
  import opened PtpSender
  import opened PtpLaws

  /** What a turn of the loop makes of stream `s`: the next frame; a silence if its data check is
      bad or the device reports one; a heartbeat with XOFF if the device just returns nothing. */
  ghost predicate Notices(s: seq<octet>, nothing: int, e: Event)
  {
    var at := Resync(s);
    if at.Some? && NextFrame(s[at.value..]).Some? then e == Heard(NextFrame(s[at.value..]).value.typ)
    else if (at.Some? && Spoilt(s[at.value..])) || nothing == -1 then e == TimedOut
    else if nothing == 0 then e == Heard(0x00)
    else e == Ignored
  }

  /** One turn: a call of the receiver, then the switch on what it returned. */
  method Turn(rx: Receiver, tx: Sender, now: nat) returns (r: Outcome, ghost e: Event)
    requires rx.Valid() && tx.Valid() && tx.mode == Connected && rx.buf != tx.buf && rx.src.nothing <= 0
    modifies rx, rx.src, rx.buf, tx
    ensures rx.Valid() && tx.Valid()
    ensures Notices(old(rx.Unparsed()), rx.src.nothing, e)
    ensures (tx.View(), tx.sent) == Sent(old(tx.sent), PtpSender.Step(old(tx.View()), Hear(e, now)))
    ensures r.Failed? ==> Clean(rx)
    ensures r.Received? ==> FrameLength(rx.pduLen) <= MTU && e == Heard(rx.Delivered().typ)
    ensures r.Received? <==> (var at := Resync(old(rx.Unparsed())); at.Some? && NextFrame(old(rx.Unparsed())[at.value..]).Some?)
    ensures r.Received? ==>
              old(rx.Unparsed()) == old(rx.Unparsed())[..Resync(old(rx.Unparsed())).value] + (Plain(rx.Delivered()) + rx.Unparsed())
    ensures RunsDry(old(rx.Unparsed())) ==> rx.src.stream == []
  {
    hide Plain, NextFrame, Resync, Spoilt, PtpSender.Step, RunsDry, Receiver.Ahead;
    ghost var s, was := rx.Unparsed(), tx.View();
    ghost var skipped;
    r, skipped := rx.FrameRecv();
    assert tx.View() == was;
    if r.Received? {
      ghost var at := Resync(s).value;
      Regains(s, at, rx.Delivered(), rx.Unparsed());
    }
    var code := match r case Received(typ) => typ as int case Failed(c) => c;
    e := EventOf(code);
    tx.Loop(code, now);
  }

  lemma Regains(s: seq<octet>, at: nat, f: Frame, rest: seq<octet>)
    requires at <= |s| && s == s[..at] + (Plain(f) + rest) && FrameLength(|f.pdu|) <= MTU
    ensures NextFrame(s[at..]) == Some(f)
  {
    hide Plain, NextFrame;
    assert s[at..] == Plain(f) + rest;
    NextFrameComplete(f, rest);
  }

  /** What the link hears over a burst: its frames, then the silence. */
  function Events(items: seq<Item>, clocks: seq<nat>): seq<Action>
    requires |clocks| > |items|
  {
    if items == [] then [Hear(TimedOut, clocks[0])]
    else [Hear(Heard(items[0].frame.typ), clocks[0])] + Events(items[1..], clocks[1..])
  }

  /** A turn with frames still to come, or with none. */
  method BurstTurn(rx: Receiver, tx: Sender, ghost left: seq<Item>, ghost part: seq<octet>, now: nat) returns (r: Outcome)
    requires rx.Valid() && tx.Valid() && tx.mode == Connected && rx.buf != tx.buf && rx.src.nothing == -1
    requires AllFit(left) && Tail(part) && rx.Unparsed() == PlainLine(left) + part
    modifies rx, rx.src, rx.buf, tx
    ensures rx.Valid() && tx.Valid() && (r.Failed? <==> left == [])
    ensures
      var e := if left == [] then TimedOut else Heard(left[0].frame.typ);
      (tx.View(), tx.sent) == Sent(old(tx.sent), PtpSender.Step(old(tx.View()), Hear(e, now)))
    ensures r.Received? ==> rx.Unparsed() == PlainLine(left[1..]) + part
  {
    hide Plain, NextFrame, Incomplete, PlainLine, Resync, GoodHeader, Tail, Spoilt, PtpSender.Step, Receiver.Ahead;
    ghost var all := rx.Unparsed();
    if left == [] {
      NoLine(part);
      TailRunsDry(part);
      DryFails(part);
    } else {
      FirstThenRest(left, part);
      FirstFound(left[0], PlainLine(left[1..]) + part);
    }
    ghost var e;
    r, e := Turn(rx, tx, now);
    if r.Received? {
      ghost var noise, f := left[0].noise, left[0].frame;
      assert Plain(f) + (PlainLine(left[1..]) + part) == all[|noise|..] == Plain(rx.Delivered()) + rx.Unparsed();
      SameFirst(f, PlainLine(left[1..]) + part, rx.Delivered(), rx.Unparsed());
    }
  }

  /** Over any burst, however the device cuts it, the link takes exactly the steps of the frames in
      it, in order, and then that of a silence; once disconnected it does nothing more. */
  method RunBurst(rx: Receiver, tx: Sender, ghost items: seq<Item>, clocks: seq<nat>)
    requires Clean(rx) && Burst(rx.src.stream, items) && rx.src.nothing == -1
    requires tx.Valid() && rx.buf != tx.buf && |clocks| > |items|
    modifies rx, rx.src, rx.buf, tx
    ensures tx.Valid()
    ensures tx.View() == After(old(tx.View()), Events(items, clocks))
    ensures tx.sent == old(tx.sent) + PtpLaws.AllFrames(old(tx.View()), Events(items, clocks))
  {
    hide PlainLine, Destuff, Burst, Tail, AllFit, Receiver.Ahead, PtpSender.Step, After, PtpLaws.AllFrames, Events;
    ghost var part := BurstPlain(rx.src.stream, items);
    BurstFits(rx.src.stream, items);
    CleanUnparsed(rx);
    ghost var left, was, before := items, tx.View(), tx.sent;
    ghost var all := Events(items, clocks);
    var i, more := 0, true;
    assert clocks[0..] == clocks;
    while more && tx.mode == Connected
      invariant rx.Valid() && tx.Valid() && AllFit(left) && i + |left| < |clocks|
      invariant more ==> rx.Unparsed() == PlainLine(left) + part
      invariant Rest(more, left, clocks, i, tx.View(), tx.sent) == Rest(true, items, clocks, 0, was, before)
      decreases |left|, more
    {
      ghost var l, sent := tx.View(), tx.sent;
      EventsParts(left, clocks[i..]);
      var r := BurstTurn(rx, tx, left, part, clocks[i]);
      RestStep(left, clocks, i, l, sent);
      more := r.Received?;
      FramesParts(left);
      if more {
        left, i := left[1..], i + 1;
      }
    }
    RestDone(more, left, clocks, i, tx.View(), tx.sent);
    RestMeans(items, clocks, was, before);
  }

  /** The link and everything it has sent once the rest of the burst is over. */
  ghost function Rest(more: bool, left: seq<Item>, clocks: seq<nat>, i: nat, l: Link, sent: seq<Frame>): (Link, seq<Frame>)
    requires i + |left| < |clocks|
  {
    if !more then (l, sent)
    else
      var es := Events(left, clocks[i..]);
      (After(l, es), sent + PtpLaws.AllFrames(l, es))
  }

  lemma EventsParts(left: seq<Item>, clocks: seq<nat>)
    requires |clocks| > |left|
    ensures if left == [] then Events(left, clocks) == [Hear(TimedOut, clocks[0])]
            else Events(left, clocks) == [Hear(Heard(left[0].frame.typ), clocks[0])] + Events(left[1..], clocks[1..])
  {
  }

  lemma FirstEvent(l: Link, a: Action, es: seq<Action>)
    ensures After(l, [a] + es) == After(PtpSender.Step(l, a).0, es)
    ensures PtpLaws.AllFrames(l, [a] + es) == PtpSender.Step(l, a).1 + PtpLaws.AllFrames(PtpSender.Step(l, a).0, es)
  {
    hide PtpSender.Step;
    assert ([a] + es)[1..] == es;
  }

  lemma NoEvents(l: Link)
    ensures After(l, []) == l && PtpLaws.AllFrames(l, []) == []
  {
  }

  lemma RestStep(left: seq<Item>, clocks: seq<nat>, i: nat, l: Link, sent: seq<Frame>)
    requires i + |left| < |clocks|
    ensures
      var e := if left == [] then TimedOut else Heard(left[0].frame.typ);
      var (l', out) := PtpSender.Step(l, Hear(e, clocks[i]));
      Rest(true, left, clocks, i, l, sent) ==
        if left == [] then (l', sent + out) else Rest(true, left[1..], clocks, i + 1, l', sent + out)
  {
    hide PtpSender.Step, After, PtpLaws.AllFrames;
    var e := if left == [] then TimedOut else Heard(left[0].frame.typ);
    var (l', out) := PtpSender.Step(l, Hear(e, clocks[i]));
    EventsParts(left, clocks[i..]);
    assert clocks[i..][0] == clocks[i] && clocks[i..][1..] == clocks[i + 1..];
    if left == [] {
      FirstEvent(l, Hear(e, clocks[i]), []);
      NoEvents(l');
      assert [Hear(e, clocks[i])] + [] == [Hear(e, clocks[i])] && out + [] == out;
    } else {
      var es := Events(left[1..], clocks[i + 1..]);
      FirstEvent(l, Hear(e, clocks[i]), es);
      assert sent + (out + PtpLaws.AllFrames(l', es)) == (sent + out) + PtpLaws.AllFrames(l', es);
    }
  }

  /** A link that is not connected ignores the rest. */
  lemma {:induction false} IgnoresRest(l: Link, es: seq<Action>)
    requires l.mode != Connected && forall a :: a in es ==> a.Hear?
    ensures After(l, es) == l && PtpLaws.AllFrames(l, es) == []
    decreases |es|
  {
    if es != [] {
      assert es[0] in es;
      IgnoresRest(l, es[1..]);
    }
  }

  lemma {:induction false} OnlyHears(left: seq<Item>, clocks: seq<nat>)
    requires |clocks| > |left|
    ensures forall a :: a in Events(left, clocks) ==> a.Hear?
  {
    if left != [] {
      OnlyHears(left[1..], clocks[1..]);
    }
  }

  lemma RestDone(more: bool, left: seq<Item>, clocks: seq<nat>, i: nat, l: Link, sent: seq<Frame>)
    requires i + |left| < |clocks| && (more ==> l.mode != Connected)
    ensures Rest(more, left, clocks, i, l, sent) == (l, sent)
  {
    hide Events, After, PtpLaws.AllFrames;
    if more {
      OnlyHears(left, clocks[i..]);
      IgnoresRest(l, Events(left, clocks[i..]));
      assert sent + [] == sent;
    }
  }

  lemma RestMeans(items: seq<Item>, clocks: seq<nat>, l: Link, sent: seq<Frame>)
    requires |items| < |clocks|
    ensures
      var es := Events(items, clocks);
      Rest(true, items, clocks, 0, l, sent) == (After(l, es), sent + PtpLaws.AllFrames(l, es))
  {
    assert clocks[0..] == clocks;
  }
}
