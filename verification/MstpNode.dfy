/**
  The node as the program runs it: link fields and loop variables updated in place, one method
  for each state of the switch, and the jump back to the switch as a loop.
 */
module MstpNode {
  import opened Octets
  import opened MstpFrame
  import opened Mstp

  class Node {
    const ts: octet
    /** The link's fields and the loop's variables. */
    var s: State
    /** Everything sent so far. */
    var sent: seq<Message>

    ghost predicate Valid()
      reads this
    {
      Budgeted(s) && !s.busy
    }

    constructor (ts: octet, clk: nat)
      ensures Valid() && this.ts == ts && s == Initial(ts, clk) && sent == []
    {
      this.ts, s, sent := ts, Initial(ts, clk), [];
    }

    method Transmit(m: Message)
      modifies this`s, this`sent
      ensures s == old(s).(silence := old(s).clk) && sent == old(sent) + [m]
    {
      sent := sent + [m];
      s := s.(silence := s.clk);
    }

    method FastSend(t: octet, to: octet, from: octet)
      modifies this`s, this`sent
      ensures s == old(s).(silence := old(s).clk) && sent == old(sent) + [Message(t, to, from, false)]
    {
      Transmit(Message(t, to, from, false));
    }

    method ListenIdle() returns (again: bool)
      requires s.mode == Idle
      modifies this
      ensures Pass(s, sent, again) == After(old(sent), IdlePass(old(s), ts))
    {
      hide Timer;
      again := false;
      if Timer(s) >= NO_TOKEN_TIME {
        s := s.(events := 0, mode := NoToken, invalid := false, valid := false);
        return true;
      }
      if s.invalid {
        s := s.(invalid := false);
      }
      if s.valid {
        if s.dst == ts || s.dst == BROADCAST {
          if s.typ == TOKEN || s.typ == REPLY_POLL_FOR_MASTER {
            if s.dst != BROADCAST {
              s := s.(valid := false, frames := 0, sole := false, mode := UseToken);
              return true;
            }
          } else if s.typ == POLL_FOR_MASTER {
            FastSend(REPLY_POLL_FOR_MASTER, s.src, s.dst);
          } else if s.typ == DATA_EXPECTING_REPLY || s.typ == TEST_REQUEST {
            if s.dst == BROADCAST {
              s := s.(mode := AnswerDataRequest);
            }
          }
        }
        if s.mode != AnswerDataRequest {
          s := s.(valid := false);
        }
      }
    }

    method SendQueued() returns (again: bool)
      requires s.mode == UseToken
      modifies this
      ensures Pass(s, sent, again) == After(old(sent), UsePass(old(s), ts))
    {
      again := s.tx.len == 0;
      if s.tx.len == 0 {
        s := s.(frames := MAX_INFO_FRAMES, mode := DoneWithToken);
      } else {
        s := s.(typ := s.tx.typ, dst := s.tx.dst);
        Transmit(Message(s.typ, s.dst, ts, true));
        s := s.(tx := s.tx.(len := 0, flag := true), frames := s.frames + 1);
        if s.typ == DATA_EXPECTING_REPLY {
          if s.dst == BROADCAST {
            s := s.(mode := DoneWithToken);
          } else {
            s := s.(mode := WaitForReply);
          }
        } else if s.typ == TEST_REQUEST {
          s := s.(mode := WaitForReply);
        } else {
          s := s.(mode := DoneWithToken);
        }
      }
    }

    method AwaitReply() returns (again: bool)
      requires s.mode == WaitForReply
      modifies this
      ensures Pass(s, sent, again) == After(old(sent), WaitPass(old(s), ts))
    {
      hide Timer;
      again := true;
      if Timer(s) >= REPLY_TIMEOUT {
        s := s.(frames := MAX_INFO_FRAMES, mode := DoneWithToken);
      } else if s.invalid {
        s := s.(invalid := false, mode := DoneWithToken);
      } else if s.valid {
        if s.dst == ts {
          if s.typ == REPLY_POSTPONED || s.typ == TEST_RESPONSE || s.typ == DATA_NOT_EXPECTING_REPLY {
            s := s.(mode := DoneWithToken);
          } else {
            s := s.(mode := Idle);
          }
        } else {
          s := s.(mode := Idle);
        }
        s := s.(valid := false);
      } else {
        again := false;
      }
    }

    method GiveUpToken() returns (again: bool)
      requires s.mode == DoneWithToken
      modifies this
      ensures Pass(s, sent, again) == After(old(sent), DonePass(old(s), ts))
    {
      hide Next;
      again := false;
      if s.frames < MAX_INFO_FRAMES {
        s := s.(mode := UseToken);
        again := true;
      } else if !s.sole && s.ns == ts {
        s := s.(ps := Next(ts));
        FastSend(POLL_FOR_MASTER, s.ps, ts);
        s := s.(retries := 0, mode := PollForMaster);
      } else if s.tokens < POLL_INTERVAL - 1 {
        if s.sole && s.ns != Next(ts) {
          s := s.(frames := 0, tokens := POLL_INTERVAL, mode := UseToken);
          again := true;
        } else {
          s := s.(tokens := s.tokens + 1);
          FastSend(TOKEN, s.ns, ts);
          s := s.(retries := 0, events := 0, mode := PassToken);
        }
      } else if Next(s.ps) == s.ns {
        if s.sole {
          s := s.(ps := Next(s.ns));
          FastSend(POLL_FOR_MASTER, s.ps, ts);
          s := s.(ns := ts, retries := 0, tokens := 1, mode := PollForMaster);
        } else {
          s := s.(ps := ts);
          FastSend(POLL_FOR_MASTER, s.ns, ts);
          s := s.(retries := 0, tokens := 1, events := 0, mode := PassToken);
        }
      } else {
        s := s.(ps := Next(s.ps));
        FastSend(POLL_FOR_MASTER, s.ps, ts);
        s := s.(retries := 0, mode := PollForMaster);
      }
    }

    method WatchToken() returns (again: bool)
      requires s.mode == PassToken
      modifies this
      ensures Pass(s, sent, again) == After(old(sent), PassTokenPass(old(s), ts))
    {
      hide Timer, Next;
      again := false;
      if Timer(s) <= USAGE_TIMEOUT {
        if s.events > MIN_OCTETS {
          s := s.(mode := Idle);
          again := true;
        }
      } else if s.retries < RETRY_TOKEN {
        s := s.(retries := s.retries + 1);
        FastSend(TOKEN, s.ns, ts);
        s := s.(events := 0);
      } else {
        s := s.(ps := Next(s.ns));
        FastSend(POLL_FOR_MASTER, s.ps, ts);
        s := s.(ns := ts, retries := 0, tokens := 0, mode := PollForMaster);
      }
    }

    method AwaitSlot() returns (again: bool)
      requires s.mode == NoToken
      modifies this
      ensures Pass(s, sent, again) == After(old(sent), NoTokenPass(old(s), ts))
    {
      hide Timer, Next;
      again := false;
      if Timer(s) < NO_TOKEN_TIME + SLOT * (ts as int) {
        if s.events > MIN_OCTETS {
          s := s.(mode := Idle);
          again := true;
        }
      } else {
        var next := NO_TOKEN_TIME + SLOT * (ts as int + 1);
        var last := NO_TOKEN_TIME + SLOT * (MAX_MASTER + 1);
        if Timer(s) < next || Timer(s) > last {
          s := s.(ps := Next(ts));
          FastSend(POLL_FOR_MASTER, s.ps, ts);
          s := s.(ns := ts, tokens := 0, retries := 0, mode := PollForMaster);
        } else if s.events > MIN_OCTETS {
          s := s.(mode := Idle);
          again := true;
        }
      }
    }

    method AwaitPollReply() returns (again: bool)
      requires s.mode == PollForMaster
      modifies this
      ensures Pass(s, sent, again) == After(old(sent), PollPass(old(s), ts))
    {
      hide Timer, Next;
      again := false;
      if s.valid {
        if s.dst == ts && s.typ == REPLY_POLL_FOR_MASTER {
          s := s.(sole := false, ns := s.src, events := 0);
          FastSend(TOKEN, s.ns, ts);
          s := s.(ps := ts, tokens := 0, retries := 0, valid := false, mode := PassToken);
        } else {
          s := s.(valid := false, mode := Idle);
          again := true;
        }
      } else if Timer(s) >= USAGE_TIMEOUT || s.invalid {
        if s.sole {
          s := s.(frames := 0, mode := UseToken);
          s := s.(silence := s.clk);
        } else if s.ns != ts {
          s := s.(events := 0);
          FastSend(TOKEN, s.ns, ts);
          s := s.(retries := 0, mode := PassToken);
        } else if Next(s.ps) != ts {
          s := s.(ps := Next(s.ps));
          FastSend(POLL_FOR_MASTER, s.ps, ts);
          s := s.(retries := 0);
        } else {
          s := s.(sole := true, frames := 0, mode := UseToken);
          again := true;
        }
        s := s.(invalid := false);
      }
    }

    method AnswerRequest() returns (again: bool)
      requires s.mode == AnswerDataRequest
      modifies this
      ensures Pass(s, sent, again) == After(old(sent), AnswerPass(old(s), ts))
    {
      hide Timer;
      again := false;
      if Timer(s) < REPLY_DELAY && s.tx.len > 0
         && (s.tx.typ == TEST_RESPONSE || s.tx.typ == DATA_NOT_EXPECTING_REPLY || s.tx.typ > 127) {
        Transmit(Message(s.tx.typ, s.tx.dst, ts, true));
        s := s.(mode := Idle, valid := false);
      } else if Timer(s) >= REPLY_DELAY {
        FastSend(REPLY_POSTPONED, s.src, ts);
        s := s.(mode := Idle, valid := false);
      }
    }

    /** One pass through the switch. */
    method Transition() returns (again: bool)
      modifies this
      ensures Pass(s, sent, again) == After(old(sent), PassOf(old(s), ts))
    {
      hide IdlePass, UsePass, WaitPass, DonePass, PassTokenPass, NoTokenPass, PollPass, AnswerPass, After;
      match s.mode {
        case Idle => again := ListenIdle();
        case UseToken => again := SendQueued();
        case WaitForReply => again := AwaitReply();
        case DoneWithToken => again := GiveUpToken();
        case PassToken => again := WatchToken();
        case NoToken => again := AwaitSlot();
        case PollForMaster => again := AwaitPollReply();
        case AnswerDataRequest => again := AnswerRequest();
      }
    }

    method Note(r: Reception, now: nat)
      modifies this
      ensures s == Receive(old(s), r, now) && sent == old(sent)
    {
      match r {
        case Timeout =>
        case Valid(f) => s := s.(off := |f.pdu| + 8);
        case DataError => s := s.(off := 8);
        case SyncError => s := s.(off := 0);
        case HeaderError => s := s.(off := 0);
      }
      s := s.(events := s.events + s.off, clk := now, busy := true);
      match r {
        case Timeout =>
        case Valid(f) =>
          s := s.(valid := true, typ := f.typ, dst := f.dst, src := f.src);
          s := s.(silence := s.clk);
        case _ =>
          s := s.(invalid := true);
          s := s.(silence := s.clk);
      }
    }

    /** Handles one reception or silence: the chain it sets off is the specified one, and takes
        at most five passes. */
    method Handle(r: Reception, now: nat) returns (passes: nat)
      requires Valid()
      modifies this
      ensures Valid() && (s, sent, passes) == Continued(old(sent), 0, Chain(Receive(old(s), r, now), ts))
      ensures passes <= 5
    {
      hide PassOf, Rank;
      Note(r, now);
      ghost var start, before := s, sent;
      RankBound(s);
      passes := 0;
      var again := true;
      while again
        invariant s.busy == again
        invariant again ==> Continued(before, 0, Chain(start, ts)) == Continued(sent, passes, Chain(s, ts))
        invariant !again ==> Continued(before, 0, Chain(start, ts)) == (s, sent, passes)
        decreases again, Rank(s)
      {
        PassSound(s, ts);
        ghost var p, done := PassOf(s, ts), sent;
        again := Transition();
        if again {
          assert done + (p.sent + Chain(s, ts).1) == sent + Chain(s, ts).1;
        } else {
          s := s.(busy := false);
        }
        passes := passes + 1;
      }
    }

    /** Another thread offers a message. It is taken with the flag, when there is room: data and
        length, no type or address. Otherwise the thread waits. */
    method Enqueue(len: nat) returns (taken: bool)
      requires Valid()
      modifies this
      ensures Valid() && s == Step(old(s), Queue(len), ts).0 && sent == old(sent)
      ensures taken == (old(s.tx.flag) && old(s.tx.len) == 0)
    {
      taken := false;
      if s.tx.flag {
        s := s.(tx := s.tx.(flag := false));
        taken := s.tx.len == 0;
        if taken {
          s := s.(tx := s.tx.(len := len));
        }
      }
    }
  }

  /** A pass taken with `before` already sent. */
  function After(before: seq<Message>, p: Pass): Pass
  {
    p.(sent := before + p.sent)
  }

  /** A chain taken with `before` already sent and `n` passes already made. */
  function Continued(before: seq<Message>, n: nat, r: (State, seq<Message>, nat)): (State, seq<Message>, nat)
  {
    (r.0, before + r.1, n + r.2)
  }
}
