/**
  The packet capture ring: an interrupt cuts the octets of a serial line into packets, one
  thread takes the finished packets out, and both share sixteen slots through free-running
  32-bit counters and a semaphore.
 */
module Capture {
  import opened Octets

  const SLOTS: nat := 16
  const DATA_MAX: nat := 256
  const WORD: nat := 0x1_0000_0000
  const SEQ_RANGE: nat := 0x1_0000

  datatype Packet = Packet(clk: nat, seqno: nat, data: seq<octet>)

  /** Length of an octet on the line, and the gap that ends a packet, in clock ticks. */
  datatype Config = Config(byteTime: nat, maxGap: nat)

  /** Where the consumer is: at rest, past the semaphore, or past the test for an empty ring. */
  datatype Phase = Resting | Woken | Looked

  datatype Ring = Ring(
    clk: nat,
    seqno: nat,
    head: nat,
    tail: nat,
    buf: seq<Packet>,
    sem: nat,
    phase: Phase)

  function Slot(counter: nat): (i: nat)
    ensures i < SLOTS
  {
    counter % SLOTS
  }

  function Opened(cfg: Config, now: nat, seqno: nat, c: octet): Packet
  {
    Packet((now - cfg.byteTime) % WORD, seqno % SEQ_RANGE, [c])
  }

  /** The octet starts a new packet: the open one is full, or the line was quiet too long. */
  predicate Ends(cfg: Config, gapFrom: nat, now: nat, open: Packet)
  {
    |open.data| == DATA_MAX || (now - gapFrom) % WORD > cfg.maxGap
  }

  /** Free slots as the interrupt computes them, through an eight-bit difference. */
  function Free(head: nat, tail: nat): int
  {
    SLOTS - (head - tail) % WORD % 256
  }

  /** The interrupt: one octet. */
  function Interrupt(r: Ring, cfg: Config, c: octet, now: nat): (r': Ring)
    requires |r.buf| == SLOTS
    ensures |r'.buf| == SLOTS
  {
    var open := r.buf[Slot(r.head)];
    var r1 := r.(clk := now);
    if !Ends(cfg, r.clk, now, open) then
      r1.(buf := r.buf[Slot(r.head) := open.(data := open.data + [c])])
    else
      var head, seqno := (r.head + 1) % WORD, (r.seqno + 1) % WORD;
      var begun := Opened(cfg, now, seqno, c);
      if Free(head, r.tail) != 0 then
        r1.(seqno := seqno, head := head, sem := r.sem + 1, buf := r.buf[Slot(head) := begun])
      else r1.(seqno := seqno, buf := r.buf[Slot(r.head) := begun])
  }

  // ----- Interleavings -----

  datatype Action = Octet(c: octet, now: nat) | Wait | Look | Take

  predicate FindsEmpty(r: Ring)
  {
    r.phase == Woken && (r.head - r.tail) % WORD == 0
  }

  /** A step of the consumer: pass the semaphore, test for an empty ring, move the tail. */
  function Consumer(r: Ring, a: Action): Ring
  {
    match a
    case Wait => if r.phase == Resting && r.sem > 0 then r.(phase := Woken, sem := r.sem - 1) else r
    case Look => if r.phase != Woken then r else r.(phase := if FindsEmpty(r) then Resting else Looked)
    case Take => if r.phase != Looked then r else r.(phase := Resting, tail := (r.tail + 1) % WORD)
    case _ => r
  }

  /** The ring with its history: every octet that arrived, every packet finished and whether it
      was kept, the packet still open, how many were sealed and taken, and those handed out. */
  datatype World = World(
    ring: Ring,
    heard: seq<Action>,
    finished: seq<Packet>,
    open: Packet,
    /** Indices of the finished packets that got a slot. */
    kept: seq<nat>,
    taken: nat,
    out: seq<Packet>,
    /** The consumer was woken and found the ring empty. */
    starved: bool)

  function Step(w: World, cfg: Config, a: Action): (w': World)
    requires |w.ring.buf| == SLOTS
    ensures |w'.ring.buf| == SLOTS
  {
    if a.Octet? then
      var w1 := w.(ring := Interrupt(w.ring, cfg, a.c, a.now), heard := w.heard + [a]);
      if !Ends(cfg, w.ring.clk, a.now, w.open) then w1.(open := w.open.(data := w.open.data + [a.c]))
      else
        w1.(finished := w.finished + [w.open], open := Opened(cfg, a.now, |w.finished| + 1, a.c),
            kept := if w1.ring.head != w.ring.head then w.kept + [|w.finished|] else w.kept)
    else
      var w1 := w.(ring := Consumer(w.ring, a), starved := w.starved || (a == Look && FindsEmpty(w.ring)));
      if a == Take && w.ring.phase == Looked
      then w1.(taken := w.taken + 1, out := w.out + [w.ring.buf[Slot(w.ring.tail)]]) else w1
  }

  function Run(w: World, cfg: Config, acts: seq<Action>): (w': World)
    requires |w.ring.buf| == SLOTS
    ensures |w'.ring.buf| == SLOTS
    decreases |acts|
  {
    if acts == [] then w else Run(Step(w, cfg, acts[0]), cfg, acts[1..])
  }

  function Initial(now: nat, buf: seq<Packet>): (w: World)
    requires |buf| == SLOTS
    ensures |w.ring.buf| == SLOTS
  {
    var open := Packet(now, 0, []);
    World(Ring(now, 0, 0, 0, buf[0 := open], 0, Resting), [], [], open, [], 0, [], false)
  }

  function Sealed(w: World): nat
  {
    |w.kept|
  }

  /** The packet sealed as number `i`. */
  function Number(w: World, i: nat): Packet
    requires i < |w.kept| && w.kept[i] < |w.finished|
  {
    w.finished[w.kept[i]]
  }

  // ----- The invariant -----

  /** The counters are the true counts, reduced to 32 bits, and never 16 or more apart. */
  ghost predicate Counted(w: World)
  {
    && w.taken <= Sealed(w) <= w.taken + (SLOTS - 1)
    && w.ring.head == Sealed(w) % WORD && w.ring.tail == w.taken % WORD && w.ring.seqno == |w.finished| % WORD
    && w.ring.sem + (if w.ring.phase == Resting then 0 else 1) == Sealed(w) - w.taken
    && !w.starved
  }

  /** Kept packets are finished ones, in order; each finished packet carries its own number. */
  ghost predicate Ordered(w: World)
  {
    && (forall i :: 0 <= i < |w.kept| ==> w.kept[i] < |w.finished|)
    && (forall i, j :: 0 <= i < j < |w.kept| ==> w.kept[i] < w.kept[j])
    && (forall k :: 0 <= k < |w.finished| ==> w.finished[k].seqno == k % SEQ_RANGE)
    && w.open.seqno == |w.finished| % SEQ_RANGE && |w.open.data| <= DATA_MAX
  }

  /** The open packet and the last fifteen sealed ones are in their slots. */
  ghost predicate Placed(w: World)
    requires Ordered(w)
  {
    && |w.ring.buf| == SLOTS
    && w.ring.buf[Slot(Sealed(w))] == w.open
    && (forall i: nat :: i < Sealed(w) < i + SLOTS ==> w.ring.buf[Slot(i)] == Number(w, i))
  }

  ghost predicate Delivered(w: World)
    requires Ordered(w)
  {
    |w.out| == w.taken <= Sealed(w) && forall i :: 0 <= i < w.taken ==> w.out[i] == Number(w, i)
  }

  ghost predicate Inv(w: World)
  {
    Counted(w) && Ordered(w) && Placed(w) && Delivered(w)
  }

  lemma InitialInv(now: nat, buf: seq<Packet>)
    requires |buf| == SLOTS
    ensures Inv(Initial(now, buf))
  {
  }

  lemma SlotOfWord(n: nat)
    ensures Slot(n % WORD) == Slot(n)
  {
  }

  lemma NextCount(n: nat)
    ensures (n % WORD + 1) % WORD == (n + 1) % WORD
    ensures n % WORD != (n + 1) % WORD
  {
  }

  lemma CountDifference(h: nat, t: nat)
    requires t <= h <= t + SLOTS
    ensures (h % WORD - t % WORD) % WORD == h - t
  {
  }

  lemma SlotsDiffer(i: nat, j: nat)
    requires i < j < i + SLOTS
    ensures Slot(i) != Slot(j)
  {
  }

  lemma SeqReduced(n: nat)
    ensures n % WORD % SEQ_RANGE == n % SEQ_RANGE
  {
  }

  /** What the interrupt sees in a world that satisfies the invariant. */
  lemma InterruptSees(w: World)
    requires Inv(w)
    ensures w.ring.buf[Slot(w.ring.head)] == w.open && Slot(w.ring.head) == Slot(Sealed(w))
    ensures
      var head := (w.ring.head + 1) % WORD;
      && head == (Sealed(w) + 1) % WORD && Slot(head) == Slot(Sealed(w) + 1) && head != w.ring.head
      && (Free(head, w.ring.tail) != 0 <==> Sealed(w) - w.taken < SLOTS - 1)
    ensures (w.ring.seqno + 1) % WORD == (|w.finished| + 1) % WORD
    ensures (w.ring.seqno + 1) % WORD % SEQ_RANGE == (|w.finished| + 1) % SEQ_RANGE
  {
    hide Slot;
    SlotOfWord(Sealed(w));
    SlotOfWord(Sealed(w) + 1);
    NextCount(Sealed(w));
    NextCount(|w.finished|);
    SeqReduced(|w.finished| + 1);
    CountDifference(Sealed(w) + 1, w.taken);
  }

  /** Writing slot `j` disturbs none of the others in use. */
  lemma OthersPlaced(w: World, buf: seq<Packet>, j: nat, p: Packet)
    requires Inv(w) && Sealed(w) <= j <= Sealed(w) + 1 && buf == w.ring.buf[Slot(j) := p]
    ensures forall i: nat :: i < Sealed(w) && j < i + SLOTS ==> buf[Slot(i)] == Number(w, i)
  {
    hide Slot, Counted, Delivered;
    forall i: nat | i < Sealed(w) && j < i + SLOTS ensures buf[Slot(i)] == Number(w, i) {
      SlotsDiffer(i, j);
    }
  }

  lemma ExtendKeeps(w: World, cfg: Config, c: octet, now: nat)
    requires Inv(w) && !Ends(cfg, w.ring.clk, now, w.open)
    ensures Inv(Step(w, cfg, Octet(c, now)))
  {
    hide Slot, Free, Opened;
    var w' := Step(w, cfg, Octet(c, now));
    InterruptSees(w);
    OthersPlaced(w, w'.ring.buf, Sealed(w), w'.open);
    assert w'.kept == w.kept && w'.finished == w.finished;
    assert forall i: nat :: i < Sealed(w') ==> Number(w', i) == Number(w, i);
  }

  lemma SealStep(w: World, cfg: Config, c: octet, now: nat)
    requires Inv(w) && Ends(cfg, w.ring.clk, now, w.open) && Sealed(w) - w.taken < SLOTS - 1
    ensures
      var n, p := Sealed(w) + 1, Opened(cfg, now, |w.finished| + 1, c);
      && Step(w, cfg, Octet(c, now)) ==
         w.(ring := w.ring.(clk := now, seqno := (|w.finished| + 1) % WORD, head := n % WORD, sem := w.ring.sem + 1,
                            buf := w.ring.buf[Slot(n) := p]),
            heard := w.heard + [Octet(c, now)], finished := w.finished + [w.open], open := p,
            kept := w.kept + [|w.finished|])
      && p.seqno == (|w.finished| + 1) % SEQ_RANGE && |p.data| == 1
  {
    hide Slot, Free, Ends;
    InterruptSees(w);
  }

  lemma SealKeeps(w: World, cfg: Config, c: octet, now: nat)
    requires Inv(w) && Ends(cfg, w.ring.clk, now, w.open) && Sealed(w) - w.taken < SLOTS - 1
    ensures Inv(Step(w, cfg, Octet(c, now)))
  {
    hide Slot, Step, Ends, Opened;
    SealStep(w, cfg, c, now);
    var w' := Step(w, cfg, Octet(c, now));
    OthersPlaced(w, w'.ring.buf, Sealed(w) + 1, w'.open);
    SlotsDiffer(Sealed(w), Sealed(w) + 1);
    assert forall i: nat :: i < Sealed(w) ==> Number(w', i) == Number(w, i);
    assert Number(w', Sealed(w)) == w.open;
  }

  lemma DropKeeps(w: World, cfg: Config, c: octet, now: nat)
    requires Inv(w) && Ends(cfg, w.ring.clk, now, w.open) && Sealed(w) - w.taken == SLOTS - 1
    ensures Inv(Step(w, cfg, Octet(c, now)))
  {
    hide Slot, Free, Ends;
    var w' := Step(w, cfg, Octet(c, now));
    InterruptSees(w);
    OthersPlaced(w, w'.ring.buf, Sealed(w), w'.open);
    assert w'.kept == w.kept && w'.finished == w.finished + [w.open];
    assert forall i: nat :: i < Sealed(w') ==> Number(w', i) == Number(w, i);
  }

  lemma ConsumerKeeps(w: World, cfg: Config, a: Action)
    requires Inv(w) && !a.Octet?
    ensures Inv(Step(w, cfg, a))
  {
    hide Slot;
    var w' := Step(w, cfg, a);
    CountDifference(Sealed(w), w.taken);
    NextCount(w.taken);
    SlotOfWord(w.taken);
    assert w'.kept == w.kept && w'.finished == w.finished && w'.ring.buf == w.ring.buf && w'.open == w.open;
    assert forall i: nat :: i < Sealed(w') ==> Number(w', i) == Number(w, i);
  }

  lemma StepKeeps(w: World, cfg: Config, a: Action)
    requires Inv(w)
    ensures Inv(Step(w, cfg, a))
  {
    hide Step, Ends;
    match a {
      case Octet(c, now) =>
        if !Ends(cfg, w.ring.clk, now, w.open) {
          ExtendKeeps(w, cfg, c, now);
        } else if Sealed(w) - w.taken < SLOTS - 1 {
          SealKeeps(w, cfg, c, now);
        } else {
          DropKeeps(w, cfg, c, now);
        }
      case _ => ConsumerKeeps(w, cfg, a);
    }
  }

  /** What is recorded stays recorded. */
  ghost predicate Extends(w: World, w': World)
  {
    w.kept <= w'.kept && w.finished <= w'.finished && w.out <= w'.out && w.taken <= w'.taken
  }

  lemma StepExtends(w: World, cfg: Config, a: Action)
    requires Inv(w)
    ensures Extends(w, Step(w, cfg, a))
  {
    hide Slot, Free, Ends;
  }

  lemma {:induction false} RunKeeps(w: World, cfg: Config, acts: seq<Action>)
    requires Inv(w)
    ensures Inv(Run(w, cfg, acts)) && Extends(w, Run(w, cfg, acts))
    decreases |acts|
  {
    hide Step, Inv;
    SlotsOf(w);
    if acts != [] {
      StepKeeps(w, cfg, acts[0]);
      StepExtends(w, cfg, acts[0]);
      RunKeeps(Step(w, cfg, acts[0]), cfg, acts[1..]);
    }
  }

  lemma SlotsOf(w: World)
    requires Inv(w)
    ensures |w.ring.buf| == SLOTS
  {
  }

  /** In every interleaving of interrupt and consumer: a woken consumer never finds the ring
      empty, at most fifteen packets wait, and the packets handed out are the first ones sealed,
      in order, with their octets as they were when sealed and rising numbers. */
  lemma CaptureSafe(now: nat, buf: seq<Packet>, cfg: Config, acts: seq<Action>)
    requires |buf| == SLOTS
    ensures
      var w := Run(Initial(now, buf), cfg, acts);
      && !w.starved && w.taken <= Sealed(w) <= w.taken + (SLOTS - 1)
      && (forall i :: 0 <= i < |w.kept| ==> w.kept[i] < |w.finished|)
      && |w.out| == w.taken && (forall i :: 0 <= i < |w.out| ==> w.out[i] == w.finished[w.kept[i]])
      && (forall i, j :: 0 <= i < j < |w.out| ==> w.kept[i] < w.kept[j])
      && (forall i :: 0 <= i < |w.out| ==> w.out[i].seqno == w.kept[i] % SEQ_RANGE)
  {
    hide Step, Initial;
    InitialInv(now, buf);
    RunKeeps(Initial(now, buf), cfg, acts);
  }

  /** One round of the consumer hands out the next packet sealed, if there is one, and ends where
      it began. */
  lemma NextHandedOut(w: World, cfg: Config)
    requires Inv(w) && w.ring.phase == Resting && w.taken < Sealed(w)
    ensures
      var w' := Step(Step(Step(w, cfg, Wait), cfg, Look), cfg, Take);
      && Inv(w') && w'.ring.phase == Resting && w'.kept == w.kept && w'.finished == w.finished
      && w'.taken == w.taken + 1 && w'.out == w.out + [Number(w, w.taken)]
  {
    hide Slot, Interrupt, Opened;
    CountDifference(Sealed(w), w.taken);
    SlotOfWord(w.taken);
    var w1 := Step(w, cfg, Wait);
    var w2 := Step(w1, cfg, Look);
    assert w2 == w.(ring := w.ring.(phase := Looked, sem := w.ring.sem - 1));
    ConsumerKeeps(w, cfg, Wait);
    ConsumerKeeps(w1, cfg, Look);
    ConsumerKeeps(w2, cfg, Take);
  }

  lemma {:induction false} RunAppend(w: World, cfg: Config, a: seq<Action>, b: seq<Action>)
    requires |w.ring.buf| == SLOTS
    ensures Run(w, cfg, a + b) == Run(Run(w, cfg, a), cfg, b)
    decreases |a|
  {
    hide Step;
    if a == [] {
      assert a + b == b;
    } else {
      assert (a + b)[0] == a[0] && (a + b)[1..] == a[1..] + b;
      RunAppend(Step(w, cfg, a[0]), cfg, a[1..], b);
    }
  }

  lemma OneRound(w: World, cfg: Config)
    requires |w.ring.buf| == SLOTS
    ensures Run(w, cfg, [Wait, Look, Take]) == Step(Step(Step(w, cfg, Wait), cfg, Look), cfg, Take)
  {
    hide Step;
    assert [Wait, Look, Take][1..] == [Look, Take] && [Look, Take][1..] == [Take] && [Take][1..] == [];
  }

  /** From every reachable state with the consumer at rest, the consumer alone hands out every
      packet sealed so far. */
  lemma {:induction false} AllHandedOut(w: World, cfg: Config) returns (acts: seq<Action>)
    requires Inv(w) && w.ring.phase == Resting
    ensures forall a :: a in acts ==> !a.Octet?
    ensures
      var w' := Run(w, cfg, acts);
      && w'.kept == w.kept && w'.finished == w.finished && Ordered(w)
      && |w'.out| == Sealed(w) && forall i :: 0 <= i < Sealed(w) ==> w'.out[i] == Number(w, i)
    decreases Sealed(w) - w.taken
  {
    hide Step;
    acts := [];
    if w.taken < Sealed(w) {
      NextHandedOut(w, cfg);
      OneRound(w, cfg);
      var w1 := Run(w, cfg, [Wait, Look, Take]);
      var more := AllHandedOut(w1, cfg);
      acts := [Wait, Look, Take] + more;
      RunAppend(w, cfg, [Wait, Look, Take], more);
      assert forall i: nat :: i < Sealed(w) ==> Number(w1, i) == Number(w, i);
    }
  }

  /** A packet handed out keeps its slot, untouched, until fifteen more have been sealed after it. */
  lemma HandedOutIntact(w: World, cfg: Config, acts: seq<Action>, i: nat)
    requires Inv(w) && i < |w.out| && Sealed(Run(w, cfg, acts)) < i + SLOTS
    ensures Run(w, cfg, acts).ring.buf[Slot(i)] == w.out[i]
  {
    hide Step, Slot;
    RunKeeps(w, cfg, acts);
    assert Run(w, cfg, acts).out[i] == w.out[i];
  }

  /** A packet is lost if and only if it ends while fifteen others wait. */
  lemma LostExactly(w: World, cfg: Config, c: octet, now: nat)
    requires Inv(w) && Ends(cfg, w.ring.clk, now, w.open)
    ensures
      var w' := Step(w, cfg, Octet(c, now));
      w'.kept == if Sealed(w) - w.taken < SLOTS - 1 then w.kept + [|w.finished|] else w.kept
  {
    hide Slot, Free, Ends;
    InterruptSees(w);
  }

  // ----- The cut into packets -----

  datatype Cut = Cut(finished: seq<Packet>, open: Packet)

  predicate AllOctets(heard: seq<Action>)
  {
    forall i :: 0 <= i < |heard| ==> heard[i].Octet?
  }

  /** When the line was last busy. */
  function LastClock(start: nat, heard: seq<Action>): nat
    requires AllOctets(heard)
  {
    if heard == [] then start else heard[|heard| - 1].now
  }

  /** The packets of a list of octets, with no ring and no consumer in sight. */
  function CutOf(cfg: Config, start: nat, heard: seq<Action>): Cut
    requires AllOctets(heard)
  {
    if heard == [] then Cut([], Packet(start, 0, []))
    else
      var n := |heard| - 1;
      var before := CutOf(cfg, start, heard[..n]);
      if Ends(cfg, LastClock(start, heard[..n]), heard[n].now, before.open) then
        Cut(before.finished + [before.open], Opened(cfg, heard[n].now, |before.finished| + 1, heard[n].c))
      else before.(open := before.open.(data := before.open.data + [heard[n].c]))
  }

  ghost predicate FollowsLine(w: World, cfg: Config, start: nat)
  {
    && AllOctets(w.heard)
    && Cut(w.finished, w.open) == CutOf(cfg, start, w.heard)
    && w.ring.clk == LastClock(start, w.heard)
  }

  lemma FollowsStep(w: World, cfg: Config, start: nat, a: Action)
    requires Inv(w) && FollowsLine(w, cfg, start)
    ensures FollowsLine(Step(w, cfg, a), cfg, start)
  {
    hide Slot, Free, Ends, Opened;
    if a.Octet? {
      var heard := w.heard + [a];
      assert heard[..|w.heard|] == w.heard && heard[|w.heard|] == a;
    }
  }

  lemma {:induction false} FollowsRun(w: World, cfg: Config, start: nat, acts: seq<Action>)
    requires Inv(w) && FollowsLine(w, cfg, start)
    ensures FollowsLine(Run(w, cfg, acts), cfg, start)
    decreases |acts|
  {
    hide Step, Inv, FollowsLine;
    SlotsOf(w);
    if acts != [] {
      FollowsStep(w, cfg, start, acts[0]);
      StepKeeps(w, cfg, acts[0]);
      FollowsRun(Step(w, cfg, acts[0]), cfg, start, acts[1..]);
    }
  }

  /** Whatever the consumer does, the packets finished are those of the octets alone. */
  lemma CutIndependent(now: nat, buf: seq<Packet>, cfg: Config, acts: seq<Action>)
    requires |buf| == SLOTS
    ensures FollowsLine(Run(Initial(now, buf), cfg, acts), cfg, now)
  {
    InitialInv(now, buf);
    FollowsRun(Initial(now, buf), cfg, now, acts);
  }

  function Characters(heard: seq<Action>): seq<octet>
    requires AllOctets(heard)
  {
    seq(|heard|, i requires 0 <= i < |heard| => heard[i].c)
  }

  function Contents(packets: seq<Packet>): seq<octet>
  {
    if packets == [] then [] else Contents(packets[..|packets| - 1]) + packets[|packets| - 1].data
  }

  /** The cut neither loses nor repeats an octet, and no packet outgrows its buffer. */
  lemma {:induction false} CutConserves(cfg: Config, start: nat, heard: seq<Action>)
    requires AllOctets(heard)
    ensures
      var cut := CutOf(cfg, start, heard);
      && Contents(cut.finished) + cut.open.data == Characters(heard)
      && |cut.open.data| <= DATA_MAX && (forall p :: p in cut.finished ==> |p.data| <= DATA_MAX)
  {
    hide Ends;
    if heard != [] {
      var n := |heard| - 1;
      var before := CutOf(cfg, start, heard[..n]);
      CutConserves(cfg, start, heard[..n]);
      assert Characters(heard) == Characters(heard[..n]) + [heard[n].c];
      assert (before.finished + [before.open])[..|before.finished|] == before.finished;
      FullEnds(cfg, LastClock(start, heard[..n]), heard[n].now, before.open);
    }
  }

  lemma FullEnds(cfg: Config, from: nat, now: nat, open: Packet)
    ensures |open.data| == DATA_MAX ==> Ends(cfg, from, now, open)
  {
  }

  // ----- The driver -----

  class Driver {
    const cfg: Config
    var clk: nat
    var seqno: nat
    var head: nat
    var tail: nat
    const buf: array<Packet>
    var sem: nat
    var phase: Phase

    ghost function View(): Ring
      reads this, buf
    {
      Ring(clk, seqno, head, tail, buf[..], sem, phase)
    }

    constructor (cfg: Config, now: nat)
      ensures this.cfg == cfg && fresh(buf) && buf.Length == SLOTS
      ensures View() == Initial(now, View().buf).ring
    {
      this.cfg, clk, seqno, head, tail := cfg, now, 0, 0, 0;
      buf := new Packet[SLOTS](_ => Packet(now, 0, []));
      sem, phase := 0, Resting;
      new;
      assert buf[..][0 := Packet(now, 0, [])] == buf[..];
    }

    /** The receive branch of the interrupt. */
    method Isr(c: octet, now: nat)
      requires buf.Length == SLOTS
      modifies this, buf
      ensures View() == Interrupt(old(View()), cfg, c, now)
    {
      hide Slot;
      ghost var before := buf[..];
      var diff := (now - clk) % WORD;
      clk := now;
      var h := head;
      var i := Slot(h);
      var pkt := buf[i];
      if |pkt.data| == DATA_MAX || diff > cfg.maxGap {
        h := (h + 1) % WORD;
        if SLOTS - (h - tail) % WORD % 256 != 0 {
          head := h;
          sem := sem + 1;
          i := Slot(h);
        }
        seqno := (seqno + 1) % WORD;
        pkt := Packet((now - cfg.byteTime) % WORD, seqno % SEQ_RANGE, []);
      }
      buf[i] := pkt.(data := pkt.data + [c]);
      assert buf[..] == before[i := buf[i]];
      assert [] + [c] == [c];
    }

    /** The consumer, with nothing in between: a packet exactly when one is waiting. */
    method PacketRecv() returns (ok: bool, pkt: Packet)
      requires buf.Length == SLOTS && phase == Resting
      modifies this
      ensures ok == (old(sem) > 0 && (old(head) - old(tail)) % WORD != 0)
      ensures View() == Consumer(Consumer(Consumer(old(View()), Wait), Look), Take)
      ensures ok ==> pkt == buf[Slot(old(tail))]
    {
      ok, pkt := false, buf[0];
      if sem > 0 {
        sem := sem - 1;
        var t := tail;
        if (head - t) % WORD != 0 {
          ok, pkt := true, buf[Slot(t)];
          tail := (t + 1) % WORD;
        }
      }
    }
  }
}
