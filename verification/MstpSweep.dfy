/**
  The search for other masters: a node that generates the token polls every other address once,
  in cyclic order, and then declares itself the sole master.
 */
module MstpSweep {
  import opened Octets
  import opened Mstp

  /** The address `k` places after `ts`. */
  function Plus(ts: octet, k: nat): octet
  {
    ((ts as int + k) % (MAX_MASTER + 1)) as octet
  }

  function Poll(ts: octet, k: nat): Message
  {
    Message(POLL_FOR_MASTER, Plus(ts, k), ts, false)
  }

  /** The polls from place `a` up to and including place `b`. */
  function Polls(ts: octet, a: nat, b: nat): seq<Message>
    requires a <= b + 1
  {
    seq(b + 1 - a, i requires 0 <= i < b + 1 - a => Poll(ts, a + i))
  }

  /** The node has polled up to place `k` and waits for an answer. */
  ghost predicate Sweeping(s: State, ts: octet, k: nat)
  {
    && s.mode == PollForMaster && !s.sole && s.ns == ts && !s.valid
    && 1 <= k <= MAX_MASTER && s.ps == Plus(ts, k)
  }

  predicate Unanswered(a: Action)
  {
    !(a.Hear? && a.r.Valid?)
  }

  /** The step is a pass that finds the wait for an answer over. */
  predicate Expires(s: State, a: Action)
  {
    a == Visit && s.busy && Expired(s)
  }

  lemma PlusNext(ts: octet, k: nat)
    ensures Next(Plus(ts, k)) == Plus(ts, k + 1)
  {
  }

  /** The places 1 to 31 are the other addresses, each once. */
  lemma PlacesAreOthers(ts: octet, x: octet)
    requires ts as int <= MAX_MASTER && x as int <= MAX_MASTER
    ensures x != ts <==> exists k: nat :: 1 <= k <= MAX_MASTER && Plus(ts, k) == x
    ensures forall j: nat, k: nat :: 1 <= j <= MAX_MASTER && 1 <= k <= MAX_MASTER && Plus(ts, j) == Plus(ts, k) ==> j == k
  {
    var k: int := (x as int - ts as int + 32) % 32;
    if x != ts {
      assert 1 <= k <= MAX_MASTER && Plus(ts, k) == x;
    }
  }

  lemma BackHome(ts: octet, k: nat)
    requires 1 <= k <= MAX_MASTER && ts as int <= MAX_MASTER
    ensures Plus(ts, k + 1) == ts <==> k == MAX_MASTER
  {
  }

  /** Generating the token starts a sweep with the first poll. */
  lemma SweepStarts(s: State, ts: octet)
    requires s.mode == NoToken && s.busy && !s.sole && !s.valid && PassOf(s, ts).s.mode == PollForMaster
    ensures Sweeping(Step(s, Visit, ts).0, ts, 1) && Step(s, Visit, ts).1 == Polls(ts, 1, 1)
  {
    hide Timer;
    assert Next(ts) == Plus(ts, 1);
  }

  lemma SweepStep(s: State, a: Action, ts: octet, k: nat)
    requires Sweeping(s, ts, k) && Unanswered(a) && ts as int <= MAX_MASTER
    ensures
      var (s', out) := Step(s, a, ts);
      if !Expires(s, a) then Sweeping(s', ts, k) && out == []
      else if k < MAX_MASTER then Sweeping(s', ts, k + 1) && out == [Poll(ts, k + 1)]
      else s'.sole && s'.mode == UseToken && out == []
  {
    hide Next, Plus, Timer;
    PlusNext(ts, k);
    BackHome(ts, k);
  }

  /** How many waits run out along a run that is still sweeping. */
  ghost function Expiries(s: State, acts: seq<Action>, ts: octet): nat
    decreases |acts|
  {
    if acts == [] then 0
    else (if Expires(s, acts[0]) then 1 else 0) + Expiries(Step(s, acts[0], ts).0, acts[1..], ts)
  }

  /** Along any run without a valid frame the polls go out in order, one for each wait that runs
      out, until all 31 places have been polled; the next one makes the node sole master. */
  lemma {:induction false} SweepRun(s: State, acts: seq<Action>, ts: octet, k: nat)
    requires Sweeping(s, ts, k) && (forall a :: a in acts ==> Unanswered(a)) && ts as int <= MAX_MASTER
    ensures k + Expiries(s, acts, ts) <= MAX_MASTER ==>
              var j := k + Expiries(s, acts, ts);
              Sweeping(Run(s, acts, ts).0, ts, j) && Run(s, acts, ts).1 == Polls(ts, k + 1, j)
    ensures k + Expiries(s, acts, ts) > MAX_MASTER ==> DeclaredSole(s, acts, ts, k)
    decreases |acts|
  {
    hide Step, Sweeping, Expires, Unanswered, Polls, DeclaredSole;
    PlaceOf(s, ts, k);
    NoPolls(ts, k);
    if acts != [] {
      var s', out := Step(s, acts[0], ts).0, Step(s, acts[0], ts).1;
      SweepStep(s, acts[0], ts, k);
      if !Expires(s, acts[0]) {
        SweepRun(s', acts[1..], ts, k);
        var j := k + Expiries(s', acts[1..], ts);
        if j <= MAX_MASTER {
          assert [] + Polls(ts, k + 1, j) == Polls(ts, k + 1, j);
        } else {
          DeclaredLater(s, acts, ts, k, k);
        }
      } else if k < MAX_MASTER {
        SweepRun(s', acts[1..], ts, k + 1);
        var j := k + 1 + Expiries(s', acts[1..], ts);
        if j <= MAX_MASTER {
          FirstPoll(ts, k + 1, j);
        } else {
          NoPolls(ts, k + 1);
          FirstPoll(ts, k + 1, k + 1);
          DeclaredLater(s, acts, ts, k, k + 1);
        }
      } else {
        DeclaredNow(s, acts, ts);
      }
    }
  }

  /** At some point of the run the node has sent exactly the remaining polls and is sole master. */
  ghost predicate DeclaredSole(s: State, acts: seq<Action>, ts: octet, k: nat)
    requires k <= MAX_MASTER
  {
    exists n: nat :: n <= |acts| && SoleAt(s, acts, ts, k, n)
  }

  ghost predicate SoleAt(s: State, acts: seq<Action>, ts: octet, k: nat, n: nat)
    requires k <= MAX_MASTER && n <= |acts|
  {
    var (s', out) := Run(s, acts[..n], ts);
    s'.sole && s'.mode == UseToken && out == Polls(ts, k + 1, MAX_MASTER)
  }

  lemma NoPolls(ts: octet, k: nat)
    ensures Polls(ts, k + 1, k) == []
  {
  }

  lemma FirstPoll(ts: octet, a: nat, b: nat)
    requires a <= b
    ensures [Poll(ts, a)] + Polls(ts, a + 1, b) == Polls(ts, a, b)
  {
  }

  lemma PlaceOf(s: State, ts: octet, k: nat)
    requires Sweeping(s, ts, k)
    ensures 1 <= k <= MAX_MASTER
  {
  }

  lemma DeclaredNow(s: State, acts: seq<Action>, ts: octet)
    requires acts != []
    requires var (s', out) := Step(s, acts[0], ts); s'.sole && s'.mode == UseToken && out == []
    ensures DeclaredSole(s, acts, ts, MAX_MASTER)
  {
    hide Step;
    var one := acts[..1];
    assert one[1..] == [] && one[0] == acts[0];
    NoPolls(ts, MAX_MASTER);
    assert [acts[0]] + [] == one;
    FirstStep(s, acts[0], [], ts);
    assert SoleAt(s, acts, ts, MAX_MASTER, 1);
  }

  lemma DeclaredLater(s: State, acts: seq<Action>, ts: octet, k: nat, k': nat)
    requires acts != [] && k <= k' <= MAX_MASTER && k' <= k + 1
    requires DeclaredSole(Step(s, acts[0], ts).0, acts[1..], ts, k')
    requires Step(s, acts[0], ts).1 == Polls(ts, k + 1, k')
    ensures DeclaredSole(s, acts, ts, k)
  {
    hide Step, Polls;
    var s' := Step(s, acts[0], ts).0;
    var n: nat :| n <= |acts[1..]| && SoleAt(s', acts[1..], ts, k', n);
    var first := acts[..n + 1];
    assert first[1..] == acts[1..][..n] && first[0] == acts[0];
    PollsJoin(ts, k + 1, k', MAX_MASTER);
    assert SoleAt(s, acts, ts, k, n + 1);
  }

  lemma PollsJoin(ts: octet, a: nat, b: nat, c: nat)
    requires a <= b + 1 && b <= c
    ensures Polls(ts, a, b) + Polls(ts, b + 1, c) == Polls(ts, a, c)
  {
  }

  /** A node with an address past the last master's never ends its sweep. */
  lemma {:induction false} NeverSole(s: State, acts: seq<Action>, ts: octet)
    requires ts as int > MAX_MASTER && !s.sole
    ensures !Run(s, acts, ts).0.sole
    decreases |acts|
  {
    hide PassOf, Rank;
    if acts != [] {
      PassSound(s, ts);
      NeverSole(Step(s, acts[0], ts).0, acts[1..], ts);
    }
  }

  /** The event that ends a sweep visits five states when nothing is queued. */
  lemma FiveVisits(s: State, ts: octet)
    requires Sweeping(s, ts, MAX_MASTER) && s.busy && Expired(s) && ts as int <= MAX_MASTER
    requires s.tokens < POLL_INTERVAL - 1 && s.tx.len == 0
    ensures Run(s, [Visit, Visit, Visit, Visit], ts).0.busy && !Run(s, [Visit, Visit, Visit, Visit, Visit], ts).0.busy
  {
  }
}
