/**
  How much a node may send while it holds the token.
 */
module MstpBudget {
  import opened Octets
  import opened Mstp

  /** The node is using the token, waiting for a reply, or about to give the token up. */
  predicate Holding(s: State)
  {
    s.mode == UseToken || s.mode == DoneWithToken || s.mode == WaitForReply
  }

  /** Data frames the node may still send before a token or a poll goes out. A sole master gets
      a second turn when its token count is low. */
  function Allowance(s: State): nat
  {
    var turn := if s.sole && s.tokens < POLL_INTERVAL - 1 then MAX_INFO_FRAMES else 0;
    if s.mode == UseToken then MAX_INFO_FRAMES + turn else turn
  }

  function DataFrames(out: seq<Message>): nat
  {
    if out == [] then 0 else (if out[0].data then 1 else 0) + DataFrames(out[1..])
  }

  /** A token or poll that the node itself originates. */
  predicate GivesUp(out: seq<Message>)
  {
    exists m :: m in out && !m.data && (m.typ == TOKEN || m.typ == POLL_FOR_MASTER)
  }

  /** The run neither passes the token or polls, nor falls back to listening. */
  ghost predicate Keeps(s: State, acts: seq<Action>, ts: octet)
    decreases |acts|
  {
    acts == [] ||
    (var (s', out) := Step(s, acts[0], ts);
     !GivesUp(out) && s'.mode != Idle && Keeps(s', acts[1..], ts))
  }

  lemma GivesUpFirst(m: Message)
    ensures GivesUp([m]) <==> !m.data && (m.typ == TOKEN || m.typ == POLL_FOR_MASTER)
    ensures DataFrames([m]) == if m.data then 1 else 0
  {
    assert m in [m];
    assert [m][1..] == [];
  }

  lemma UseSpends(s: State, ts: octet)
    requires Budgeted(s) && s.mode == UseToken && s.busy
    ensures
      var (s', out) := Step(s, Visit, ts);
      Holding(s') && DataFrames(out) + Allowance(s') <= Allowance(s)
  {
    var out := Step(s, Visit, ts).1;
    if out != [] {
      GivesUpFirst(out[0]);
    }
  }

  lemma DoneSpends(s: State, ts: octet)
    requires Budgeted(s) && (s.mode == DoneWithToken || s.mode == WaitForReply) && s.busy
    ensures
      var (s', out) := Step(s, Visit, ts);
      !GivesUp(out) && s'.mode != Idle ==> Holding(s') && DataFrames(out) + Allowance(s') <= Allowance(s)
  {
    hide Next, Timer;
    NextDiffers(ts);
    var out := Step(s, Visit, ts).1;
    if out != [] {
      GivesUpFirst(out[0]);
    }
  }

  lemma BudgetStep(s: State, a: Action, ts: octet)
    requires Budgeted(s) && Holding(s)
    ensures
      var (s', out) := Step(s, a, ts);
      && Budgeted(s')
      && (!GivesUp(out) && s'.mode != Idle ==> Holding(s') && DataFrames(out) + Allowance(s') <= Allowance(s))
  {
    hide PassOf, GivesUp, Rank;
    if a == Visit && s.busy {
      PassSound(s, ts);
      if s.mode == UseToken {
        UseSpends(s, ts);
      } else {
        DoneSpends(s, ts);
      }
    }
  }

  lemma {:induction false} CountAppend(a: seq<Message>, b: seq<Message>)
    ensures DataFrames(a + b) == DataFrames(a) + DataFrames(b)
  {
    if a == [] {
      assert a + b == b;
    } else {
      assert (a + b)[1..] == a[1..] + b;
      CountAppend(a[1..], b);
    }
  }

  /** Along every run that holds on to the token, the data frames sent stay within the allowance. */
  lemma {:induction false} WithinAllowance(s: State, acts: seq<Action>, ts: octet)
    requires Budgeted(s) && Holding(s) && Keeps(s, acts, ts)
    ensures DataFrames(Run(s, acts, ts).1) <= Allowance(s)
    decreases |acts|
  {
    hide Step, Allowance, GivesUp, Budgeted, Holding;
    if acts != [] {
      var s' := Step(s, acts[0], ts).0;
      BudgetStep(s, acts[0], ts);
      WithinAllowance(s', acts[1..], ts);
      CountAppend(Step(s, acts[0], ts).1, Run(s', acts[1..], ts).1);
    }
  }

  /** In every run, after a token from another station at most one data frame leaves before the
      node sends a token or a poll or falls back to listening. */
  lemma ReceivedTokenBudget(ts: octet, clk: nat, before: seq<Action>, acts: seq<Action>)
    requires
      var s := Run(Initial(ts, clk), before, ts).0;
      && s.mode == Idle && s.busy && Step(s, Visit, ts).0.mode == UseToken
      && Keeps(Step(s, Visit, ts).0, acts, ts)
    ensures
      var s := Run(Initial(ts, clk), before, ts).0;
      DataFrames(Run(Step(s, Visit, ts).0, acts, ts).1) <= MAX_INFO_FRAMES
  {
    hide Run, Keeps, Timer;
    var s := Run(Initial(ts, clk), before, ts).0;
    InitialSafe(ts, clk);
    RunBudgeted(Initial(ts, clk), before, ts);
    IdleSound(s, ts);
    WithinAllowance(Step(s, Visit, ts).0, acts, ts);
  }

  /** In every run a sole master sends at most two between polls. */
  lemma SoleMasterBudget(ts: octet, clk: nat, before: seq<Action>, acts: seq<Action>)
    requires
      var s := Run(Initial(ts, clk), before, ts).0;
      Holding(s) && s.sole && Keeps(s, acts, ts)
    ensures DataFrames(Run(Run(Initial(ts, clk), before, ts).0, acts, ts).1) <= 2 * MAX_INFO_FRAMES
  {
    hide Run, Keeps;
    InitialSafe(ts, clk);
    RunBudgeted(Initial(ts, clk), before, ts);
    WithinAllowance(Run(Initial(ts, clk), before, ts).0, acts, ts);
  }
}
