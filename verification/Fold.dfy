/**
  Left folds of an octet-at-a-time register over a buffer, and the facts about
  them that do not depend on which register is folded.
 */
module Fold {

  /** The register after clocking every octet of `data` into it, first octet first. */
  function Run<S>(step: (S, bv8) -> S, s: S, data: seq<bv8>): S
  {
    if data == [] then s else Run(step, step(s, data[0]), data[1..])
  }

  lemma {:induction false} RunAppend<S>(step: (S, bv8) -> S, s: S, a: seq<bv8>, b: seq<bv8>)
    ensures Run(step, s, a + b) == Run(step, Run(step, s, a), b)
  {
    if a == [] {
      assert a + b == b;
    } else {
      assert (a + b)[1..] == a[1..] + b;
      RunAppend(step, step(s, a[0]), a[1..], b);
    }
  }

  /** What one more iteration of a loop over the buffer does. */
  lemma RunNext<S>(step: (S, bv8) -> S, s: S, data: seq<bv8>, i: nat)
    requires i < |data|
    ensures Run(step, s, data[..i + 1]) == step(Run(step, s, data[..i]), data[i])
  {
    assert data[..i + 1] == data[..i] + [data[i]];
    RunAppend(step, s, data[..i], [data[i]]);
  }

  lemma RunTwo<S>(step: (S, bv8) -> S, r: S, w: seq<bv8>)
    requires |w| == 2
    ensures Run(step, r, w) == step(step(r, w[0]), w[1])
  {
    assert w[1..] == [w[1]] && [w[1]][1..] == [];
    assert Run(step, r, w) == Run(step, step(r, w[0]), [w[1]]);
  }

  lemma RunThree<S>(step: (S, bv8) -> S, r: S, w: seq<bv8>)
    requires |w| == 3
    ensures Run(step, r, w) == step(step(step(r, w[0]), w[1]), w[2])
  {
    var r1 := step(r, w[0]);
    var r2 := step(r1, w[1]);
    assert w[1..][1..] == [w[2]] && [w[2]][1..] == [];
    assert Run(step, r, w) == Run(step, r1, w[1..]) == Run(step, r2, [w[2]]);
  }

  ghost predicate InjectiveInState<S(!new)>(step: (S, bv8) -> S)
  {
    forall s, t, c :: step(s, c) == step(t, c) ==> s == t
  }

  ghost predicate InjectiveInOctet<S(!new)>(step: (S, bv8) -> S)
  {
    forall s, c, d :: step(s, c) == step(s, d) ==> c == d
  }

  lemma {:induction false} RunInjective<S(!new)>(step: (S, bv8) -> S, s: S, t: S, data: seq<bv8>)
    requires InjectiveInState(step)
    requires s != t
    ensures Run(step, s, data) != Run(step, t, data)
  {
    if data != [] {
      var c := data[0];
      assert step(s, c) != step(t, c);
      RunInjective(step, step(s, c), step(t, c), data[1..]);
    }
  }

  /** Replacing one octet of a buffer of any length always changes the final register. */
  lemma OneOctetChanges<S(!new)>(step: (S, bv8) -> S, s: S, data: seq<bv8>, k: nat, c: bv8)
    requires InjectiveInState(step) && InjectiveInOctet(step)
    requires k < |data| && c != data[k]
    ensures Run(step, s, data[k := c]) != Run(step, s, data)
  {
    var r := Run(step, s, data[..k]);
    var tail := data[k + 1..];
    assert data == data[..k] + ([data[k]] + tail);
    assert data[k := c] == data[..k] + ([c] + tail);
    RunAppend(step, s, data[..k], [data[k]] + tail);
    RunAppend(step, s, data[..k], [c] + tail);
    assert ([data[k]] + tail)[1..] == tail && ([c] + tail)[1..] == tail;
    assert step(r, data[k]) != step(r, c);
    RunInjective(step, step(r, data[k]), step(r, c), tail);
  }
}
