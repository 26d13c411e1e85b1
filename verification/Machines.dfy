/** Runs of a machine that consumes operations and broadcasts: facts that hold whatever the machine is. */
module Machines {
  import opened Basics

  /** A step of the machine of one name: from an entry that may be missing, to one and what it broadcasts. */
  type Machine<!S, !O> = (Option<S>, O) -> (Option<S>, seq<Broadcast>)

  /** The state after a run and everything broadcast on the way. */
  function RunOf<S, O>(step: (S, O) -> (S, seq<Broadcast>), s: S, ops: seq<O>): (S, seq<Broadcast>) {
    if ops == [] then (s, [])
    else
      var (s1, out) := RunOf(step, s, Front(ops));
      var (s2, more) := step(s1, Last(ops));
      (s2, out + more)
  }

  lemma {:induction false} RunConcat<S, O>(step: (S, O) -> (S, seq<Broadcast>), s: S, a: seq<O>, b: seq<O>)
    ensures var (s1, out1) := RunOf(step, s, a);
            var (s2, out2) := RunOf(step, s1, b);
            RunOf(step, s, a + b) == (s2, out1 + out2)
  {
    if b == [] {
      assert a + b == a;
      var out1 := RunOf(step, s, a).1;
      assert out1 + [] == out1;
    } else {
      assert Front(a + b) == a + Front(b) && Last(a + b) == Last(b);
      RunConcat(step, s, a, Front(b));
      var (s1, out1) := RunOf(step, s, a);
      var (s2, out2) := RunOf(step, s1, Front(b));
      var (_, more) := step(s2, Last(b));
      assert (out1 + out2) + more == out1 + (out2 + more);
    }
  }

  /** An operation that always leads to the same state without a broadcast cuts a run in two. */
  lemma RunCut<S, O>(step: (S, O) -> (S, seq<Broadcast>), s: S, before: seq<O>, cut: O, s0: S, after: seq<O>)
    requires forall s1 :: step(s1, cut) == (s0, [])
    ensures var (_, out1) := RunOf(step, s, before);
            var (s2, out2) := RunOf(step, s0, after);
            RunOf(step, s, before + [cut] + after) == (s2, out1 + out2)
  {
    assert Front(before + [cut]) == before && Last(before + [cut]) == cut;
    var (_, out1) := RunOf(step, s, before);
    assert out1 + [] == out1;
    RunConcat(step, s, before + [cut], after);
  }

  /** If no operation moves a state or makes it broadcast, no run does. */
  lemma {:induction false} RunStuck<S, O>(step: (S, O) -> (S, seq<Broadcast>), s: S, ops: seq<O>)
    requires forall i | 0 <= i < |ops| :: step(s, ops[i]) == (s, [])
    ensures RunOf(step, s, ops) == (s, [])
  {
    if ops == [] {
    } else {
      RunStuck(step, s, Front(ops));
      assert [] + step(s, Last(ops)).1 == [];
    }
  }

  /** An operation that takes the state of a run, silently, to one in which it is stuck ends the run's news. */
  lemma RunFrozen<S, O>(step: (S, O) -> (S, seq<Broadcast>), s: S, before: seq<O>, freeze: O, s0: S, after: seq<O>)
    requires step(RunOf(step, s, before).0, freeze) == (s0, [])
    requires forall i | 0 <= i < |after| :: step(s0, after[i]) == (s0, [])
    ensures RunOf(step, s, before + [freeze] + after) == (s0, RunOf(step, s, before).1)
  {
    assert Front(before + [freeze]) == before && Last(before + [freeze]) == freeze;
    var out1 := RunOf(step, s, before).1;
    assert out1 + [] == out1;
    RunConcat(step, s, before + [freeze], after);
    RunStuck(step, s0, after);
  }

  lemma RunOne<S, O>(step: (S, O) -> (S, seq<Broadcast>), s: S, op: O)
    ensures RunOf(step, s, [op]) == step(s, op)
  {
    assert Front([op]) == [];
    assert [] + step(s, op).1 == step(s, op).1;
  }

  lemma RunPair<S, O>(step: (S, O) -> (S, seq<Broadcast>), s: S, a: O, b: O)
    ensures var (s1, out1) := step(s, a);
            var (s2, out2) := step(s1, b);
            RunOf(step, s, [a, b]) == (s2, out1 + out2)
  {
    assert Front([a, b]) == [a] && Front([a]) == [];
    var (s1, out1) := step(s, a);
    assert [] + out1 == out1;
    assert RunOf(step, s, []) == (s, []);
    assert RunOf(step, s, [a]) == (s1, out1);
  }
}
