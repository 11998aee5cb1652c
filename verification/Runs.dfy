/**
 Runs of a transition system under a finite sequence of environment inputs, and the two generic
 facts every program transformation below is proved with: a run of the transformed system erases
 to a run of the original one, and every run of the original one is the erasure of some run of the
 transformed one.
 */
module Runs {

  function Run<S, I>(step: (S, I) -> S, s: S, ins: seq<I>): S
    decreases |ins|
  {
    if ins == [] then s else Run(step, step(s, ins[0]), ins[1..])
  }

  lemma {:induction false} RunAppend<S, I>(step: (S, I) -> S, s: S, a: seq<I>, b: seq<I>)
    ensures Run(step, s, a + b) == Run(step, Run(step, s, a), b)
    decreases |a|
  {
    if a == [] {
      assert a + b == b;
    } else {
      assert (a + b)[0] == a[0] && (a + b)[1..] == a[1..] + b;
      RunAppend(step, step(s, a[0]), a[1..], b);
    }
  }

  lemma RunSnoc<S, I>(step: (S, I) -> S, s: S, a: seq<I>, i: I)
    ensures Run(step, s, a + [i]) == step(Run(step, s, a), i)
  {
    RunAppend(step, s, a, [i]);
    assert [i][1..] == [];
    assert Run(step, Run(step, s, a), [i]) == Run(step, step(Run(step, s, a), i), [i][1..]);
  }

  /** The inputs that reach the original system: those read in a silent state are dropped. */
  function Keep<S, I>(step: (S, I) -> S, silent: S -> bool, s: S, ins: seq<I>): seq<I>
    decreases |ins|
  {
    if ins == [] then []
    else (if silent(s) then [] else [ins[0]]) + Keep(step, silent, step(s, ins[0]), ins[1..])
  }

  lemma {:induction false} KeepAppend<S, I>(step: (S, I) -> S, silent: S -> bool, s: S, a: seq<I>, b: seq<I>)
    ensures Keep(step, silent, s, a + b) == Keep(step, silent, s, a) + Keep(step, silent, Run(step, s, a), b)
    decreases |a|
  {
    if a == [] {
      assert a + b == b;
    } else {
      assert (a + b)[0] == a[0] && (a + b)[1..] == a[1..] + b;
      KeepAppend(step, silent, step(s, a[0]), a[1..], b);
    }
  }

  /**
   One step of `big` is one step of `small` after erasure, except in a silent state, where the
   erasure does not move and `rank` goes down (so that silence ends).
   */
  ghost predicate Refines<S(!new), T, I(!new)>(big: (S, I) -> S, small: (T, I) -> T,
                                               inv: S -> bool, silent: S -> bool,
                                               erase: S -> T, rank: S -> nat)
  {
    forall s, i :: inv(s) ==> && inv(big(s, i))
                              && if silent(s)
                                 then erase(big(s, i)) == erase(s) && rank(big(s, i)) < rank(s)
                                 else erase(big(s, i)) == small(erase(s), i)
  }

  lemma {:induction false} ErasedRun<S(!new), T, I(!new)>(big: (S, I) -> S, small: (T, I) -> T,
                                                           inv: S -> bool, silent: S -> bool,
                                                           erase: S -> T, rank: S -> nat,
                                                           s: S, ins: seq<I>)
    requires Refines(big, small, inv, silent, erase, rank) && inv(s)
    ensures inv(Run(big, s, ins))
    ensures erase(Run(big, s, ins)) == Run(small, erase(s), Keep(big, silent, s, ins))
    decreases |ins|
  {
    if ins != [] {
      var s' := big(s, ins[0]);
      ErasedRun(big, small, inv, silent, erase, rank, s', ins[1..]);
      var rest := Keep(big, silent, s', ins[1..]);
      if silent(s) {
        assert [] + rest == rest;
      } else {
        assert ([ins[0]] + rest)[1..] == rest;
      }
    }
  }

  /** Every input sequence of the original system can be padded to one of the transformed system. */
  lemma {:induction false} PaddedRun<S(!new), T, I(!new)>(big: (S, I) -> S, small: (T, I) -> T,
                                                           inv: S -> bool, silent: S -> bool,
                                                           erase: S -> T, rank: S -> nat, bound: nat,
                                                           s: S, ins: seq<I>)
    returns (padded: seq<I>)
    requires Refines(big, small, inv, silent, erase, rank) && inv(s)
    requires forall t :: inv(t) ==> rank(t) <= bound
    ensures Keep(big, silent, s, padded) == ins
    ensures erase(Run(big, s, padded)) == Run(small, erase(s), ins)
    ensures |padded| <= |ins| * (bound + 1)
    ensures ins != [] ==> |padded| <= (|ins| - 1) * (bound + 1) + rank(s) + 1
    decreases |ins|, rank(s)
  {
    if ins == [] {
      padded := [];
    } else {
      var s' := big(s, ins[0]);
      if silent(s) {
        var rest := PaddedRun(big, small, inv, silent, erase, rank, bound, s', ins);
        padded := [ins[0]] + rest;
        assert padded[1..] == rest;
      } else {
        var rest := PaddedRun(big, small, inv, silent, erase, rank, bound, s', ins[1..]);
        padded := [ins[0]] + rest;
        assert padded[1..] == rest;
        assert |rest| <= |ins[1..]| * (bound + 1) == (|ins| - 1) * (bound + 1);
      }
      assert (|ins| - 1) * (bound + 1) + (bound + 1) == |ins| * (bound + 1);
      ErasedRun(big, small, inv, silent, erase, rank, s, padded);
    }
  }
}
