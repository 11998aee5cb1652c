/**
 Unrolling the outer loop of a nest after the inner one. The pass does not tell the loop analysis of the
 copies it makes, so the outer loop is unrolled without the copies of the inner loop, which keep leading to
 the first copy of the outer loop. Without a limit no harm is done; a limit on the outer loop is not kept.
 */
module UnrollingNest {
  import opened Common
  import opened Runs
  import opened Cfg
  import opened Unrolling

  function Plain(succs: seq<Label>): Block {
    Block([], Branch(ByCode(0), succs))
  }

  /** The outer loop is 1, 2, 3, 4 with header 1; the inner loop is 2, 3 with header 2. */
  const NEST: Graph := map[
    1 := Plain([2, 5]), 2 := Plain([3, 4]), 3 := Plain([2]), 4 := Plain([1]), 5 := Block([], Return)]

  const OUTER: seq<Label> := [1, 2, 3, 4]
  const INNER: seq<Label> := [2, 3]

  /** The inner loop unrolled twice, with a limit: its copy is 6, 7. */
  const INNER_DONE: Graph := map[
    1 := Plain([2, 5]), 2 := Plain([3, 4]), 3 := Plain([6]), 4 := Plain([1]), 5 := Block([], Return),
    6 := Plain([7, 4]), 7 := Plain([8]), 8 := Block([AssumeZero], Unreachable)]

  const INNER_COPIES: seq<seq<Label>> := [INNER, [6, 7]]

  lemma NestWellFormed()
    ensures WellFormed(NEST) && WellFormed(INNER_DONE)
  {
  }

  lemma InnerBlock(k: nat, j: nat)
    requires k < 2 && j < 2 && Copies(NEST, INNER, INNER_COPIES)
    ensures BlockUnrolled(NEST, INNER, INNER_COPIES, 8, INNER_DONE, k, j)
  {
    assert IndexOf(INNER, 3) == 1;
    assert INNER_COPIES[0] == INNER && INNER_COPIES[1] == [6, 7];
    if j == 0 {
      assert INNER[j] == 2;
      assert TermUnrolled(INNER, INNER_COPIES, 8, k, NEST[2].term, INNER_DONE[INNER_COPIES[k][0]].term);
    } else {
      assert INNER[j] == 3;
      assert TermUnrolled(INNER, INNER_COPIES, 8, k, NEST[3].term, INNER_DONE[INNER_COPIES[k][1]].term);
    }
  }

  /** What the pass makes of the inner loop. */
  lemma InnerUnrolled()
    ensures Unrolled(NEST, INNER, INNER_COPIES, 8, INNER_DONE) && Terminates(INNER_DONE, 8)
  {
    assert Copies(NEST, INNER, INNER_COPIES);
    forall k, j | 0 <= k < 2 && 0 <= j < 2 ensures BlockUnrolled(NEST, INNER, INNER_COPIES, 8, INNER_DONE, k, j) {
      InnerBlock(k, j);
    }
  }

  /** The copy of the inner loop enters the outer loop in its middle. */
  lemma OuterEnteredTwice()
    ensures SingleEntry(NEST, OUTER) && !SingleEntry(INNER_DONE, OUTER)
  {
    var t := INNER_DONE[6].term;
    assert Succs(t) == [7, 4] && Succs(t)[1] == 4 && OUTER[3] == 4;
    assert 6 in INNER_DONE && 6 !in OUTER && 4 in Succs(t) && 4 in OUTER && 4 != OUTER[0];
  }

  /** Once round the outer loop, by way of one round of the inner loop. */
  const ROUND: seq<nat> := [0, 0, 0, 1, 0]

  /** What a sequence of inputs keeps, any number of repetitions of it keeps. */
  lemma {:induction false} RepeatedRun<S(!new), I>(step: (S, I) -> S, s: S, seg: seq<I>, n: nat, inv: S -> bool)
    requires inv(s) && forall t | inv(t) :: inv(Run(step, t, seg))
    ensures inv(Run(step, s, Repeat(seg, n)))
  {
    if n > 0 {
      RepeatedRun(step, s, seg, n - 1, inv);
      RunAppend(step, s, Repeat(seg, n - 1), seg);
    }
  }

  /** One step from a block without instructions. */
  lemma PlainStep(l: Label, i: nat)
    requires l in INNER_DONE && INNER_DONE[l].instrs == [] && Succs(INNER_DONE[l].term) != []
    requires INNER_DONE[l].term.sel == ByCode(0) && i < |Succs(INNER_DONE[l].term)|
    ensures Step(Free(), INNER_DONE, At(l, (), map[]), i) == At(Succs(INNER_DONE[l].term)[i], (), map[])
  {
  }

  /** The round passes the outer header, and the count of rounds starts again on the way. */
  lemma RoundCounted(rounds: nat)
    ensures CountedRun(Free(), INNER_DONE, OUTER, Counted(At(1, (), map[]), rounds), ROUND) ==
            Counted(At(1, (), map[]), 1)
  {
    PlainStep(1, 0);
    PlainStep(2, 0);
    PlainStep(3, 0);
    PlainStep(6, 1);
    PlainStep(4, 0);
    var c1 := CountedStep(Free(), INNER_DONE, OUTER, Counted(At(1, (), map[]), rounds), 0);
    assert c1 == Counted(At(2, (), map[]), rounds);
    var c2 := CountedStep(Free(), INNER_DONE, OUTER, c1, 0);
    var c3 := CountedStep(Free(), INNER_DONE, OUTER, c2, 0);
    assert c3 == Counted(At(6, (), map[]), 0);
    var c4 := CountedStep(Free(), INNER_DONE, OUTER, c3, 1);
    var c5 := CountedStep(Free(), INNER_DONE, OUTER, c4, 0);
    assert c5 == Counted(At(1, (), map[]), 1);
    assert ROUND[1..] == [0, 0, 1, 0] && [0, 0, 1, 0][1..] == [0, 1, 0] && [0, 1, 0][1..] == [1, 0];
    assert [1, 0][1..] == [0] && [0][1..] == [];
  }

  /** On that way no back edge of the outer loop follows another one. */
  lemma RoundKept(n: nat, rounds: nat)
    requires n > 1 && rounds < n
    ensures ExceedsAfter(Free(), INNER_DONE, OUTER, n, Counted(At(1, (), map[]), rounds), ROUND) == None
  {
    PlainStep(1, 0);
    PlainStep(2, 0);
    PlainStep(3, 0);
    PlainStep(6, 1);
    PlainStep(4, 0);
    assert ROUND[1..] == [0, 0, 1, 0] && [0, 0, 1, 0][1..] == [0, 1, 0] && [0, 1, 0][1..] == [1, 0];
    assert [1, 0][1..] == [0] && [0][1..] == [];
    var c1 := CountedStep(Free(), INNER_DONE, OUTER, Counted(At(1, (), map[]), rounds), 0);
    var c2 := CountedStep(Free(), INNER_DONE, OUTER, c1, 0);
    var c3 := CountedStep(Free(), INNER_DONE, OUTER, c2, 0);
    var c4 := CountedStep(Free(), INNER_DONE, OUTER, c3, 1);
    var c5 := CountedStep(Free(), INNER_DONE, OUTER, c4, 0);
    assert ExceedsAfter(Free(), INNER_DONE, OUTER, n, c5, []) == None;
    assert ExceedsAfter(Free(), INNER_DONE, OUTER, n, c4, [0]) == None;
    assert ExceedsAfter(Free(), INNER_DONE, OUTER, n, c3, [1, 0]) == None;
    assert ExceedsAfter(Free(), INNER_DONE, OUTER, n, c2, [0, 1, 0]) == None;
    assert ExceedsAfter(Free(), INNER_DONE, OUTER, n, c1, [0, 0, 1, 0]) == None;
  }

  /** After a round the unrolled function is in step with the function before, and its first copy is due. */
  lemma RoundStays(copies: seq<seq<Label>>, last: Label, g': Graph, rounds: nat, s: State<()>)
    requires Unrolled(INNER_DONE, OUTER, copies, last, g') && Terminates(g', last) && |copies| > 1
    requires rounds < |copies| && InCopy(INNER_DONE, OUTER, copies, Counted(At(1, (), map[]), rounds), s)
    ensures InCopy(INNER_DONE, OUTER, copies, Counted(At(1, (), map[]), 1), Run(Stepper(Free(), g'), s, ROUND))
  {
    var c := Counted(At(1, (), map[]), rounds);
    NestWellFormed();
    RoundCounted(rounds);
    RoundKept(|copies|, rounds);
    BoundedUnrollingExact(Free(), INNER_DONE, OUTER, copies, last, g', c, s, ROUND);
  }

  /** The same inputs lead the function before once round as well. */
  lemma RoundReturns()
    ensures Run(Stepper(Free(), INNER_DONE), At(1, (), map[]), ROUND) == At(1, (), map[])
  {
    RoundCounted(0);
    CountedIsRun(Free(), INNER_DONE, OUTER, Counted(At(1, (), map[]), 0), ROUND);
  }

  lemma RoundsReturn(n: nat)
    ensures Run(Stepper(Free(), INNER_DONE), At(1, (), map[]), Repeat(ROUND, n)) == At(1, (), map[])
  {
    RoundReturns();
    RepeatedRun(Stepper(Free(), INNER_DONE), At(1, (), map[]), ROUND, n, (s: State<()>) => s == At(1, (), map[]));
  }

  /** The run stands at some copy of the outer header, and no limit is in sight. */
  ghost predicate GoesOn(copies: seq<seq<Label>>, last: Label, g': Graph, s: State<()>) {
    && Unrolled(INNER_DONE, OUTER, copies, last, g') && Terminates(g', last) && |copies| > 1
    && exists rounds: nat :: rounds < |copies| &&
                             InCopy(INNER_DONE, OUTER, copies, Counted(At(1, (), map[]), rounds), s)
  }

  lemma GoesOnRound(copies: seq<seq<Label>>, last: Label, g': Graph, s: State<()>)
    requires GoesOn(copies, last, g', s)
    ensures GoesOn(copies, last, g', Run(Stepper(Free(), g'), s, ROUND))
  {
    var rounds: nat :| rounds < |copies| && InCopy(INNER_DONE, OUTER, copies, Counted(At(1, (), map[]), rounds), s);
    RoundStays(copies, last, g', rounds, s);
  }

  lemma GoesOnOrigin(copies: seq<seq<Label>>, last: Label, g': Graph, s: State<()>)
    requires GoesOn(copies, last, g', s)
    ensures ReadBack(OUTER, copies, s) == At(1, (), map[])
  {
    var rounds: nat :| rounds < |copies| && InCopy(INNER_DONE, OUTER, copies, Counted(At(1, (), map[]), rounds), s);
    InCopyOrigin(INNER_DONE, OUTER, copies, Counted(At(1, (), map[]), rounds), s);
  }

  lemma GoesOnForever(copies: seq<seq<Label>>, last: Label, g': Graph, s: State<()>, n: nat)
    requires GoesOn(copies, last, g', s)
    ensures GoesOn(copies, last, g', Run(Stepper(Free(), g'), s, Repeat(ROUND, n)))
  {
    ghost var goesOn := (t: State<()>) => GoesOn(copies, last, g', t);
    forall t | goesOn(t) ensures goesOn(Run(Stepper(Free(), g'), t, ROUND)) {
      GoesOnRound(copies, last, g', t);
    }
    RepeatedRun(Stepper(Free(), g'), s, ROUND, n, goesOn);
  }

  lemma StartGoesOn(copies: seq<seq<Label>>, last: Label, g': Graph)
    requires Unrolled(INNER_DONE, OUTER, copies, last, g') && Terminates(g', last) && |copies| > 1
    ensures GoesOn(copies, last, g', At(1, (), map[]))
  {
    assert InCopy(INNER_DONE, OUTER, copies, Counted(At(1, (), map[]), 0), At(1, (), map[]));
  }

  /**
   However often the outer loop is unrolled, with a limit, it can be gone round any number of times: the run
   stays in step with one of the function before, and passes the outer header every time.
   */
  lemma OuterLimitNotKept(copies: seq<seq<Label>>, last: Label, g': Graph, n: nat)
    requires Unrolled(INNER_DONE, OUTER, copies, last, g') && Terminates(g', last) && |copies| > 1
    ensures Run(Stepper(Free(), INNER_DONE), At(1, (), map[]), Repeat(ROUND, n)) == At(1, (), map[])
    ensures ReadBack(OUTER, copies, Run(Stepper(Free(), g'), At(1, (), map[]), Repeat(ROUND, n))) == At(1, (), map[])
  {
    RoundsReturn(n);
    StartGoesOn(copies, last, g');
    GoesOnForever(copies, last, g', At(1, (), map[]), n);
    GoesOnOrigin(copies, last, g', Run(Stepper(Free(), g'), At(1, (), map[]), Repeat(ROUND, n)));
  }
}
