/**
 Giving every exit-free loop an exit edge that is never taken: the header is entered through a new block
 that branches on a constant.
 */
module BreakInfiniteLoops {
  import opened Common
  import opened Runs
  import opened Cfg

  /** Every block of a loop leads on, for the header is reached again from all of them. */
  ghost predicate IsLoop(g: Graph, body: set<Label>, header: Label) {
    header in body && body <= g.Keys && forall l | l in body :: Succs(g[l].term) != []
  }

  /** Some edge leaves the loop. */
  ghost predicate HasExit(g: Graph, body: set<Label>) {
    exists l, t | l in body && l in g && t in Succs(g[l].term) :: t !in body
  }

  function ExitBlock(): Block {
    Block([], Unreachable)
  }

  function Broken(g: Graph, header: Label, nb: Label, exitBB: Label): Graph {
    RedirectedIn(g, Preds(g, header), header,
                 nb)[exitBB := ExitBlock()][nb := Block([], Branch(AlwaysTrue, [header, exitBB]))]
  }

  /** The exit block is empty and only the constant branches lead there, on the side not taken. */
  ghost predicate Guarded(g: Graph, exitBB: Label) {
    && exitBB in g && g[exitBB] == ExitBlock()
    && forall l, k | l in g && 0 <= k < |Succs(g[l].term)| && Succs(g[l].term)[k] == exitBB :: k > 0
        && g[l].term.sel.AlwaysTrue?
  }

  /** One application of the pass: to a loop without exits, with fresh labels. */
  ghost predicate Applied(g: Graph, body: set<Label>, header: Label, exitBB: Label, nb: Label, g': Graph) {
    && IsLoop(g, body, header) && !HasExit(g, body)
    && nb !in LabelsOf(g) && nb != exitBB
    && (Guarded(g, exitBB) || exitBB !in LabelsOf(g))
    && g' == Broken(g, header, nb, exitBB)
  }

  /** The pass, which remembers the exit block it made for the function. */
  class Breaker {
    const f: Function
    var exitBB: Option<Label>

    ghost predicate Valid()
      reads this, f
    {
      WellFormed(f.blocks) && (exitBB.Some? ==> Guarded(f.blocks, exitBB.value))
    }

    constructor (f: Function)
      requires WellFormed(f.blocks)
      ensures Valid() && this.f == f && exitBB == None
    {
      this.f := f;
      exitBB := None;
    }

    /** Makes the exit block the first time it is asked for. */
    method GetExitBB() returns (l: Label)
      requires Valid()
      modifies this, f
      ensures Valid() && exitBB == Some(l)
      ensures old(exitBB).Some? ==> f.blocks == old(f.blocks) && exitBB == old(exitBB)
      ensures old(exitBB).None? ==> l !in LabelsOf(old(f.blocks)) && f.blocks == old(f.blocks)[l := ExitBlock()]
    {
      if exitBB.Some? {
        return exitBB.value;
      }
      var g := f.blocks;
      l := Fresh(LabelsOf(g));
      assert l !in LabelsOf(g);
      forall m, k | m in g && 0 <= k < |Succs(g[m].term)| ensures Succs(g[m].term)[k] != l {
        assert Succs(g[m].term)[k] in LabelsOf(g);
      }
      f.blocks := g[l := ExitBlock()];
      exitBB := Some(l);
    }

    method RunOnLoop(body: set<Label>, header: Label) returns (changed: bool)
      requires Valid() && IsLoop(f.blocks, body, header)
      modifies this, f
      ensures Valid()
      ensures changed <==> !HasExit(old(f.blocks), body)
      ensures changed <==> forall l, t | l in body && t in Succs(old(f.blocks)[l].term) :: t in body
      ensures !changed ==> f.blocks == old(f.blocks) && exitBB == old(exitBB)
      ensures changed ==> exitBB.Some? && exists nb :: Applied(old(f.blocks), body, header, exitBB.value, nb, f.blocks)
    {
      var g := f.blocks;
      var exits := ExitingBlocks(g, body);
      if exits != {} {
        ghost var l :| l in exits;
        return false;
      }
      assert !HasExit(g, body) by {
        forall l, t | l in body && t in Succs(g[l].term) ensures t in body {
          assert l !in exits;
        }
      }
      // the edges to the header, before the new block adds one
      var toChange := Preds(g, header);
      var labels := LabelsOf(g);
      var exit := GetExitBB();
      var nb := Fresh(labels + {exit});
      f.ReplaceSuccessors(toChange, header, nb);
      f.blocks := f.blocks[nb := Block([], Branch(AlwaysTrue, [header, exit]))];
      assert f.blocks == Broken(g, header, nb, exit);
      assert Applied(g, body, header, exit, nb, f.blocks);
      AppliedKeepsGuard(g, body, header, exit, nb, f.blocks);
      changed := true;
    }
  }

  /** The blocks of the loop with an edge out of it. */
  method ExitingBlocks(g: Graph, body: set<Label>) returns (exits: set<Label>)
    requires body <= g.Keys
    ensures exits == set l | l in body && exists t | t in Succs(g[l].term) :: t !in body
  {
    exits := {};
    var todo := body;
    while todo != {}
      invariant todo <= body
      invariant exits == set l | l in body && l !in todo && exists t | t in Succs(g[l].term) :: t !in body
      decreases todo
    {
      var l :| l in todo;
      var succs := Succs(g[l].term);
      var leaves := false;
      for k := 0 to |succs|
        invariant leaves <==> exists j | 0 <= j < k :: succs[j] !in body
      {
        leaves := leaves || succs[k] !in body;
      }
      if leaves {
        exits := exits + {l};
      }
      todo := todo - {l};
    }
  }

  lemma AppliedKeepsGuard(g: Graph, body: set<Label>, header: Label, exitBB: Label, nb: Label, g': Graph)
    requires Applied(g, body, header, exitBB, nb, g')
    ensures Guarded(g', exitBB)
    ensures HasExit(g', body + {nb}) && (WellFormed(g) ==> WellFormed(g'))
    ensures g.Keys <= g'.Keys
    ensures forall l | l in g' :: header in Succs(g'[l].term) <==> l == nb
  {
    OnlyThroughNew(g, header, exitBB, nb);
    assert g'[nb] == Block([], Branch(AlwaysTrue, [header, exitBB]));
    assert exitBB in Succs(g'[nb].term);
    forall l, k | l in g' && 0 <= k < |Succs(g'[l].term)| && Succs(g'[l].term)[k] == exitBB
      ensures k > 0 && g'[l].term.sel.AlwaysTrue?
    {
      if l != nb {
        BrokenBlock(g, header, exitBB, nb, l);
        var t := Succs(g[l].term)[k];
        assert t in Succs(g[l].term) && t == exitBB;
        assert exitBB in LabelsOf(g);
      }
    }
    if WellFormed(g) {
      forall l, t | l in g' && t in Succs(g'[l].term) ensures t in g' {
        if l != nb && l != exitBB {
          BrokenBlock(g, header, exitBB, nb, l);
          var k :| 0 <= k < |Succs(g'[l].term)| && Succs(g'[l].term)[k] == t;
          assert Succs(g[l].term)[k] in Succs(g[l].term);
        }
      }
    }
  }

  /** The header is entered through the new block only. */
  lemma OnlyThroughNew(g: Graph, header: Label, exitBB: Label, nb: Label)
    requires header in g && nb !in LabelsOf(g) && (Guarded(g, exitBB) || exitBB !in LabelsOf(g))
    ensures var g' := Broken(g, header, nb, exitBB);
            forall l | l in g' :: header in Succs(g'[l].term) <==> l == nb
  {
    var g' := Broken(g, header, nb, exitBB);
    assert header in LabelsOf(g);
    forall l | l in g' && l != nb && l != exitBB ensures header !in Succs(g'[l].term) {
      BrokenBlock(g, header, exitBB, nb, l);
      assert forall k | 0 <= k < |Succs(g'[l].term)| :: Succs(g'[l].term)[k] != header;
    }
    assert Succs(g'[nb].term)[0] == header;
  }

  lemma BrokenBlock(g: Graph, header: Label, exitBB: Label, nb: Label, l: Label)
    requires l in g && l != nb && nb !in LabelsOf(g) && (l == exitBB ==> g[l] == ExitBlock())
    ensures var g' := Broken(g, header, nb, exitBB);
            l in g' && g'[l] == Block(g[l].instrs, Redirected(g[l].term, header, nb)) && nb !in Succs(g[l].term)
  {
    if l !in Preds(g, header) {
      RedirectNothing(g[l].term, header, nb);
    }
    assert nb in Succs(g[l].term) ==> nb in LabelsOf(g);
  }

  // ---------------------------------------------------------------------------------------------
  // Nothing changes.

  function Erase<M>(header: Label, nb: Label, s: State<M>): State<M> {
    if s.At? && s.block == nb then s.(block := header) else s
  }

  /** The run stands at a block that exists and is not the exit block. */
  ghost predicate Home<M>(g: Graph, exitBB: Label, s: State<M>) {
    s.At? ==> s.block in g && s.block != exitBB
  }

  lemma HomeStep<M(!new), I(!new)>(sem: Sem<M, I>, g: Graph, exitBB: Label, s: State<M>, i: I)
    requires WellFormed(g) && (Guarded(g, exitBB) || exitBB !in LabelsOf(g)) && Home(g, exitBB, s)
    ensures Home(g, exitBB, Step(sem, g, s, i))
  {
    if s.At? {
      var e, t := Exec(sem, g[s.block].instrs, s.mem, s.slots, i), g[s.block].term;
      if e.Go? && t.Branch? && t.succs != [] {
        var k := Taken(sem, t.sel, |t.succs|, e.mem, e.slots, i);
        assert Succs(t)[k] in Succs(t);
      } else if e.Stop? {
        StopIsNotAt(sem, g[s.block].instrs, s.mem, s.slots, i);
      }
    }
  }

  /** The exit block is never reached. */
  lemma {:induction false} ExitNeverReached<M(!new), I(!new)>(sem: Sem<M, I>, g: Graph, exitBB: Label, s: State<M>,
                                                              ins: seq<I>)
    requires WellFormed(g) && (Guarded(g, exitBB) || exitBB !in LabelsOf(g)) && Home(g, exitBB, s)
    ensures Home(g, exitBB, Run(Stepper(sem, g), s, ins))
    decreases |ins|
  {
    if ins != [] {
      HomeStep(sem, g, exitBB, s, ins[0]);
      ExitNeverReached(sem, g, exitBB, Step(sem, g, s, ins[0]), ins[1..]);
    }
  }

  /** A redirected jump is the original one after erasure. */
  lemma RedirectedJump<M, I>(sem: Sem<M, I>, t: Terminator, header: Label, nb: Label, mem: M, slots: map<Slot, int>,
                             i: I)
    requires nb !in Succs(t)
    ensures Erase(header, nb, Jump(sem, Redirected(t, header, nb), mem, slots, i)) == Jump(sem, t, mem, slots, i)
  {
    if t.Branch? && t.succs != [] {
      var k := Taken(sem, t.sel, |t.succs|, mem, slots, i);
      assert t.succs[k] in t.succs;
    }
  }

  lemma AppliedStep<M(!new), I(!new)>(sem: Sem<M, I>, g: Graph, body: set<Label>, header: Label, exitBB: Label,
                                      nb: Label, g': Graph, s: State<M>, i: I)
    requires Applied(g, body, header, exitBB, nb, g') && WellFormed(g) && Home(g', exitBB, s)
    ensures Home(g', exitBB, Step(sem, g', s, i))
    ensures if s.At? && s.block == nb then Step(sem, g', s, i) == s.(block := header)
            else Erase(header, nb, Step(sem, g', s, i)) == Step(sem, g, s, i)
  {
    AppliedKeepsGuard(g, body, header, exitBB, nb, g');
    HomeStep(sem, g', exitBB, s, i);
    if s.At? && s.block == nb {
      ThroughNew(sem, g, header, exitBB, nb, s, i);
    } else if s.At? {
      BrokenStep(sem, g, header, exitBB, nb, s, i);
    }
  }

  lemma BrokenStep<M, I>(sem: Sem<M, I>, g: Graph, header: Label, exitBB: Label, nb: Label, s: State<M>, i: I)
    requires s.At? && s.block in g && s.block != nb && s.block != exitBB && nb !in LabelsOf(g)
    ensures Erase(header, nb, Step(sem, Broken(g, header, nb, exitBB), s, i)) == Step(sem, g, s, i)
  {
    BrokenBlock(g, header, exitBB, nb, s.block);
    var e := Exec(sem, g[s.block].instrs, s.mem, s.slots, i);
    if e.Go? {
      RedirectedJump(sem, g[s.block].term, header, nb, e.mem, e.slots, i);
    } else {
      StopIsNotAt(sem, g[s.block].instrs, s.mem, s.slots, i);
    }
  }

  ghost function AtHome<M>(g: Graph, exitBB: Label): State<M> -> bool {
    (s: State<M>) => Home(g, exitBB, s)
  }

  function AtNew<M>(nb: Label): State<M> -> bool {
    (s: State<M>) => s.At? && s.block == nb
  }

  function Erasing<M>(header: Label, nb: Label): State<M> -> State<M> {
    (s: State<M>) => Erase(header, nb, s)
  }

  function NewRank<M>(nb: Label): State<M> -> nat {
    (s: State<M>) => if s.At? && s.block == nb then 1 else 0
  }

  /** Erasing the new block gives exactly the original runs, at most one extra step for each original one. */
  lemma AppliedRefines<M(!new), I(!new)>(sem: Sem<M, I>, g: Graph, body: set<Label>, header: Label, exitBB: Label,
                                         nb: Label, g': Graph)
    requires Applied(g, body, header, exitBB, nb, g') && WellFormed(g)
    ensures Refines(Stepper(sem, g'), Stepper(sem, g), AtHome(g', exitBB), AtNew(nb), Erasing(header, nb), NewRank(nb))
  {
    var big := Stepper(sem, g');
    forall s: State<M>, i: I | Home(g', exitBB, s)
      ensures Home(g', exitBB, big(s, i))
      ensures if s.At? && s.block == nb
              then Erase(header, nb, big(s, i)) == Erase(header, nb, s) && !(big(s, i).At? && big(s, i).block == nb)
              else Erase(header, nb, big(s, i)) == Stepper(sem, g)(Erase(header, nb, s), i)
    {
      AppliedStep(sem, g, body, header, exitBB, nb, g', s, i);
    }
  }

  /** A state of the original function is one of the new function, and erases to itself. */
  lemma HomeKept<M>(g: Graph, body: set<Label>, header: Label, exitBB: Label, nb: Label, g': Graph, s: State<M>)
    requires Applied(g, body, header, exitBB, nb, g') && Home(g, exitBB, s)
    ensures Home(g', exitBB, s) && Erase(header, nb, s) == s
  {
    AppliedKeepsGuard(g, body, header, exitBB, nb, g');
  }

  /** One application reaches the same states of the original function. */
  lemma AppliedSameReach<M(!new), I(!new)>(sem: Sem<M, I>, g: Graph, body: set<Label>, header: Label, exitBB: Label,
                                           nb: Label, g': Graph, s: State<M>, r: State<M>)
    requires Applied(g, body, header, exitBB, nb, g') && WellFormed(g)
    requires Home(g, exitBB, s) && Home(g, exitBB, r)
    ensures Reaches(sem, g, s, r) <==> Reaches(sem, g', s, r)
  {
    HomeKept(g, body, header, exitBB, nb, g', s);
    HomeKept(g, body, header, exitBB, nb, g', r);
    if Reaches(sem, g, s, r) {
      var ins :| Run(Stepper(sem, g), s, ins) == r;
      AppliedReachesAgain(sem, g, body, header, exitBB, nb, g', s, ins);
    }
    if Reaches(sem, g', s, r) {
      var ins :| Run(Stepper(sem, g'), s, ins) == r;
      AppliedErases(sem, g, body, header, exitBB, nb, g', s, ins);
    }
  }

  lemma AppliedErases<M(!new), I(!new)>(sem: Sem<M, I>, g: Graph, body: set<Label>, header: Label, exitBB: Label,
                                        nb: Label, g': Graph, s: State<M>, ins: seq<I>)
    requires Applied(g, body, header, exitBB, nb, g') && WellFormed(g) && Home(g', exitBB, s)
    ensures Reaches(sem, g, Erase(header, nb, s), Erase(header, nb, Run(Stepper(sem, g'), s, ins)))
  {
    AppliedRefines(sem, g, body, header, exitBB, nb, g');
    ErasedRun(Stepper(sem, g'), Stepper(sem, g), AtHome(g', exitBB), AtNew(nb), Erasing(header, nb), NewRank(nb), s,
              ins);
  }

  lemma AppliedReachesAgain<M(!new), I(!new)>(sem: Sem<M, I>, g: Graph, body: set<Label>, header: Label,
                                              exitBB: Label, nb: Label, g': Graph, s: State<M>, ins: seq<I>)
    requires Applied(g, body, header, exitBB, nb, g') && WellFormed(g) && Home(g, exitBB, s) && Home(g', exitBB, s)
    ensures Reaches(sem, g', s, Run(Stepper(sem, g), s, ins))
  {
    var big, r := Stepper(sem, g'), Run(Stepper(sem, g), s, ins);
    AppliedRefines(sem, g, body, header, exitBB, nb, g');
    var padded := PaddedRun(big, Stepper(sem, g), AtHome(g', exitBB), AtNew(nb), Erasing(header, nb), NewRank(nb), 1,
                            s, ins);
    var there := Run(big, s, padded);
    assert Erase(header, nb, there) == r;
    if there != r {
      assert ins != [];
      RunSnoc(big, s, padded, ins[0]);
      assert there.At? && there.block == nb && r == there.(block := header);
      ThroughNew(sem, g, header, exitBB, nb, there, ins[0]);
      assert Run(big, s, padded + [ins[0]]) == r;
    }
  }

  /** The new block only leads to the header. */
  lemma ThroughNew<M, I>(sem: Sem<M, I>, g: Graph, header: Label, exitBB: Label, nb: Label, s: State<M>, i: I)
    requires s.At? && s.block == nb
    ensures Stepper(sem, Broken(g, header, nb, exitBB))(s, i) == s.(block := header)
  {
    assert Broken(g, header, nb, exitBB)[nb] == Block([], Branch(AlwaysTrue, [header, exitBB]));
  }

  ghost predicate AppliedOnce(g: Graph, exitBB: Label, g': Graph) {
    exists body, header, nb {:trigger Applied(g, body, header, exitBB, nb, g')} ::
      Applied(g, body, header, exitBB, nb, g')
  }

  /** Any number of applications, one after the other, to any loops of the function. */
  ghost predicate AppliedOverAndOver(gs: seq<Graph>, exitBB: Label) {
    gs != [] && forall k | 0 < k < |gs| :: AppliedOnce(gs[k - 1], exitBB, gs[k])
  }

  /**
   However often the pass is applied, the function reaches the same original states as at the start, and
   never the exit block.
   */
  lemma {:induction false} BreakingUnobservable<M(!new), I(!new)>(sem: Sem<M, I>, gs: seq<Graph>, exitBB: Label,
                                                                  s: State<M>, r: State<M>)
    requires AppliedOverAndOver(gs, exitBB) && WellFormed(gs[0]) && exitBB !in LabelsOf(gs[0])
    requires Home(gs[0], exitBB, s) && Home(gs[0], exitBB, r)
    ensures var last := gs[|gs| - 1];
            && WellFormed(last) && (Guarded(last, exitBB) || exitBB !in LabelsOf(last)) && gs[0].Keys <= last.Keys
            && (Reaches(sem, gs[0], s, r) <==> Reaches(sem, last, s, r))
            && forall ins :: Home(last, exitBB, Run(Stepper(sem, last), s, ins))
    decreases |gs|
  {
    var n := |gs| - 1;
    if n > 0 {
      BreakingUnobservable(sem, gs[..n], exitBB, s, r);
      var g, g' := gs[n - 1], gs[n];
      assert AppliedOnce(g, exitBB, g');
      var body, header, nb :| Applied(g, body, header, exitBB, nb, g');
      AppliedKeepsGuard(g, body, header, exitBB, nb, g');
      AppliedSameReach(sem, g, body, header, exitBB, nb, g', s, r);
    }
    forall ins ensures Home(gs[n], exitBB, Run(Stepper(sem, gs[n]), s, ins)) {
      ExitNeverReached(sem, gs[n], exitBB, s, ins);
    }
  }
}
