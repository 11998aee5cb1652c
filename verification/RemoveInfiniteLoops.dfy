/**
 Cutting off loops that can never be observed: from a block with such a loop behind it the run goes on
 forever without writing memory, calling or returning, and the pass makes it stop at once.
 */
module RemoveInfiniteLoops {
  import opened Common
  import opened Runs
  import opened Cfg

  predicate InstrSilent(i: Instr) {
    i.Op? && !i.writes && !i.calls
  }

  predicate BlockSilent(b: Block) {
    (forall k | 0 <= k < |b.instrs| :: InstrSilent(b.instrs[k])) && !b.term.Return?
  }

  /** The only block a terminator can lead to. */
  function UniqueSuccessor(t: Terminator): Option<Label> {
    var succs := Succs(t);
    if succs != [] && forall k | 0 <= k < |succs| :: succs[k] == succs[0] then Some(succs[0]) else None
  }

  /** Where a silent block leads, if there is no choice. */
  function Next(g: Graph, l: Label): Option<Label> {
    if l in g && BlockSilent(g[l]) then UniqueSuccessor(g[l].term) else None
  }

  function Chain(g: Graph, l: Label, n: nat): Option<Label> {
    if n == 0 then Some(l)
    else
      var before := Chain(g, l, n - 1);
      if before.None? then None else Next(g, before.value)
  }

  /** Silence never ends behind this block. */
  ghost predicate Endless(g: Graph, l: Label) {
    forall n: nat :: Chain(g, l, n).Some?
  }

  lemma {:induction false} ChainAdd(g: Graph, l: Label, a: nat, b: nat)
    requires Chain(g, l, a).Some?
    ensures Chain(g, l, a + b) == Chain(g, Chain(g, l, a).value, b)
    decreases b
  {
    if b > 0 {
      ChainAdd(g, l, a, b - 1);
      assert a + b - 1 == a + (b - 1);
    }
  }

  lemma {:induction false} ChainPrefix(g: Graph, l: Label, a: nat, b: nat)
    requires a <= b && Chain(g, l, b).Some?
    ensures Chain(g, l, a).Some?
    decreases b
  {
    if a < b {
      ChainPrefix(g, l, a, b - 1);
    }
  }

  /** Coming back to a block once means coming back forever. */
  lemma {:induction false} CycleIsEndless(g: Graph, l: Label, i: nat, j: nat, n: nat)
    requires i < j && Chain(g, l, i).Some? && Chain(g, l, j) == Chain(g, l, i)
    ensures Chain(g, l, n).Some?
    decreases n
  {
    if n <= j {
      ChainPrefix(g, l, n, j);
    } else {
      ChainAdd(g, l, j, n - j);
      ChainAdd(g, l, i, n - j);
      CycleIsEndless(g, l, i, j, i + (n - j));
    }
  }

  /** A block that does nothing but jump, and can jump to one block only. */
  predicate Idle(b: Block) {
    && (forall k | 0 <= k < |b.instrs| :: b.instrs[k].Op? && !b.instrs[k].writes && !b.instrs[k].calls)
    && b.term.Branch? && b.term.succs != []
    && forall j, k | 0 <= j < k < |b.term.succs| :: b.term.succs[j] == b.term.succs[k]
  }

  /** A block that writes, calls, returns, or has an instruction of another pass in it. */
  predicate Acts(b: Block) {
    b.term.Return? || exists k :: 0 <= k < |b.instrs| && (b.instrs[k].Op? ==> b.instrs[k].writes || b.instrs[k].calls)
  }

  predicate Edge(g: Graph, l: Label, t: Label) {
    l in g && t in Succs(g[l].term)
  }

  /** A way along the edges of a graph. */
  ghost predicate Walk(g: Graph, p: seq<Label>) {
    p != [] && forall k | 0 <= k < |p| - 1 :: Edge(g, p[k], p[k + 1])
  }

  /** Every way from here leads to an idle block. */
  ghost predicate OnlyIdleBehind(g: Graph, l: Label) {
    forall p | Walk(g, p) && p[0] == l :: p[|p| - 1] in g && Idle(g[p[|p| - 1]])
  }

  lemma {:induction false} EndlessWalk(g: Graph, p: seq<Label>)
    requires Walk(g, p) && Endless(g, p[0])
    ensures p[|p| - 1] in g && Idle(g[p[|p| - 1]])
    decreases |p|
  {
    var l := p[0];
    EndlessNext(g, l);
    assert Next(g, l).value == Succs(g[l].term)[0];
    if |p| > 1 {
      assert Edge(g, p[0], p[0 + 1]) && p[1] == Next(g, l).value;
      forall k | 0 <= k < |p[1..]| - 1 ensures Edge(g, p[1..][k], p[1..][k + 1]) {
        assert Edge(g, p[k + 1], p[k + 1 + 1]);
      }
      EndlessWalk(g, p[1..]);
    }
  }

  lemma {:induction false} IdleWalk(g: Graph, l: Label, n: nat) returns (p: seq<Label>)
    requires OnlyIdleBehind(g, l)
    ensures Walk(g, p) && p[0] == l && Chain(g, l, n) == Some(p[|p| - 1])
    decreases n
  {
    if n == 0 {
      p := [l];
    } else {
      p := IdleWalk(g, l, n - 1);
      var last := p[|p| - 1];
      assert Idle(g[last]) && BlockSilent(g[last]);
      p := p + [g[last].term.succs[0]];
    }
  }

  /** Silence never ends behind a block exactly if nothing but idle blocks can be reached from it. */
  lemma EndlessIff(g: Graph, l: Label)
    ensures Endless(g, l) <==> OnlyIdleBehind(g, l)
  {
    if Endless(g, l) {
      forall p | Walk(g, p) && p[0] == l ensures p[|p| - 1] in g && Idle(g[p[|p| - 1]]) {
        EndlessWalk(g, p);
      }
    }
    if OnlyIdleBehind(g, l) {
      forall n: nat ensures Chain(g, l, n).Some? {
        var p := IdleWalk(g, l, n);
      }
    }
  }

  /** Follows unique successors until a block is met twice or silence ends. */
  method IsLoop(g: Graph, block: Label) returns (r: bool)
    requires WellFormed(g) && block in g
    ensures r <==> Endless(g, block)
    ensures r <==> OnlyIdleBehind(g, block)
  {
    var visited := {block};
    var cur := block;
    ghost var n: nat := 0;
    while true
      invariant cur in visited && visited <= g.Keys && Chain(g, block, n) == Some(cur)
      invariant forall v | v in visited :: exists k: nat :: k <= n && Chain(g, block, k) == Some(v)
      decreases g.Keys - visited
    {
      for k := 0 to |g[cur].instrs|
        invariant forall j | 0 <= j < k :: InstrSilent(g[cur].instrs[j])
      {
        if !InstrSilent(g[cur].instrs[k]) {
          assert Chain(g, block, n + 1).None?;
          EndlessIff(g, block);
          return false;
        }
      }
      if g[cur].term.Return? || UniqueSuccessor(g[cur].term).None? {
        assert Chain(g, block, n + 1).None?;
        EndlessIff(g, block);
        return false;
      }
      ghost var last := cur;
      cur := UniqueSuccessor(g[cur].term).value;
      assert Next(g, last) == Some(cur) && cur in Succs(g[last].term);
      n := n + 1;
      assert Chain(g, block, n) == Some(cur);
      if cur in visited {
        ghost var k: nat :| k <= n - 1 && Chain(g, block, k) == Some(cur);
        forall m: nat ensures Chain(g, block, m).Some? {
          CycleIsEndless(g, block, k, n, m);
        }
        EndlessIff(g, block);
        return true;
      }
      visited := visited + {cur};
    }
  }

  function Stopped(b: Block): Block {
    Block(b.instrs + [AssumeZero], Unreachable)
  }

  ghost predicate IsRewritten(g: Graph, g': Graph) {
    && g'.Keys == g.Keys
    && forall l | l in g :: g'[l] == if Endless(g, l) then Stopped(g[l]) else g[l]
  }

  /** Every block from which one that acts can be reached is as before. */
  ghost predicate ActingUntouched(g: Graph, g': Graph) {
    forall p | Walk(g, p) && p[|p| - 1] in g && Acts(g[p[|p| - 1]]) ::
      p[0] in g && p[0] in g' && g'[p[0]] == g[p[0]]
  }

  lemma ActingNotRewritten(g: Graph, g': Graph)
    requires IsRewritten(g, g')
    ensures ActingUntouched(g, g')
  {
    forall p | Walk(g, p) && p[|p| - 1] in g && Acts(g[p[|p| - 1]])
      ensures p[0] in g && p[0] in g' && g'[p[0]] == g[p[0]]
    {
      EffectsSurvive(g, p);
    }
  }

  /** The pass: find all the blocks first, then rewrite them. */
  method RunOnFunction(f: Function) returns (changed: bool)
    requires WellFormed(f.blocks)
    modifies f
    ensures IsRewritten(old(f.blocks), f.blocks)
    ensures changed <==> exists l | l in old(f.blocks) :: Endless(old(f.blocks), l)
    ensures ActingUntouched(old(f.blocks), f.blocks)
  {
    var g := f.blocks;
    var toProcess: seq<Label> := [];
    var left := g.Keys;
    while left != {}
      invariant left <= g.Keys && f.blocks == g
      invariant forall l | l in toProcess :: l in g && l !in left && Endless(g, l)
      invariant forall l | l in g && l !in left && Endless(g, l) :: l in toProcess
      invariant forall i, j | 0 <= i < j < |toProcess| :: toProcess[i] != toProcess[j]
      decreases left
    {
      var l :| l in left;
      var loop := IsLoop(g, l);
      if loop {
        toProcess := toProcess + [l];
      }
      left := left - {l};
    }
    if toProcess == [] {
      ActingNotRewritten(g, g);
      return false;
    }
    for k := 0 to |toProcess|
      invariant f.blocks.Keys == g.Keys
      invariant forall l | l in g :: f.blocks[l] == if l in toProcess[..k] then Stopped(g[l]) else g[l]
    {
      var l := toProcess[k];
      assert l !in toProcess[..k];
      f.blocks := f.blocks[l := Stopped(f.blocks[l])];
    }
    assert toProcess[..|toProcess|] == toProcess;
    assert toProcess[0] in toProcess;
    ActingNotRewritten(g, f.blocks);
    changed := true;
  }

  // ---------------------------------------------------------------------------------------------
  // What is observable.

  /** Instructions that neither write nor call leave memory alone and let the program go on. */
  ghost predicate Respects<M(!new), I(!new)>(sem: Sem<M, I>, g: Graph) {
    forall l, k, m, i | l in g && 0 <= k < |g[l].instrs| && g[l].instrs[k].Op?
                        && !g[l].instrs[k].writes && !g[l].instrs[k].calls ::
      sem.op(g[l].instrs[k].code, m, i) == Some(m)
  }

  lemma {:induction false} SilentExec<M, I>(sem: Sem<M, I>, code: seq<Instr>, mem: M, slots: map<Slot, int>, i: I)
    requires forall k | 0 <= k < |code| :: InstrSilent(code[k]) && sem.op(code[k].code, mem, i) == Some(mem)
    ensures Exec(sem, code, mem, slots, i) == Go(mem, slots)
    decreases |code|
  {
    if code != [] {
      SilentExec(sem, code[1..], mem, slots, i);
    }
  }

  lemma EndlessNext(g: Graph, l: Label)
    requires Endless(g, l)
    ensures Next(g, l).Some? && Endless(g, Next(g, l).value)
  {
    assert Chain(g, l, 0) == Some(l);
    assert Chain(g, l, 1).Some?;
    forall n: nat ensures Chain(g, Next(g, l).value, n).Some? {
      ChainAdd(g, l, 1, n);
      assert Chain(g, l, 1 + n).Some?;
    }
  }

  lemma EndlessStep<M(!new), I(!new)>(sem: Sem<M, I>, g: Graph, l: Label, mem: M, slots: map<Slot, int>, i: I)
    requires Respects(sem, g) && Endless(g, l)
    ensures Next(g, l).Some? && Step(sem, g, At(l, mem, slots), i) == At(Next(g, l).value, mem, slots)
  {
    EndlessNext(g, l);
    forall k | 0 <= k < |g[l].instrs|
      ensures InstrSilent(g[l].instrs[k]) && sem.op(g[l].instrs[k].code, mem, i) == Some(mem) {
    }
    SilentExec(sem, g[l].instrs, mem, slots, i);
  }

  /**
   From a block the pass calls a loop every run is infinite, goes where the chain of unique successors
   leads, and leaves memory alone. With IsLoop's contract: that is so exactly for the blocks it accepts.
   */
  lemma {:induction false} EndlessRun<M(!new), I(!new)>(sem: Sem<M, I>, g: Graph, l: Label, mem: M,
                                                        slots: map<Slot, int>, ins: seq<I>)
    requires Respects(sem, g) && Endless(g, l)
    ensures Chain(g, l, |ins|).Some?
    ensures Run(Stepper(sem, g), At(l, mem, slots), ins) == At(Chain(g, l, |ins|).value, mem, slots)
    ensures Endless(g, Chain(g, l, |ins|).value)
    decreases |ins|
  {
    if ins != [] {
      EndlessNext(g, l);
      EndlessStep(sem, g, l, mem, slots, ins[0]);
      var next := Next(g, l).value;
      assert Chain(g, l, 0) == Some(l) && Chain(g, l, 1) == Some(next);
      ChainAdd(g, l, 1, |ins| - 1);
      assert 1 + (|ins| - 1) == |ins|;
      EndlessRun(sem, g, next, mem, slots, ins[1..]);
    }
  }

  ghost predicate Doomed<M>(g: Graph, s: State<M>) {
    s.At? && Endless(g, s.block)
  }

  /** Behind a rewritten block there is only a failed assumption. */
  lemma StoppedStep<M(!new), I(!new)>(sem: Sem<M, I>, g: Graph, g': Graph, s: State<M>, i: I)
    requires IsRewritten(g, g') && Respects(sem, g)
    ensures Step(sem, g', s, i) == if Doomed(g, s) then Cut else Step(sem, g, s, i)
  {
    if Doomed(g, s) {
      EndlessNext(g, s.block);
      var code := g[s.block].instrs;
      forall k | 0 <= k < |code| ensures InstrSilent(code[k]) && sem.op(code[k].code, s.mem, i) == Some(s.mem) {
      }
      SilentExec(sem, code, s.mem, s.slots, i);
      ExecAppend(sem, code, [AssumeZero], s.mem, s.slots, i);
    }
  }

  /** With the same inputs the rewritten function does the same, except that a run caught in an endless loop is cut. */
  lemma {:induction false} RewrittenRun<M(!new), I(!new)>(sem: Sem<M, I>, g: Graph, g': Graph, s: State<M>,
                                                          ins: seq<I>)
    requires IsRewritten(g, g') && Respects(sem, g)
    ensures var r, r' := Run(Stepper(sem, g), s, ins), Run(Stepper(sem, g'), s, ins);
            r' == r || (Doomed(g, r) && r' == Cut)
    decreases |ins|
  {
    if ins != [] {
      StoppedStep(sem, g, g', s, ins[0]);
      if Doomed(g, s) {
        EndlessStep(sem, g, s.block, s.mem, s.slots, ins[0]);
        EndlessNext(g, s.block);
        var next := Step(sem, g, s, ins[0]);
        EndlessRun(sem, g, next.block, next.mem, next.slots, ins[1..]);
        Finished(sem, g', Step(sem, g', s, ins[0]), ins[1..]);
      } else {
        RewrittenRun(sem, g, g', Step(sem, g, s, ins[0]), ins[1..]);
      }
    }
  }

  /**
   Removing the loops cannot be observed: the same runs return with the same memory, exit, or stand in
   front of the same block that is not an endless loop (so every write and call is reached alike).
   */
  lemma RemovalUnobservable<M(!new), I(!new)>(sem: Sem<M, I>, g: Graph, g': Graph, s: State<M>, r: State<M>,
                                              ins: seq<I>)
    requires IsRewritten(g, g') && Respects(sem, g) && !Doomed(g, r) && !r.Cut?
    ensures Run(Stepper(sem, g), s, ins) == r <==> Run(Stepper(sem, g'), s, ins) == r
  {
    RewrittenRun(sem, g, g', s, ins);
  }

  /** A block from which one that writes, calls or returns can be reached is never caught, nor is that one. */
  lemma EffectsSurvive(g: Graph, p: seq<Label>)
    requires Walk(g, p) && p[|p| - 1] in g && Acts(g[p[|p| - 1]])
    ensures p[0] in g && !Endless(g, p[0])
  {
    assert |p| > 1 ==> Edge(g, p[0], p[0 + 1]);
    EndlessIff(g, p[0]);
  }
}
