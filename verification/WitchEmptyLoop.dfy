/**
 Loops without variables, which the pass does not instrument with checks but marks as infinite: when that
 is right, and when it is not.
 */
module WitchEmptyLoop {
  import opened Common
  import opened Ir
  import opened Runs
  import opened WitchCheck
  import opened WitchInstrument
  import opened WitchMonitor
  import opened WitchTheorems

  /** A marked loop reports whenever its header is entered. */
  lemma EmptyLoopReports(env: Env, P: Program, d: nat, blocks: map<Label, Block>, body: set<Label>, header: Label,
                         m: Memory)
    requires header in blocks
    ensures LoopStepper(env, P, d, MarkedEmpty(blocks, header), body)(At(header, m), []) == Reported
  {
    var mark, code := Call(0, Some(INFINITE_LOOP), []), blocks[header].instrs;
    assert ([mark] + code)[0] == mark;
    assert ExecInstr(env, P, d, mark, map[], m, []) == Alarm([]);
  }

  /**
   That is right if the loop can come back to its header once, from any memory at all: then it can run
   forever from every memory.
   */
  lemma EmptyLoopRunsForever(env: Env, P: Program, d: nat, blocks: map<Label, Block>, body: set<Label>, header: Label,
                             m: Memory, seg: seq<seq<int>>, back: Memory, entered: Memory, n: nat)
    requires body <= blocks.Keys && LoopAccepted(P, blocks, body) && Assumed(P, blocks, body) && header in body
    requires LoopUses(P, blocks, body) == {}
    requires seg != [] && Run(LoopStepper(env, P, d, blocks, body), At(header, m), seg) == At(header, back)
    ensures Run(LoopStepper(env, P, d, blocks, body), At(header, entered), Cycle(seg, n)).At?
  {
    RepeatedStateRunsForever(env, P, d, blocks, body, header, m, seg, back, n);
    AcceptedRunFrame(env, P, d, blocks, body, header, m, entered, Cycle(seg, n));
  }

  // ---------------------------------------------------------------------------------------------
  // Exactly when a loop without variables can run forever.

  /** Some run from the header is still inside after so many blocks. */
  ghost predicate CanStay(env: Env, P: Program, d: nat, blocks: map<Label, Block>, body: set<Label>, header: Label,
                          m: Memory, n: nat) {
    exists ins :: |ins| == n && Run(LoopStepper(env, P, d, blocks, body), At(header, m), ins).At?
  }

  /** After some inputs, others repeated without end keep the run inside. */
  ghost predicate StaysForever(env: Env, P: Program, d: nat, blocks: map<Label, Block>, body: set<Label>,
                               header: Label, m: Memory, pre: seq<seq<int>>, seg: seq<seq<int>>) {
    seg != [] && forall n: nat :: Run(LoopStepper(env, P, d, blocks, body), At(header, m), pre + Cycle(seg, n)).At?
  }

  ghost predicate CanStayForever(env: Env, P: Program, d: nat, blocks: map<Label, Block>, body: set<Label>,
                                 header: Label, m: Memory) {
    exists pre, seg :: StaysForever(env, P, d, blocks, body, header, m, pre, seg)
  }

  /** A run that is still inside has been inside all the time. */
  lemma PrefixStays(env: Env, P: Program, d: nat, blocks: map<Label, Block>, body: set<Label>, s: LoopState,
                    ins: seq<seq<int>>, k: nat)
    requires k <= |ins| && Run(LoopStepper(env, P, d, blocks, body), s, ins).At?
    ensures Run(LoopStepper(env, P, d, blocks, body), s, ins[..k]).At?
  {
    var step := LoopStepper(env, P, d, blocks, body);
    assert ins[..k] + ins[k..] == ins;
    RunAppend(step, s, ins[..k], ins[k..]);
    if !Run(step, s, ins[..k]).At? {
      Stuck(env, P, d, blocks, body, Run(step, s, ins[..k]), ins[k..]);
    }
  }

  /** More labels than there are in a set: one comes twice. */
  lemma {:induction false} Pigeonhole(xs: seq<Label>, all: set<Label>) returns (i: nat, j: nat)
    requires |xs| > |all| && forall x | x in xs :: x in all
    ensures i < j < |xs| && xs[i] == xs[j]
    decreases |xs|
  {
    var n := |xs| - 1;
    if k: nat :| k < n && xs[k] == xs[n] {
      i, j := k, n;
    } else {
      forall x | x in xs[..n] ensures x in all - {xs[n]} {
        var k :| 0 <= k < n && xs[k] == x;
      }
      assert xs[n] in all;
      i, j := Pigeonhole(xs[..n], all - {xs[n]});
    }
  }

  /** A run with as many steps as the loop has blocks comes to some block twice. */
  lemma ComesTwice(env: Env, P: Program, d: nat, blocks: map<Label, Block>, body: set<Label>, header: Label,
                   m: Memory, ins: seq<seq<int>>) returns (i: nat, j: nat)
    requires body <= blocks.Keys && LoopAccepted(P, blocks, body) && Assumed(P, blocks, body) && header in body
    requires |ins| == |body| && Run(LoopStepper(env, P, d, blocks, body), At(header, m), ins).At?
    ensures i < j <= |ins|
    ensures var step := LoopStepper(env, P, d, blocks, body);
            var a, b := Run(step, At(header, m), ins[..i]), Run(step, At(header, m), ins[..j]);
            a.At? && b.At? && a.block == b.block && a.block in body
  {
    var step := LoopStepper(env, P, d, blocks, body);
    forall k | 0 <= k <= |ins|
      ensures Run(step, At(header, m), ins[..k]).At? && Run(step, At(header, m), ins[..k]).block in body
    {
      PrefixStays(env, P, d, blocks, body, At(header, m), ins, k);
      AcceptedRunFrame(env, P, d, blocks, body, header, m, m, ins[..k]);
    }
    var visited := seq(|ins| + 1, k requires 0 <= k <= |ins| => BlockOf(Run(step, At(header, m), ins[..k])));
    i, j := Pigeonhole(visited, body);
  }

  function BlockOf(s: LoopState): Label {
    if s.At? then s.block else 0
  }

  /** From there on, what was in between can be repeated without end. */
  lemma TwiceIsForever(env: Env, P: Program, d: nat, blocks: map<Label, Block>, body: set<Label>, header: Label,
                       m: Memory, ins: seq<seq<int>>, i: nat, j: nat, entered: Memory)
    requires body <= blocks.Keys && LoopAccepted(P, blocks, body) && Assumed(P, blocks, body) && header in body
    requires LoopUses(P, blocks, body) == {} && i < j <= |ins|
    requires var step := LoopStepper(env, P, d, blocks, body);
             var a, b := Run(step, At(header, m), ins[..i]), Run(step, At(header, m), ins[..j]);
             a.At? && b.At? && a.block == b.block && a.block in body
    ensures StaysForever(env, P, d, blocks, body, header, entered, ins[..i], ins[i..j])
  {
    var step, pre, seg := LoopStepper(env, P, d, blocks, body), ins[..i], ins[i..j];
    var a, b := Run(step, At(header, m), pre), Run(step, At(header, m), ins[..j]);
    assert pre + seg == ins[..j];
    RunAppend(step, At(header, m), pre, seg);
    forall n: nat ensures Run(step, At(header, entered), pre + Cycle(seg, n)).At? {
      RepeatedStateRunsForever(env, P, d, blocks, body, a.block, a.mem, seg, b.mem, n);
      RunAppend(step, At(header, m), pre, Cycle(seg, n));
      AcceptedRunFrame(env, P, d, blocks, body, header, m, entered, pre + Cycle(seg, n));
    }
  }

  lemma {:induction false} CycleLength(seg: seq<seq<int>>, n: nat)
    requires seg != []
    ensures |Cycle(seg, n)| == n
    decreases n
  {
    if n > |seg| {
      CycleLength(seg, n - |seg|);
    }
  }

  /**
   The mark is right exactly if some run from the header stays inside for as many steps as the loop has
   blocks: such a run from one memory gives an endless one from every memory, and the other way round.
   */
  lemma EmptyLoopExactly(env: Env, P: Program, d: nat, blocks: map<Label, Block>, body: set<Label>, header: Label,
                         m: Memory, entered: Memory)
    requires body <= blocks.Keys && LoopAccepted(P, blocks, body) && Assumed(P, blocks, body) && header in body
    requires LoopUses(P, blocks, body) == {}
    ensures CanStay(env, P, d, blocks, body, header, m, |body|) <==>
            CanStayForever(env, P, d, blocks, body, header, entered)
  {
    var step := LoopStepper(env, P, d, blocks, body);
    if CanStay(env, P, d, blocks, body, header, m, |body|) {
      var ins :| |ins| == |body| && Run(step, At(header, m), ins).At?;
      var i, j := ComesTwice(env, P, d, blocks, body, header, m, ins);
      TwiceIsForever(env, P, d, blocks, body, header, m, ins, i, j, entered);
    }
    if CanStayForever(env, P, d, blocks, body, header, entered) {
      var pre, seg :| StaysForever(env, P, d, blocks, body, header, entered, pre, seg);
      var all := pre + Cycle(seg, |body|);
      CycleLength(seg, |body|);
      PrefixStays(env, P, d, blocks, body, At(header, entered), all, |body|);
      AcceptedRunFrame(env, P, d, blocks, body, header, entered, m, all[..|body|]);
      assert |all[..|body|]| == |body| && Run(step, At(header, m), all[..|body|]).At?;
    }
  }

  // ---------------------------------------------------------------------------------------------

  const EXIT := "exit"

  /** `while (1) exit();` uses no variables. */
  const EXITING: map<Label, Block> := map[0 := Block([Call(0, Some(EXIT), [])], Branch(0, [0]))]

  ghost predicate NeverReturns(env: Env, name: string) {
    forall args, i :: env.extern(name, args, i).None?
  }

  lemma NoAnswer(env: Env, name: string, args: seq<int>, i: int)
    requires NeverReturns(env, name)
    ensures env.extern(name, args, i).None?
  {
  }

  /** A call of a function that never returns ends the program. */
  lemma CallEnds(env: Env, P: Program, name: string, m: Memory, chunk: seq<int>)
    requires NeverReturns(env, name) && !IsDefined(P, name) && !IsMonitorCall(name)
    ensures !ExecInstr(env, P, 0, Call(0, Some(name), []), map[], m, chunk).Ok?
    ensures !ExecInstr(env, P, 0, Call(0, Some(name), []), map[], m, chunk).Alarm?
  {
    if chunk != [] {
      NoAnswer(env, name, ReadAll(map[], []), chunk[0]);
    }
  }

  /** A loop without variables that ends the program in its first round is marked as infinite all the same. */
  lemma ExitingLoopMarked(env: Env, P: Program, m: Memory, chunk: seq<int>)
    requires !IsDefined(P, EXIT) && NeverReturns(env, EXIT)
    ensures LoopAccepted(P, EXITING, {0}) && LoopUses(P, EXITING, {0}) == {}
    ensures LoopStepper(env, P, 0, MarkedEmpty(EXITING, 0), {0})(At(0, m), []) == Reported
    ensures !LoopStepper(env, P, 0, EXITING, {0})(At(0, m), chunk).At?
  {
    var i := Call(0, Some(EXIT), []);
    assert EXIT <= EXIT && IsExempt(EXIT);
    assert EXITING[0].instrs == [i];
    ExemptCall(P, 0, EXIT, [], []);
    assert CodeUses(P, [i], []) == {};
    EmptyLoopReports(env, P, 0, EXITING, {0}, 0, m);
    assert !IsMonitorCall(EXIT) by {
      assert EXIT[0] == 'e';
      assert STORE[0] == '_' && NONDET_STORE[0] == '_' && CHECK[0] == '_' && CHECK_HEADER[0] == '_'
             && INFINITE_LOOP[0] == '_';
    }
    assert ReadAll(map[], []) == [];
    ExecOne(env, P, 0, i, map[], m, chunk);
    CallEnds(env, P, EXIT, m, chunk);
  }
}
