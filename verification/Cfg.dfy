/**
 Control-flow graphs as the transformation passes see them: labelled blocks of instructions with a
 terminator. What an original instruction does and which way an original branch goes is left to a
 semantics given as a parameter; the few instructions that the passes insert are spelled out.
 All program values live in memory. A stack slot created by a pass is a cell of its own.
 */
module Cfg {
  import opened Common
  import opened Runs

  type Label = nat
  type Slot = nat

  datatype Instr =
    | Op(code: nat, writes: bool, calls: bool)   // an instruction of the program
    | StoreSlot(slot: Slot, value: int)          // a constant stored to a slot of a pass
    | AssumeZero                                 // __VERIFIER_assume(0)

  /** What a branch looks at. The first successor of a two-way branch is the one for true. */
  datatype Selector = ByCode(code: nat) | SlotIsOne(slot: Slot) | AlwaysTrue

  datatype Terminator = Branch(sel: Selector, succs: seq<Label>) | Return | Unreachable

  datatype Block = Block(instrs: seq<Instr>, term: Terminator)

  type Graph = map<Label, Block>

  function Succs(t: Terminator): seq<Label> {
    if t.Branch? then t.succs else []
  }

  /** Every label a terminator can lead to has a block. */
  ghost predicate WellFormed(g: Graph) {
    forall l | l in g :: forall t | t in Succs(g[l].term) :: t in g
  }

  /** The meaning of original instructions and branches: memory and one input per block executed. */
  datatype Sem<!M, !I> = Sem(
    op: (nat, M, I) -> Option<M>,    // None: the instruction ends the program
    choose: (nat, M, I) -> nat)      // the successor a branch takes, modulo their number

  datatype State<M> =
    | At(block: Label, mem: M, slots: map<Slot, int>)
    | Returned(mem: M)
    | Ended                          // the program exited in a call
    | Cut                            // an assumption failed
    | Undefined                      // an unreachable instruction was reached

  datatype Effect<M> = Go(mem: M, slots: map<Slot, int>) | Stop(why: State<M>)

  function Exec<M, I>(sem: Sem<M, I>, code: seq<Instr>, mem: M, slots: map<Slot, int>, i: I): Effect<M>
    decreases |code|
  {
    if code == [] then Go(mem, slots)
    else
      match code[0]
      case Op(c, _, _) =>
        var r := sem.op(c, mem, i);
        if r.None? then Stop(Ended) else Exec(sem, code[1..], r.value, slots, i)
      case StoreSlot(s, v) => Exec(sem, code[1..], mem, slots[s := v], i)
      case AssumeZero => Stop(Cut)
  }

  function SlotSet(slots: map<Slot, int>, s: Slot): bool {
    s in slots && slots[s] == 1
  }

  /** The successor taken out of `n` of them. */
  function Taken<M, I>(sem: Sem<M, I>, sel: Selector, n: nat, mem: M, slots: map<Slot, int>, i: I): (k: nat)
    requires n > 0
    ensures k < n
  {
    match sel
    case ByCode(c) => sem.choose(c, mem, i) % n
    case SlotIsOne(s) => if SlotSet(slots, s) || n == 1 then 0 else 1
    case AlwaysTrue => 0
  }

  function Jump<M, I>(sem: Sem<M, I>, t: Terminator, mem: M, slots: map<Slot, int>, i: I): State<M> {
    match t
    case Return => Returned(mem)
    case Unreachable => Undefined
    case Branch(sel, succs) =>
      if succs == [] then Undefined else At(succs[Taken(sem, sel, |succs|, mem, slots, i)], mem, slots)
  }

  function Step<M, I>(sem: Sem<M, I>, g: Graph, s: State<M>, i: I): State<M> {
    if !s.At? then s
    else if s.block !in g then Undefined
    else
      var r := Exec(sem, g[s.block].instrs, s.mem, s.slots, i);
      if r.Stop? then r.why else Jump(sem, g[s.block].term, r.mem, r.slots, i)
  }

  function Stepper<M, I>(sem: Sem<M, I>, g: Graph): (State<M>, I) -> State<M> {
    (s: State<M>, i: I) => Step(sem, g, s, i)
  }

  lemma {:induction false} ExecAppend<M, I>(sem: Sem<M, I>, a: seq<Instr>, b: seq<Instr>, mem: M,
                                            slots: map<Slot, int>, i: I)
    ensures Exec(sem, a + b, mem, slots, i) ==
            var r := Exec(sem, a, mem, slots, i);
            if r.Go? then Exec(sem, b, r.mem, r.slots, i) else r
    decreases |a|
  {
    if a == [] {
      assert a + b == b;
    } else {
      assert (a + b)[0] == a[0] && (a + b)[1..] == a[1..] + b;
      match a[0]
      case Op(c, _, _) =>
        var r := sem.op(c, mem, i);
        if r.Some? { ExecAppend(sem, a[1..], b, r.value, slots, i); }
      case StoreSlot(s, v) => ExecAppend(sem, a[1..], b, mem, slots[s := v], i);
      case AssumeZero =>
    }
  }

  lemma {:induction false} StopIsNotAt<M, I>(sem: Sem<M, I>, code: seq<Instr>, mem: M, slots: map<Slot, int>, i: I)
    ensures var r := Exec(sem, code, mem, slots, i); r.Stop? ==> r.why.Ended? || r.why.Cut?
    decreases |code|
  {
    if code != [] {
      match code[0]
      case Op(c, _, _) =>
        if sem.op(c, mem, i).Some? {
          StopIsNotAt(sem, code[1..], sem.op(c, mem, i).value, slots, i);
        }
      case StoreSlot(s, v) => StopIsNotAt(sem, code[1..], mem, slots[s := v], i);
      case AssumeZero =>
    }
  }

  /** A step that does not end the run goes along an edge. */
  lemma StepAlongEdge<M, I>(sem: Sem<M, I>, g: Graph, s: State<M>, i: I)
    requires s.At? && s.block in g && Step(sem, g, s, i).At?
    ensures Step(sem, g, s, i).block in Succs(g[s.block].term)
  {
    var e, t := Exec(sem, g[s.block].instrs, s.mem, s.slots, i), g[s.block].term;
    if e.Stop? {
      StopIsNotAt(sem, g[s.block].instrs, s.mem, s.slots, i);
    } else {
      assert t.succs[Taken(sem, t.sel, |t.succs|, e.mem, e.slots, i)] in Succs(t);
    }
  }

  /** Nothing moves once a run is over. */
  lemma {:induction false} Finished<M, I>(sem: Sem<M, I>, g: Graph, s: State<M>, ins: seq<I>)
    requires !s.At?
    ensures Run(Stepper(sem, g), s, ins) == s
    decreases |ins|
  {
    if ins != [] {
      Finished(sem, g, s, ins[1..]);
    }
  }

  /** The semantics in which every instruction is a no-op and the inputs choose the branches. */
  function Free(): Sem<(), nat> {
    Sem((c, m, i) => Some(m), (c, m, i) => i)
  }

  lemma {:induction false} FreeExec(code: seq<Instr>, slots: map<Slot, int>, i: nat)
    requires forall k | 0 <= k < |code| :: code[k].Op?
    ensures Exec(Free(), code, (), slots, i) == Go((), slots)
    decreases |code|
  {
    if code != [] {
      FreeExec(code[1..], slots, i);
    }
  }

  /** The last state of a run under some inputs. */
  ghost predicate Reaches<M, I(!new)>(sem: Sem<M, I>, g: Graph, s: State<M>, r: State<M>) {
    exists ins :: Run(Stepper(sem, g), s, ins) == r
  }

  // ---------------------------------------------------------------------------------------------
  // Editing.

  function Redirected(t: Terminator, from: Label, to: Label): Terminator {
    if t.Branch? then t.(succs := RedirectedSuccs(t.succs, from, to)) else t
  }

  function RedirectedIn(g: Graph, which: set<Label>, from: Label, to: Label): Graph {
    map l | l in g :: if l in which then Block(g[l].instrs, Redirected(g[l].term, from, to)) else g[l]
  }

  /** The blocks with an edge to the given one. */
  function Preds(g: Graph, to: Label): set<Label> {
    set l | l in g && to in Succs(g[l].term)
  }

  /** Every label in use, whether or not it has a block. */
  function LabelsOf(g: Graph): set<Label> {
    g.Keys + set l, t | l in g && t in Succs(g[l].term) :: t
  }

  lemma RedirectNothing(t: Terminator, from: Label, to: Label)
    requires from !in Succs(t)
    ensures Redirected(t, from, to) == t
  {
    if t.Branch? {
      assert RedirectedSuccs(t.succs, from, to) == t.succs;
    }
  }

  class Function {
    var blocks: Graph

    constructor (g: Graph)
      ensures blocks == g
    {
      blocks := g;
    }

    /** Every successor `from` of the given block becomes `to`. */
    method ReplaceSuccessor(l: Label, from: Label, to: Label)
      requires l in blocks
      modifies this
      ensures blocks == old(blocks)[l := Block(old(blocks)[l].instrs, Redirected(old(blocks)[l].term, from, to))]
    {
      var succs := Succs(blocks[l].term);
      ghost var was := blocks;
      for k := 0 to |succs|
        invariant blocks.Keys == was.Keys && blocks[l].instrs == was[l].instrs
        invariant forall x | x in was && x != l :: blocks[x] == was[x]
        invariant !was[l].term.Branch? ==> blocks[l].term == was[l].term
        invariant was[l].term.Branch? ==> blocks[l].term.Branch? && blocks[l].term.sel == was[l].term.sel
        invariant |Succs(blocks[l].term)| == |succs|
        invariant forall j | 0 <= j < |succs| :: Succs(blocks[l].term)[j] == if j < k
                  && succs[j] == from then to else succs[j]
      {
        if succs[k] == from {
          var b := blocks[l];
          blocks := blocks[l := b.(term := b.term.(succs := b.term.succs[k := to]))];
        }
      }
      assert was[l].term.Branch? ==> blocks[l].term.succs == RedirectedSuccs(succs, from, to);
      assert blocks[l].term == Redirected(was[l].term, from, to);
    }

    /** The same for several blocks, one after the other. */
    method ReplaceSuccessors(which: set<Label>, from: Label, to: Label)
      requires which <= blocks.Keys
      modifies this
      ensures blocks == RedirectedIn(old(blocks), which, from, to)
    {
      ghost var was := blocks;
      var todo := which;
      while todo != {}
        invariant todo <= which && blocks == RedirectedIn(was, which - todo, from, to)
        decreases todo
      {
        var l :| l in todo;
        ReplaceSuccessor(l, from, to);
        todo := todo - {l};
      }
      assert which - todo == which;
    }
  }
}
