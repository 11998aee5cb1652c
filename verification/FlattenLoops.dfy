/**
 Merging an inner loop into its parent: both loops share a new header, and a flag in a stack slot says
 which of the two old headers it stands for.
 */
module FlattenLoops {
  import opened Common
  import opened Runs
  import opened Cfg

  /** A loop directly inside another one, and what the pass allocates for it. */
  datatype Nest = Nest(
    entry: Label,
    inner: set<Label>, innerHeader: Label,
    parent: set<Label>, parentHeader: Label,
    flagInit: Label, newHeader: Label, flag: Slot)

  predicate IsExit(g: Graph, inner: set<Label>, l: Label) {
    l !in inner && exists b | b in inner :: b in g && l in Succs(g[b].term)
  }

  /** The blocks that set the flag to 0 when they are entered. */
  predicate Resets(g: Graph, nest: Nest, l: Label) {
    l == nest.entry || IsExit(g, nest.inner, l)
  }

  function Zero(nest: Nest): Instr {
    StoreSlot(nest.flag, 0)
  }

  function One(nest: Nest): Instr {
    StoreSlot(nest.flag, 1)
  }

  /** The stores of 1 in front of the terminator, one for each edge into the inner loop from outside. */
  function Entering(g: Graph, nest: Nest, l: Label): seq<Instr>
    requires l in g
  {
    Repeat([One(nest)], if l in nest.inner then 0 else CountEdges(Succs(g[l].term), nest.innerHeader))
  }

  function Rerouted(nest: Nest, l: Label, t: Terminator): Terminator {
    Redirected(Redirected(t, nest.innerHeader, nest.newHeader), nest.parentHeader,
               if l in nest.parent then nest.newHeader else nest.flagInit)
  }

  function FlagInitBlock(nest: Nest): Block {
    Block([], Branch(AlwaysTrue, [nest.newHeader]))
  }

  function NewHeaderBlock(nest: Nest): Block {
    Block([], Branch(SlotIsOne(nest.flag), [nest.innerHeader, nest.parentHeader]))
  }

  ghost predicate StartsWithZeros(nest: Nest, code: seq<Instr>, code': seq<Instr>, some: bool) {
    exists n: nat :: (n > 0 <==> some) && code' == Repeat([Zero(nest)], n) + code
  }

  ghost predicate BlockFlattened(g: Graph, nest: Nest, g': Graph, l: Label)
    requires l in g
  {
    && l in g'
    && StartsWithZeros(nest, g[l].instrs + Entering(g, nest, l), g'[l].instrs, Resets(g, nest, l))
    && g'[l].term == Rerouted(nest, l, g[l].term)
  }

  /** What the pass makes of the function. */
  ghost predicate Flattened(g: Graph, nest: Nest, g': Graph) {
    && (forall l | l in g :: BlockFlattened(g, nest, g', l))
    && nest.flagInit in g' && g'[nest.flagInit] == FlagInitBlock(nest)
    && nest.newHeader in g' && g'[nest.newHeader] == NewHeaderBlock(nest)
  }

  // ---------------------------------------------------------------------------------------------
  // The pass.

  predicate MentionsSlot(b: Block, s: Slot) {
    || (exists k | 0 <= k < |b.instrs| :: b.instrs[k].StoreSlot? && b.instrs[k].slot == s)
    || (b.term.Branch? && b.term.sel == SlotIsOne(s))
  }

  function SlotsOf(g: Graph): set<Slot> {
    (set l, i | l in g && i in g[l].instrs && i.StoreSlot? :: i.slot) +
    (set l | l in g && g[l].term.Branch? && g[l].term.sel.SlotIsOne? :: g[l].term.sel.slot)
  }

  ghost predicate Allocated(g: Graph, nest: Nest) {
    && nest.flagInit !in LabelsOf(g) && nest.newHeader !in LabelsOf(g) && nest.flagInit != nest.newHeader
    && forall l | l in g :: !MentionsSlot(g[l], nest.flag)
  }

  lemma {:induction false} RepeatFront(z: Instr, n: nat)
    ensures [z] + Repeat([z], n) == Repeat([z], n + 1)
    decreases n
  {
    if n > 0 {
      RepeatFront(z, n - 1);
    } else {
      assert [z] + [] == [] + [z];
    }
  }

  lemma PrependZero(nest: Nest, code: seq<Instr>, code': seq<Instr>, some: bool)
    requires StartsWithZeros(nest, code, code', some)
    ensures StartsWithZeros(nest, code, [Zero(nest)] + code', true)
  {
    var n: nat :| (n > 0 <==> some) && code' == Repeat([Zero(nest)], n) + code;
    RepeatFront(Zero(nest), n);
    assert [Zero(nest)] + code' == Repeat([Zero(nest)], n + 1) + code;
  }

  /** Every block of `g` starts with some zeros exactly if it is among `which`; nothing else has changed. */
  ghost predicate ZerosAt(g: Graph, nest: Nest, which: set<Label>, g': Graph) {
    forall l | l in g :: l in g' && g'[l].term == g[l].term
        && StartsWithZeros(nest, g[l].instrs, g'[l].instrs, l in which)
  }

  method InsertZero(f: Function, l: Label, ghost g: Graph, nest: Nest, ghost which: set<Label>)
    requires l in g && ZerosAt(g, nest, which, f.blocks)
    modifies f
    ensures f.blocks.Keys == old(f.blocks).Keys && ZerosAt(g, nest, which + {l}, f.blocks)
    ensures forall m | m in f.blocks && m != l :: f.blocks[m] == old(f.blocks)[m]
  {
    PrependZero(nest, g[l].instrs, f.blocks[l].instrs, l in which);
    f.blocks := f.blocks[l := Block([Zero(nest)] + f.blocks[l].instrs, f.blocks[l].term)];
  }

  /** Where the edges of a block leave the inner loop. */
  function ExitsOf(nest: Nest, b: Block): set<Label> {
    set t | t in Succs(b.term) && t !in nest.inner
  }

  function ExitsOfAll(g: Graph, nest: Nest, bs: set<Label>): set<Label>
    requires bs <= g.Keys
  {
    set b, t | b in bs && t in ExitsOf(nest, g[b]) :: t
  }

  /** The exit blocks that one block of the inner loop leads to. */
  method ZeroExitsOf(f: Function, b: Block, ghost g: Graph, nest: Nest, ghost which: set<Label>)
    returns (ghost which': set<Label>)
    requires ZerosAt(g, nest, which, f.blocks) && f.blocks.Keys == g.Keys && forall t | t in Succs(b.term) :: t in g
    modifies f
    ensures f.blocks.Keys == g.Keys && ZerosAt(g, nest, which', f.blocks)
    ensures which' == which + ExitsOf(nest, b)
  {
    which' := which;
    var succs := Succs(b.term);
    for k := 0 to |succs|
      invariant f.blocks.Keys == g.Keys && ZerosAt(g, nest, which', f.blocks)
      invariant which' == which + set t | t in succs[..k] && t !in nest.inner
    {
      assert succs[..k + 1] == succs[..k] + [succs[k]] && succs[k] in succs;
      if succs[k] !in nest.inner {
        InsertZero(f, succs[k], g, nest, which');
        which' := which' + {succs[k]};
      }
    }
    assert succs[..|succs|] == succs;
  }

  /** The flag is reset on entry to the function and wherever an edge leaves the inner loop. */
  method InsertZeros(f: Function, nest: Nest) returns (ghost which: set<Label>)
    requires WellFormed(f.blocks) && nest.entry in f.blocks && nest.inner <= f.blocks.Keys
    modifies f
    ensures f.blocks.Keys == old(f.blocks).Keys && ZerosAt(old(f.blocks), nest, which, f.blocks)
    ensures forall l | l in old(f.blocks) :: l in which <==> Resets(old(f.blocks), nest, l)
  {
    var g := f.blocks;
    which := {};
    forall l | l in g ensures StartsWithZeros(nest, g[l].instrs, g[l].instrs, false) {
      assert g[l].instrs == Repeat([Zero(nest)], 0) + g[l].instrs;
    }
    InsertZero(f, nest.entry, g, nest, which);
    which := which + {nest.entry};
    var todo := nest.inner;
    while todo != {}
      invariant todo <= nest.inner && f.blocks.Keys == g.Keys && ZerosAt(g, nest, which, f.blocks)
      invariant which == {nest.entry} + ExitsOfAll(g, nest, nest.inner - todo)
      decreases todo
    {
      var b :| b in todo;
      which := ZeroExitsOf(f, g[b], g, nest, which);
      assert nest.inner - (todo - {b}) == nest.inner - todo + {b};
      todo := todo - {b};
    }
    assert nest.inner - todo == nest.inner;
    ExitsAreAll(g, nest);
  }

  lemma ExitsAreAll(g: Graph, nest: Nest)
    requires nest.inner <= g.Keys
    ensures forall l :: l in ExitsOfAll(g, nest, nest.inner) <==> IsExit(g, nest.inner, l)
  {
    forall l | IsExit(g, nest.inner, l) ensures l in ExitsOfAll(g, nest, nest.inner) {
      var b :| b in nest.inner && b in g && l in Succs(g[b].term);
      assert l in ExitsOf(nest, g[b]);
    }
  }

  /** Leads the edges of one block to the inner header through the new one, setting the flag from outside. */
  method RedirectToNewHeader(f: Function, l: Label, nest: Nest)
    requires l in f.blocks && nest.innerHeader != nest.newHeader
    modifies f
    ensures f.blocks == old(f.blocks)[l := Block(old(f.blocks)[l].instrs + Entering(old(f.blocks), nest, l),
                                                 Redirected(old(f.blocks)[l].term, nest.innerHeader, nest.newHeader))]
  {
    var g, b := f.blocks, f.blocks[l];
    var succs := Succs(b.term);
    for k := 0 to |succs|
      invariant f.blocks == g[l := b]
      invariant b.instrs == g[l].instrs +
                  Repeat([One(nest)], if l in nest.inner then 0 else CountEdges(succs[..k], nest.innerHeader))
      invariant if g[l].term.Branch? then b.term.Branch? && b.term.sel == g[l].term.sel else b.term == g[l].term
      invariant |Succs(b.term)| == |succs|
      invariant forall j | 0 <= j < |succs| ::
                  Succs(b.term)[j] == if j < k && succs[j] == nest.innerHeader then nest.newHeader else succs[j]
    {
      assert succs[..k + 1][..k] == succs[..k];
      if succs[k] == nest.innerHeader {
        var code := if l in nest.inner then b.instrs else b.instrs + [One(nest)];
        b := Block(code, b.term.(succs := b.term.succs[k := nest.newHeader]));
        f.blocks := f.blocks[l := b];
      }
    }
    assert succs[..|succs|] == succs;
    assert Succs(b.term) == RedirectedSuccs(succs, nest.innerHeader, nest.newHeader);
  }

  function EnteredThrough(g: Graph, nest: Nest, which: set<Label>): Graph {
    map l | l in g :: if l in which
                      then Block(g[l].instrs + Entering(g, nest, l),
                                 Redirected(g[l].term, nest.innerHeader, nest.newHeader))
                      else g[l]
  }

  method RedirectInner(f: Function, nest: Nest)
    requires nest.innerHeader != nest.newHeader
    modifies f
    ensures f.blocks == EnteredThrough(old(f.blocks), nest, Preds(old(f.blocks), nest.innerHeader))
  {
    var g := f.blocks;
    var jumpsToHeader := Preds(g, nest.innerHeader);
    var todo := jumpsToHeader;
    while todo != {}
      invariant todo <= jumpsToHeader && f.blocks == EnteredThrough(g, nest, jumpsToHeader - todo)
      decreases todo
    {
      var l :| l in todo;
      RedirectToNewHeader(f, l, nest);
      todo := todo - {l};
    }
    assert jumpsToHeader - todo == jumpsToHeader;
  }

  /** A block after the zeros are in place and its edges to the inner header are redirected. */
  lemma EnteredBlock(g: Graph, nest: Nest, which: set<Label>, g1: Graph, l: Label)
    requires ZerosAt(g, nest, which, g1) && l in g && (l in which <==> Resets(g, nest, l))
    ensures var g2 := EnteredThrough(g1, nest, Preds(g1, nest.innerHeader));
            && l in g2 && g2[l].term == Redirected(g[l].term, nest.innerHeader, nest.newHeader)
            && StartsWithZeros(nest, g[l].instrs + Entering(g, nest, l), g2[l].instrs, Resets(g, nest, l))
  {
    var g2 := EnteredThrough(g1, nest, Preds(g1, nest.innerHeader));
    var n: nat :| (n > 0 <==> l in which) && g1[l].instrs == Repeat([Zero(nest)], n) + g[l].instrs;
    if l !in Preds(g1, nest.innerHeader) {
      NoEdgeNoCount(Succs(g[l].term), nest.innerHeader);
      RedirectNothing(g[l].term, nest.innerHeader, nest.newHeader);
    }
    assert g2[l].instrs == Repeat([Zero(nest)], n) + (g[l].instrs + Entering(g, nest, l));
  }

  /** The pass on a loop that has a parent. */
  method RunOnLoop(f: Function, entry: Label, inner: set<Label>, innerHeader: Label, parent: set<Label>,
                   parentHeader: Label)
    returns (nest: Nest)
    requires WellFormed(f.blocks) && entry in f.blocks && inner <= f.blocks.Keys
    requires innerHeader in f.blocks && parentHeader in f.blocks && innerHeader != parentHeader
    modifies f
    ensures nest.entry == entry && nest.inner == inner && nest.innerHeader == innerHeader
    ensures nest.parent == parent && nest.parentHeader == parentHeader
    ensures Allocated(old(f.blocks), nest) && Flattened(old(f.blocks), nest, f.blocks)
    ensures FlagsInPlace(old(f.blocks), nest, f.blocks) && EdgesInPlace(old(f.blocks), nest, f.blocks)
  {
    var g := f.blocks;
    var flagInit := Fresh(LabelsOf(g));
    var newHeader := Fresh(LabelsOf(g) + {flagInit});
    var flag := Fresh(SlotsOf(g));
    nest := Nest(entry, inner, innerHeader, parent, parentHeader, flagInit, newHeader, flag);
    FreshIsAllocated(g, nest);
    ghost var which := InsertZeros(f, nest);
    ghost var g1 := f.blocks;
    RedirectInner(f, nest);
    ghost var g2 := f.blocks;
    RedirectOuter(f, nest);
    // the branch of the new header last, or the loops above would redirect it too
    ghost var g3 := f.blocks;
    f.blocks := f.blocks[flagInit := FlagInitBlock(nest)][newHeader := NewHeaderBlock(nest)];
    AllFlattened(g, nest, which, g1, g2, g3, f.blocks);
    BlockByBlock(g, nest, f.blocks);
  }

  predicate StartsWith(b: Block, i: Instr) {
    b.instrs != [] && b.instrs[0] == i
  }

  predicate EndsWith(b: Block, i: Instr) {
    b.instrs != [] && b.instrs[|b.instrs| - 1] == i
  }

  lemma {:induction false} RepeatEnds(i: Instr, n: nat)
    ensures |Repeat([i], n)| == n && forall k | 0 <= k < n :: Repeat([i], n)[k] == i
    decreases n
  {
    if n > 0 {
      RepeatEnds(i, n - 1);
    }
  }

  /**
   The flag is set to 0 first of all at the entry and wherever an edge of the inner loop leaves it, and to 1
   last of all in the blocks that lead into the inner loop from outside.
   */
  ghost predicate FlagsInPlace(g: Graph, nest: Nest, g': Graph) {
    forall l | l in g :: l in g'
      && (StartsWith(g'[l], StoreSlot(nest.flag, 0)) <==>
          l == nest.entry || (l !in nest.inner && exists b :: b in nest.inner && b in g && l in Succs(g[b].term)))
      && (EndsWith(g'[l], StoreSlot(nest.flag, 1)) <==> l !in nest.inner && nest.innerHeader in Succs(g[l].term))
  }

  /** Every edge to one of the two headers is led over the new blocks, and every other edge stays. */
  ghost predicate EdgesInPlace(g: Graph, nest: Nest, g': Graph) {
    forall l | l in g :: l in g' && |Succs(g'[l].term)| == |Succs(g[l].term)|
      && forall k | 0 <= k < |Succs(g[l].term)| ::
           var t := Succs(g[l].term)[k];
           Succs(g'[l].term)[k] ==
           if t == nest.innerHeader then nest.newHeader
           else if t != nest.parentHeader then t
           else if l in nest.parent then nest.newHeader else nest.flagInit
  }

  /** The flattened function block by block and edge by edge. */
  lemma BlockByBlock(g: Graph, nest: Nest, g': Graph)
    requires Allocated(g, nest) && Flattened(g, nest, g') && nest.parentHeader in g
    ensures FlagsInPlace(g, nest, g') && EdgesInPlace(g, nest, g')
  {
    assert nest.parentHeader in LabelsOf(g);
    forall l | l in g
      ensures l in g' && |Succs(g'[l].term)| == |Succs(g[l].term)|
      ensures StartsWith(g'[l], StoreSlot(nest.flag, 0)) <==> Resets(g, nest, l)
      ensures EndsWith(g'[l], StoreSlot(nest.flag, 1)) <==>
              l !in nest.inner && nest.innerHeader in Succs(g[l].term)
    {
      assert BlockFlattened(g, nest, g', l);
      FlagStores(g, nest, g', l);
    }
  }

  /** Which blocks set the flag to 0 first, and which ones set it to 1 at last. */
  lemma FlagStores(g: Graph, nest: Nest, g': Graph, l: Label)
    requires Allocated(g, nest) && l in g && BlockFlattened(g, nest, g', l)
    ensures StartsWith(g'[l], StoreSlot(nest.flag, 0)) <==> Resets(g, nest, l)
    ensures EndsWith(g'[l], StoreSlot(nest.flag, 1)) <==> l !in nest.inner && nest.innerHeader in Succs(g[l].term)
  {
    var n: nat :| (n > 0 <==> Resets(g, nest, l))
        && g'[l].instrs == Repeat([Zero(nest)], n) + (g[l].instrs + Entering(g, nest, l));
    var c := CountEdges(Succs(g[l].term), nest.innerHeader);
    RepeatEnds(Zero(nest), n);
    RepeatEnds(One(nest), if l in nest.inner then 0 else c);
    if nest.innerHeader in Succs(g[l].term) {
      var k :| 0 <= k < |Succs(g[l].term)| && Succs(g[l].term)[k] == nest.innerHeader;
      EdgeCounted(Succs(g[l].term), nest.innerHeader, k);
    } else {
      NoEdgeNoCount(Succs(g[l].term), nest.innerHeader);
    }
    assert !MentionsSlot(g[l], nest.flag);
    assert g'[l].instrs == (Repeat([Zero(nest)], n) + g[l].instrs) + Entering(g, nest, l);
  }

  lemma AllFlattened(g: Graph, nest: Nest, which: set<Label>, g1: Graph, g2: Graph, g3: Graph, g4: Graph)
    requires Allocated(g, nest) && ZerosAt(g, nest, which, g1)
    requires forall l | l in g :: l in which <==> Resets(g, nest, l)
    requires g2 == EnteredThrough(g1, nest, Preds(g1, nest.innerHeader))
    requires g3 == map l | l in g2 :: OuterRedirected(nest, g2, l)
    requires g4 == g3[nest.flagInit := FlagInitBlock(nest)][nest.newHeader := NewHeaderBlock(nest)]
    ensures Flattened(g, nest, g4)
  {
    forall l | l in g ensures BlockFlattened(g, nest, g4, l) {
      EnteredBlock(g, nest, which, g1, l);
      assert l in LabelsOf(g) && g4[l] == OuterRedirected(nest, g2, l);
    }
  }

  function OuterRedirected(nest: Nest, g: Graph, l: Label): Block
    requires l in g
  {
    Block(g[l].instrs, Redirected(g[l].term, nest.parentHeader,
                                  if l in nest.parent then nest.newHeader else nest.flagInit))
  }

  /** Back edges of the parent loop go to the new header, jumps into it to the block before that. */
  method RedirectOuter(f: Function, nest: Nest)
    modifies f
    ensures f.blocks == map l | l in old(f.blocks) :: OuterRedirected(nest, old(f.blocks), l)
  {
    var g := f.blocks;
    var preds := Preds(g, nest.parentHeader);
    f.ReplaceSuccessors(preds - nest.parent, nest.parentHeader, nest.flagInit);
    f.ReplaceSuccessors(preds * nest.parent, nest.parentHeader, nest.newHeader);
    forall l | l in g ensures f.blocks[l] == OuterRedirected(nest, g, l) {
      if l !in preds {
        RedirectNothing(g[l].term, nest.parentHeader, if l in nest.parent then nest.newHeader else nest.flagInit);
      }
    }
  }

  lemma FreshIsAllocated(g: Graph, nest: Nest)
    requires nest.flagInit !in LabelsOf(g) && nest.newHeader !in LabelsOf(g) && nest.flagInit != nest.newHeader
    requires nest.flag !in SlotsOf(g)
    ensures Allocated(g, nest)
  {
    forall l | l in g ensures !MentionsSlot(g[l], nest.flag) {
      forall k | 0 <= k < |g[l].instrs| && g[l].instrs[k].StoreSlot? ensures g[l].instrs[k].slot != nest.flag {
        assert g[l].instrs[k] in g[l].instrs && g[l].instrs[k].slot in SlotsOf(g);
      }
    }
  }

  // ---------------------------------------------------------------------------------------------
  // One step of the flattened function.

  lemma {:induction false} ExecRepeat<M, I>(sem: Sem<M, I>, s: Slot, v: int, n: nat, mem: M, slots: map<Slot, int>,
                                            i: I)
    ensures Exec(sem, Repeat([StoreSlot(s, v)], n), mem, slots, i) == Go(mem, if n > 0 then slots[s := v] else slots)
    decreases n
  {
    if n > 0 {
      ExecRepeat(sem, s, v, n - 1, mem, slots, i);
      ExecAppend(sem, Repeat([StoreSlot(s, v)], n - 1), [StoreSlot(s, v)], mem, slots, i);
    }
  }

  /** Code that does not mention a slot does the same without it. */
  lemma {:induction false} ExecWithout<M, I>(sem: Sem<M, I>, code: seq<Instr>, s: Slot, mem: M, slots: map<Slot, int>,
                                             i: I)
    requires forall k | 0 <= k < |code| :: code[k].StoreSlot? ==> code[k].slot != s
    ensures var r, e := Exec(sem, code, mem, slots, i), Exec(sem, code, mem, slots - {s}, i);
            if r.Go? then e == Go(r.mem, r.slots - {s}) && (SlotSet(r.slots, s) <==> SlotSet(slots, s)) else e == r
    decreases |code|
  {
    if code != [] {
      match code[0]
      case Op(c, _, _) =>
        var r := sem.op(c, mem, i);
        if r.Some? { ExecWithout(sem, code[1..], s, r.value, slots, i); }
      case StoreSlot(x, v) =>
        assert slots[x := v] - {s} == (slots - {s})[x := v];
        ExecWithout(sem, code[1..], s, mem, slots[x := v], i);
      case AssumeZero =>
    }
  }

  /** Whether the flag is set when the block branches. */
  predicate FlagAfter(g: Graph, nest: Nest, l: Label, before: bool)
    requires l in g
  {
    if l !in nest.inner && nest.innerHeader in Succs(g[l].term) then true
    else if Resets(g, nest, l) then false
    else before
  }

  lemma FlattenedExec<M, I>(sem: Sem<M, I>, g: Graph, nest: Nest, g': Graph, l: Label, mem: M, slots: map<Slot, int>,
                            i: I)
    requires Allocated(g, nest) && l in g && BlockFlattened(g, nest, g', l)
    ensures var r, e := Exec(sem, g'[l].instrs, mem, slots, i), Exec(sem, g[l].instrs, mem, slots - {nest.flag}, i);
            if e.Go? then r.Go? && r.mem == e.mem && r.slots - {nest.flag} == e.slots
                          && (SlotSet(r.slots, nest.flag) <==> FlagAfter(g, nest, l, SlotSet(slots, nest.flag)))
            else r == e
  {
    var n: nat :| (n > 0 <==> Resets(g, nest, l))
        && g'[l].instrs == Repeat([Zero(nest)], n) + (g[l].instrs + Entering(g, nest, l));
    var s1 := if n > 0 then slots[nest.flag := 0] else slots;
    assert s1 - {nest.flag} == slots - {nest.flag};
    ExecRepeat(sem, nest.flag, 0, n, mem, slots, i);
    ExecAppend(sem, Repeat([Zero(nest)], n), g[l].instrs + Entering(g, nest, l), mem, slots, i);
    ExecAppend(sem, g[l].instrs, Entering(g, nest, l), mem, s1, i);
    ExecWithout(sem, g[l].instrs, nest.flag, mem, s1, i);
    var e := Exec(sem, g[l].instrs, mem, s1, i);
    if e.Go? {
      var c := CountEdges(Succs(g[l].term), nest.innerHeader);
      ExecRepeat(sem, nest.flag, 1, if l in nest.inner then 0 else c, e.mem, e.slots, i);
      assert e.slots[nest.flag := 1] - {nest.flag} == e.slots - {nest.flag};
      if nest.innerHeader in Succs(g[l].term) {
        var k :| 0 <= k < |Succs(g[l].term)| && Succs(g[l].term)[k] == nest.innerHeader;
        EdgeCounted(Succs(g[l].term), nest.innerHeader, k);
      } else {
        NoEdgeNoCount(Succs(g[l].term), nest.innerHeader);
      }
    }
  }

  /** Where an edge to `t` leads after flattening. */
  function Reroute(nest: Nest, l: Label, t: Label): Label {
    if t == nest.innerHeader then nest.newHeader
    else if t == nest.parentHeader then (if l in nest.parent then nest.newHeader else nest.flagInit)
    else t
  }

  lemma ReroutedJump<M, I>(sem: Sem<M, I>, nest: Nest, l: Label, t: Terminator, mem: M, slots: map<Slot, int>, i: I)
    requires t.Branch? ==> t.sel != SlotIsOne(nest.flag)
    requires nest.newHeader != nest.parentHeader
    ensures var j, j' := Jump(sem, t, mem, slots - {nest.flag}, i), Jump(sem, Rerouted(nest, l, t), mem, slots, i);
            if j.At? then j.block in Succs(t) && j.mem == mem && j.slots == slots - {nest.flag}
                && j' == At(Reroute(nest, l, j.block), mem, slots)
            else j' == j
  {
    if t.Branch? && t.succs != [] {
      var k := Taken(sem, t.sel, |t.succs|, mem, slots - {nest.flag}, i);
      assert Taken(sem, t.sel, |t.succs|, mem, slots, i) == k;
      assert t.succs[k] in Succs(t);
    }
  }

  /** A step from an original block is the original step, with the edge rerouted and the flag as FlagAfter says. */
  lemma FlattenedStep<M, I>(sem: Sem<M, I>, g: Graph, nest: Nest, g': Graph, s: State<M>, i: I)
    requires Allocated(g, nest) && Flattened(g, nest, g') && s.At? && s.block in g && nest.parentHeader in g
    ensures var r, r' := Step(sem, g, s.(slots := s.slots - {nest.flag}), i), Step(sem, g', s, i);
            if r.At?
            then && r.block in Succs(g[s.block].term)
                 && r'.At? && r'.mem == r.mem && r'.slots - {nest.flag} == r.slots
                     && r'.block == Reroute(nest, s.block, r.block)
                 && (SlotSet(r'.slots, nest.flag) <==> FlagAfter(g, nest, s.block, SlotSet(s.slots, nest.flag)))
            else r' == r
  {
    var l := s.block;
    assert BlockFlattened(g, nest, g', l) && !MentionsSlot(g[l], nest.flag);
    FlattenedExec(sem, g, nest, g', l, s.mem, s.slots, i);
    var r := Exec(sem, g'[l].instrs, s.mem, s.slots, i);
    if r.Go? {
      assert nest.parentHeader in LabelsOf(g);
      ReroutedJump(sem, nest, l, g[l].term, r.mem, r.slots, i);
    } else {
      StopIsNotAt(sem, g[l].instrs, s.mem, s.slots - {nest.flag}, i);
    }
  }

  // ---------------------------------------------------------------------------------------------
  // Runs of the flattened function.

  /** The inner loop is a natural loop inside its parent: it is entered only at its header. */
  ghost predicate Nested(g: Graph, nest: Nest) {
    && WellFormed(g) && nest.entry in g && nest.entry !in nest.inner
    && nest.innerHeader in nest.inner && nest.inner <= nest.parent <= g.Keys
    && nest.parentHeader in nest.parent && nest.parentHeader !in nest.inner
    && (forall l, t | l in g && l !in nest.inner && t in Succs(g[l].term) && t in nest.inner :: t == nest.innerHeader)
  }

  /** The run stands at a block of either function, and the flag is set inside the inner loop. */
  ghost predicate FlagRight<M>(g: Graph, nest: Nest, s: State<M>) {
    s.At? ==> (InNew(nest, s) || s.block in g) && (s.block in nest.inner ==> SlotSet(s.slots, nest.flag))
  }

  predicate InNew<M>(nest: Nest, s: State<M>) {
    s.At? && (s.block == nest.newHeader || s.block == nest.flagInit)
  }

  /** Forgets the flag, and reads the new blocks as the header that the flag leads to. */
  function Erase<M>(nest: Nest, s: State<M>): State<M> {
    if !s.At? then s
    else
      At(if !InNew(nest, s) then s.block
         else if SlotSet(s.slots, nest.flag) then nest.innerHeader else nest.parentHeader,
         s.mem, s.slots - {nest.flag})
  }

  function Rank<M>(nest: Nest, s: State<M>): nat {
    if !s.At? then 0 else if s.block == nest.flagInit then 2 else if s.block == nest.newHeader then 1 else 0
  }

  /** A state of the original function with the flag that the flattened one has there. */
  datatype Flagged<M> = Flagged(state: State<M>, on: bool)

  function FlaggedStep<M, I>(sem: Sem<M, I>, g: Graph, nest: Nest, c: Flagged<M>, i: I): Flagged<M> {
    var t := Step(sem, g, c.state, i);
    Flagged(t, t.At? && c.state.At? && c.state.block in g && FlagAfter(g, nest, c.state.block, c.on))
  }

  function FlaggedRun<M, I>(sem: Sem<M, I>, g: Graph, nest: Nest, c: Flagged<M>, ins: seq<I>): Flagged<M>
    decreases |ins|
  {
    if ins == [] then c else FlaggedRun(sem, g, nest, FlaggedStep(sem, g, nest, c, ins[0]), ins[1..])
  }

  /** The flag does not disturb the original run. */
  lemma {:induction false} FlaggedIsRun<M, I>(sem: Sem<M, I>, g: Graph, nest: Nest, c: Flagged<M>, ins: seq<I>)
    ensures FlaggedRun(sem, g, nest, c, ins).state == Run(Stepper(sem, g), c.state, ins)
    decreases |ins|
  {
    if ins != [] {
      FlaggedIsRun(sem, g, nest, FlaggedStep(sem, g, nest, c, ins[0]), ins[1..]);
    }
  }

  function View<M>(nest: Nest, s: State<M>): Flagged<M> {
    Flagged(Erase(nest, s), s.At? && SlotSet(s.slots, nest.flag))
  }

  /** The next step goes to the parent header although the flag is set. */
  ghost predicate Strays<M, I>(sem: Sem<M, I>, g: Graph, nest: Nest, c: Flagged<M>, i: I) {
    && c.state.At? && c.state.block in g
    && var r := Step(sem, g, c.state, i);
       r.At? && r.block == nest.parentHeader && FlagAfter(g, nest, c.state.block, c.on)
  }

  lemma FlagInitStep<M, I>(sem: Sem<M, I>, g: Graph, nest: Nest, g': Graph, s: State<M>, i: I)
    requires Flattened(g, nest, g') && s.At? && s.block == nest.flagInit
    ensures Step(sem, g', s, i) == s.(block := nest.newHeader)
  {
    assert Exec(sem, [], s.mem, s.slots, i) == Go(s.mem, s.slots);
  }

  lemma NewHeaderStep<M, I>(sem: Sem<M, I>, g: Graph, nest: Nest, g': Graph, s: State<M>, i: I)
    requires Flattened(g, nest, g') && s.At? && s.block == nest.newHeader
    ensures Step(sem, g', s, i) ==
            s.(block := if SlotSet(s.slots, nest.flag) then nest.innerHeader else nest.parentHeader)
  {
    assert Exec(sem, [], s.mem, s.slots, i) == Go(s.mem, s.slots);
  }

  lemma NewBlockStep<M, I>(sem: Sem<M, I>, g: Graph, nest: Nest, g': Graph, s: State<M>, i: I)
    requires Flattened(g, nest, g') && Allocated(g, nest) && Nested(g, nest) && FlagRight(g, nest, s) && InNew(nest, s)
    ensures var r := Step(sem, g', s, i);
            && FlagRight(g, nest, r) && r.At? && View(nest, r) == View(nest, s)
            && Rank(nest, r) < Rank(nest, s) && r.mem == s.mem
  {
    assert nest.parentHeader in LabelsOf(g) && nest.innerHeader in LabelsOf(g);
    if s.block == nest.flagInit {
      FlagInitStep(sem, g, nest, g', s, i);
    } else {
      NewHeaderStep(sem, g, nest, g', s, i);
    }
  }

  /** Inside the inner loop the flag stays, and edges into it from outside set it. */
  lemma FlagAfterEdge(g: Graph, nest: Nest, l: Label, t: Label, before: bool)
    requires Nested(g, nest) && l in g && t in Succs(g[l].term) && (l in nest.inner ==> before)
    ensures t in nest.inner ==> FlagAfter(g, nest, l, before)
  {
  }

  /**
   From an original block: the original step after erasure, with the flag that the protocol gives it, unless
   the edge taken leads to the parent header with the flag set. Then the flattened function goes to the
   inner header instead.
   */
  lemma OriginalBlockStep<M, I>(sem: Sem<M, I>, g: Graph, nest: Nest, g': Graph, s: State<M>, i: I)
    requires Flattened(g, nest, g') && Allocated(g, nest) && Nested(g, nest) && FlagRight(g, nest, s)
             && !InNew(nest, s)
    ensures var r, c := Step(sem, g', s, i), FlaggedStep(sem, g, nest, View(nest, s), i);
            if Strays(sem, g, nest, View(nest, s), i)
            then Erase(nest, r) == c.state.(block := nest.innerHeader)
            else FlagRight(g, nest, r) && View(nest, r) == c
  {
    if s.At? {
      FlattenedStep(sem, g, nest, g', s, i);
      var e := Step(sem, g, Erase(nest, s), i);
      if e.At? {
        FlagAfterEdge(g, nest, s.block, e.block, SlotSet(s.slots, nest.flag));
        assert e.block in LabelsOf(g) && e.block in g;
      }
    }
  }

  /** After any block of the original function at most two inputs lead to the next original block. */
  lemma Settle<M, I>(sem: Sem<M, I>, g: Graph, nest: Nest, g': Graph, s: State<M>, i: I) returns (ins: seq<I>)
    requires Flattened(g, nest, g') && Allocated(g, nest) && Nested(g, nest) && FlagRight(g, nest, s)
    ensures var r := Run(Stepper(sem, g'), s, ins);
            && |ins| <= Rank(nest, s) && FlagRight(g, nest, r) && !InNew(nest, r) && View(nest, r) == View(nest, s)
            && Keep(Stepper(sem, g'), InNewIn(nest), s, ins) == []
    decreases Rank(nest, s)
  {
    if InNew(nest, s) {
      NewBlockStep(sem, g, nest, g', s, i);
      var rest := Settle(sem, g, nest, g', Step(sem, g', s, i), i);
      ins := [i] + rest;
      assert ins[1..] == rest;
    } else {
      ins := [];
    }
  }

  function InNewIn<M>(nest: Nest): State<M> -> bool {
    (s: State<M>) => InNew(nest, s)
  }

  /** A run of the flattened function that does not erase to the original run. */
  ghost predicate Differs<M, I>(sem: Sem<M, I>, g: Graph, nest: Nest, g': Graph, s: State<M>, ins: seq<I>) {
    Erase(nest, Run(Stepper(sem, g'), s, ins)) !=
    Run(Stepper(sem, g), Erase(nest, s), Keep(Stepper(sem, g'), InNewIn(nest), s, ins))
  }

  /** One more step in front of a run that differs. */
  lemma DiffersEarlier<M, I>(sem: Sem<M, I>, g: Graph, nest: Nest, g': Graph, s: State<M>, now: I,
                             quiet: seq<I>, rest: seq<I>)
    requires !InNew(nest, s)
    requires var s' := Step(sem, g', s, now);
             var there := Run(Stepper(sem, g'), s', quiet);
             && Erase(nest, s') == Step(sem, g, Erase(nest, s), now) && Erase(nest, there) == Erase(nest, s')
             && Keep(Stepper(sem, g'), InNewIn(nest), s', quiet) == []
             && Differs(sem, g, nest, g', there, rest)
    ensures Differs(sem, g, nest, g', s, [now] + (quiet + rest))
  {
    var big := Stepper(sem, g');
    var s' := big(s, now);
    var tail := quiet + rest;
    assert ([now] + tail)[1..] == tail;
    RunAppend(big, s', quiet, rest);
    KeepAppend(big, InNewIn(nest), s', quiet, rest);
    var kept := Keep(big, InNewIn(nest), Run(big, s', quiet), rest);
    assert [] + kept == kept && ([now] + kept)[1..] == kept;
    assert Keep(big, InNewIn(nest), s, [now] + tail) == [now] + kept;
  }

  /** If the original run strays after `ins` and with `i`, the flattened function has a run that differs. */
  lemma {:induction false} StrayIsLost<M, I>(sem: Sem<M, I>, g: Graph, nest: Nest, g': Graph, s: State<M>,
                                             ins: seq<I>, i: I)
    returns (bad: seq<I>)
    requires Flattened(g, nest, g') && Allocated(g, nest) && Nested(g, nest) && FlagRight(g, nest, s)
             && !InNew(nest, s)
    requires Strays(sem, g, nest, FlaggedRun(sem, g, nest, View(nest, s), ins), i)
    ensures Differs(sem, g, nest, g', s, bad)
    decreases |ins|
  {
    var now := if ins == [] then i else ins[0];
    OriginalBlockStep(sem, g, nest, g', s, now);
    if Strays(sem, g, nest, View(nest, s), now) {
      bad := [now];
      assert bad[1..] == [] && [now] + [] == [now];
      assert Keep(Stepper(sem, g'), InNewIn(nest), s, bad) == [now];
    } else {
      var s' := Step(sem, g', s, now);
      var quiet := Settle(sem, g, nest, g', s', now);
      var rest := StrayIsLost(sem, g, nest, g', Run(Stepper(sem, g'), s', quiet), ins[1..], i);
      bad := [now] + (quiet + rest);
      DiffersEarlier(sem, g, nest, g', s, now, quiet, rest);
    }
  }

  ghost predicate Preserved<M, I(!new)>(sem: Sem<M, I>, g: Graph, nest: Nest, g': Graph, s: State<M>) {
    forall ins :: !Differs(sem, g, nest, g', s, ins)
  }

  ghost predicate EverStrays<M, I(!new)>(sem: Sem<M, I>, g: Graph, nest: Nest, c: Flagged<M>) {
    exists ins, i :: Strays(sem, g, nest, FlaggedRun(sem, g, nest, c, ins), i)
  }

  lemma NeverStraysNext<M, I(!new)>(sem: Sem<M, I>, g: Graph, nest: Nest, c: Flagged<M>, i: I)
    requires !EverStrays(sem, g, nest, c)
    ensures !Strays(sem, g, nest, c, i) && !EverStrays(sem, g, nest, FlaggedStep(sem, g, nest, c, i))
  {
    assert FlaggedRun(sem, g, nest, c, []) == c;
    var c' := FlaggedStep(sem, g, nest, c, i);
    forall more, j ensures !Strays(sem, g, nest, FlaggedRun(sem, g, nest, c', more), j) {
      assert ([i] + more)[1..] == more;
      assert FlaggedRun(sem, g, nest, c, [i] + more) == FlaggedRun(sem, g, nest, c', more);
    }
  }

  lemma {:induction false} PreservedRun<M, I(!new)>(sem: Sem<M, I>, g: Graph, nest: Nest, g': Graph, s: State<M>,
                                                    ins: seq<I>)
    requires Flattened(g, nest, g') && Allocated(g, nest) && Nested(g, nest) && FlagRight(g, nest, s)
    requires !EverStrays(sem, g, nest, View(nest, s))
    ensures !Differs(sem, g, nest, g', s, ins)
    decreases |ins|
  {
    if ins != [] {
      var big := Stepper(sem, g');
      var s' := big(s, ins[0]);
      if InNew(nest, s) {
        NewBlockStep(sem, g, nest, g', s, ins[0]);
        PreservedRun(sem, g, nest, g', s', ins[1..]);
        var rest := Keep(big, InNewIn(nest), s', ins[1..]);
        assert [] + rest == rest;
      } else {
        OriginalBlockStep(sem, g, nest, g', s, ins[0]);
        NeverStraysNext(sem, g, nest, View(nest, s), ins[0]);
        PreservedRun(sem, g, nest, g', s', ins[1..]);
        var rest := Keep(big, InNewIn(nest), s', ins[1..]);
        assert ([ins[0]] + rest)[1..] == rest;
      }
    }
  }

  /** At the entry the flag is reset, so it does not matter what it was. */
  lemma EntryFlag<M, I(!new)>(sem: Sem<M, I>, g: Graph, nest: Nest, state: State<M>, a: bool, b: bool)
    requires nest.entry in g && state.At? && state.block == nest.entry
    requires EverStrays(sem, g, nest, Flagged(state, a))
    ensures EverStrays(sem, g, nest, Flagged(state, b))
  {
    var ins, i :| Strays(sem, g, nest, FlaggedRun(sem, g, nest, Flagged(state, a), ins), i);
    if ins == [] {
      assert FlaggedRun(sem, g, nest, Flagged(state, b), []) == Flagged(state, b);
    } else {
      assert FlaggedStep(sem, g, nest, Flagged(state, a), ins[0])
             == FlaggedStep(sem, g, nest, Flagged(state, b), ins[0]);
    }
    assert Strays(sem, g, nest, FlaggedRun(sem, g, nest, Flagged(state, b), ins), i);
  }

  /** The original function at its entry, with the flag that the pass resets there. */
  function Entered<M>(nest: Nest, mem: M, slots: map<Slot, int>): Flagged<M> {
    Flagged(At(nest.entry, mem, slots - {nest.flag}), false)
  }

  /**
   Exactly when flattening preserves the runs of a function: from its entry, every run of the flattened
   function erases to an original one if and only if no original run takes an edge to the parent header
   while the flag is set.
   */
  lemma PreservedIffNeverStrays<M, I(!new)>(sem: Sem<M, I>, g: Graph, nest: Nest, g': Graph, mem: M,
                                            slots: map<Slot, int>)
    requires Flattened(g, nest, g') && Allocated(g, nest) && Nested(g, nest)
    ensures Preserved(sem, g, nest, g', At(nest.entry, mem, slots))
            <==> !EverStrays(sem, g, nest, Entered(nest, mem, slots))
  {
    var s := At(nest.entry, mem, slots);
    assert nest.entry in LabelsOf(g);
    var c := View(nest, s);
    if EverStrays(sem, g, nest, Entered(nest, mem, slots)) {
      EntryFlag(sem, g, nest, c.state, false, c.on);
      var ins, i :| Strays(sem, g, nest, FlaggedRun(sem, g, nest, c, ins), i);
      var bad := StrayIsLost(sem, g, nest, g', s, ins, i);
    } else {
      if EverStrays(sem, g, nest, c) {
        EntryFlag(sem, g, nest, c.state, c.on, false);
      }
      forall ins ensures !Differs(sem, g, nest, g', s, ins) {
        PreservedRun(sem, g, nest, g', s, ins);
      }
    }
  }

  // ---------------------------------------------------------------------------------------------
  // The condition read off the graph.

  /** A way through the graph from the entry. */
  ghost predicate EntryPath(g: Graph, nest: Nest, p: seq<Label>) {
    && p != [] && p[0] == nest.entry
    && forall k | 0 <= k < |p| - 1 :: p[k] in g && p[k + 1] in Succs(g[p[k]].term)
  }

  /** Whether the flag is set at the end of the way, before its last block. */
  predicate FlagAlong(g: Graph, nest: Nest, p: seq<Label>)
    decreases |p|
  {
    if |p| <= 1 then false
    else p[|p| - 2] in g && FlagAfter(g, nest, p[|p| - 2], FlagAlong(g, nest, p[..|p| - 1]))
  }

  /** The way goes on to the parent header with the flag set. */
  ghost predicate StrayPath(g: Graph, nest: Nest, p: seq<Label>) {
    && EntryPath(g, nest, p)
    && var l := p[|p| - 1];
       l in g && nest.parentHeader in Succs(g[l].term) && FlagAfter(g, nest, l, FlagAlong(g, nest, p))
  }

  ghost predicate CanStray(g: Graph, nest: Nest) {
    exists p :: StrayPath(g, nest, p)
  }

  lemma PathGrows(g: Graph, nest: Nest, p: seq<Label>, t: Label)
    requires EntryPath(g, nest, p) && p[|p| - 1] in g && t in Succs(g[p[|p| - 1]].term)
    ensures EntryPath(g, nest, p + [t])
    ensures FlagAlong(g, nest, p + [t]) == FlagAfter(g, nest, p[|p| - 1], FlagAlong(g, nest, p))
  {
    assert (p + [t])[..|p|] == p;
  }

  /** Every run goes along a way through the graph, with the flag of that way. */
  lemma {:induction false} RunIsPath<M, I>(sem: Sem<M, I>, g: Graph, nest: Nest, c: Flagged<M>, q: seq<Label>,
                                           ins: seq<I>)
    returns (p: seq<Label>)
    requires WellFormed(g) && c.state.At? && c.state.block in g
    requires EntryPath(g, nest, q) && q[|q| - 1] == c.state.block && FlagAlong(g, nest, q) == c.on
    ensures var e := FlaggedRun(sem, g, nest, c, ins);
            e.state.At? ==>
              EntryPath(g, nest, p) && p[|p| - 1] == e.state.block && FlagAlong(g, nest, p) == e.on
    decreases |ins|
  {
    p := q;
    if ins != [] {
      var c' := FlaggedStep(sem, g, nest, c, ins[0]);
      if c'.state.At? {
        StepAlongEdge(sem, g, c.state, ins[0]);
        PathGrows(g, nest, q, c'.state.block);
        p := RunIsPath(sem, g, nest, c', q + [c'.state.block], ins[1..]);
      } else {
        StaysOver(sem, g, nest, c', ins[1..]);
      }
    }
  }

  lemma {:induction false} StaysOver<M, I>(sem: Sem<M, I>, g: Graph, nest: Nest, c: Flagged<M>, ins: seq<I>)
    requires !c.state.At?
    ensures !FlaggedRun(sem, g, nest, c, ins).state.At?
    decreases |ins|
  {
    if ins != [] {
      StaysOver(sem, g, nest, FlaggedStep(sem, g, nest, c, ins[0]), ins[1..]);
    }
  }

  /** If no way through the graph strays, flattening preserves the function, whatever its code does. */
  lemma PreservedIfNoPathStrays<M, I(!new)>(sem: Sem<M, I>, g: Graph, nest: Nest, g': Graph, mem: M,
                                            slots: map<Slot, int>)
    requires Flattened(g, nest, g') && Allocated(g, nest) && Nested(g, nest) && !CanStray(g, nest)
    ensures Preserved(sem, g, nest, g', At(nest.entry, mem, slots))
  {
    var c := Entered(nest, mem, slots);
    forall ins, i ensures !Strays(sem, g, nest, FlaggedRun(sem, g, nest, c, ins), i) {
      var e := FlaggedRun(sem, g, nest, c, ins);
      var p := RunIsPath(sem, g, nest, c, [nest.entry], ins);
      if Strays(sem, g, nest, e, i) {
        StepAlongEdge(sem, g, e.state, i);
        assert StrayPath(g, nest, p);
      }
    }
    PreservedIffNeverStrays(sem, g, nest, g', mem, slots);
  }

  /** A program before any pass: its own instructions, and branches on its own conditions. */
  ghost predicate AllFree(g: Graph) {
    forall l | l in g :: && (forall k | 0 <= k < |g[l].instrs| :: g[l].instrs[k].Op?)
                         && (g[l].term.Branch? ==> g[l].term.sel.ByCode?)
  }

  lemma {:induction false} FlaggedSnoc<M, I>(sem: Sem<M, I>, g: Graph, nest: Nest, c: Flagged<M>, ins: seq<I>, i: I)
    ensures FlaggedRun(sem, g, nest, c, ins + [i]) == FlaggedStep(sem, g, nest, FlaggedRun(sem, g, nest, c, ins), i)
    decreases |ins|
  {
    if ins == [] {
      assert [] + [i] == [i] && [i][1..] == [];
    } else {
      assert (ins + [i])[1..] == ins[1..] + [i];
      FlaggedSnoc(sem, g, nest, FlaggedStep(sem, g, nest, c, ins[0]), ins[1..], i);
    }
  }

  /** With free branches any edge can be taken. */
  lemma FreeStep(g: Graph, nest: Nest, l: Label, t: Label, slots: map<Slot, int>) returns (i: nat)
    requires AllFree(g) && l in g && t in Succs(g[l].term)
    ensures Step(Free(), g, At(l, (), slots), i) == At(t, (), slots)
  {
    var succs := g[l].term.succs;
    i :| i < |succs| && succs[i] == t;
    FreeExec(g[l].instrs, slots, i);
    assert i % |succs| == i;
  }

  /** With free branches every way through the graph is a run. */
  lemma {:induction false} PathIsRun(g: Graph, nest: Nest, p: seq<Label>, slots: map<Slot, int>)
    returns (ins: seq<nat>)
    requires AllFree(g) && EntryPath(g, nest, p)
    ensures FlaggedRun(Free(), g, nest, Entered(nest, (), slots), ins) ==
            Flagged(At(p[|p| - 1], (), slots - {nest.flag}), FlagAlong(g, nest, p))
    decreases |p|
  {
    var c := Entered(nest, (), slots);
    if |p| == 1 {
      ins := [];
    } else {
      var q, l := p[..|p| - 1], p[|p| - 2];
      var before := PathIsRun(g, nest, q, slots);
      assert l in g && p[|p| - 2 + 1] in Succs(g[l].term);
      var i := FreeStep(g, nest, l, p[|p| - 1], slots - {nest.flag});
      FlaggedSnoc(Free(), g, nest, c, before, i);
      ins := before + [i];
    }
  }

  /**
   So the condition on the graph is exact: if branches are free, the function is preserved if and only if no
   way from the entry takes an edge to the parent header with the flag set. Free branches are the worst case.
   */
  lemma PreservedIffNoPathStrays(g: Graph, nest: Nest, g': Graph, slots: map<Slot, int>)
    requires Flattened(g, nest, g') && Allocated(g, nest) && Nested(g, nest) && AllFree(g)
    ensures Preserved(Free(), g, nest, g', At(nest.entry, (), slots)) <==> !CanStray(g, nest)
  {
    if CanStray(g, nest) {
      var p :| StrayPath(g, nest, p);
      var ins := PathIsRun(g, nest, p, slots);
      var i := FreeStep(g, nest, p[|p| - 1], nest.parentHeader, slots - {nest.flag});
      assert Strays(Free(), g, nest, FlaggedRun(Free(), g, nest, Entered(nest, (), slots), ins), i);
      PreservedIffNeverStrays(Free(), g, nest, g', (), slots);
    } else {
      PreservedIfNoPathStrays(Free(), g, nest, g', (), slots);
    }
  }

  // ---------------------------------------------------------------------------------------------
  // Which edges stray.

  /** The flag is set inside the inner loop. */
  ghost predicate InnerSet<M>(g: Graph, nest: Nest, c: Flagged<M>) {
    c.state.At? ==> c.state.block in g && (c.state.block in nest.inner ==> c.on)
  }

  lemma {:induction false} InnerStaysSet<M, I>(sem: Sem<M, I>, g: Graph, nest: Nest, c: Flagged<M>, ins: seq<I>)
    requires Nested(g, nest) && InnerSet(g, nest, c)
    ensures InnerSet(g, nest, FlaggedRun(sem, g, nest, c, ins))
    decreases |ins|
  {
    if ins != [] {
      var c' := FlaggedStep(sem, g, nest, c, ins[0]);
      if c'.state.At? {
        StepAlongEdge(sem, g, c.state, ins[0]);
        FlagAfterEdge(g, nest, c.state.block, c'.state.block, c.on);
      }
      InnerStaysSet(sem, g, nest, c', ins[1..]);
    }
  }

  /** The next step goes from inside the inner loop straight to the parent header. */
  ghost predicate Continues<M, I>(sem: Sem<M, I>, g: Graph, nest: Nest, s: State<M>, i: I) {
    s.At? && s.block in nest.inner && var r := Step(sem, g, s, i); r.At? && r.block == nest.parentHeader
  }

  ghost predicate EverContinues<M, I(!new)>(sem: Sem<M, I>, g: Graph, nest: Nest, s: State<M>) {
    exists ins, i :: Continues(sem, g, nest, Run(Stepper(sem, g), s, ins), i)
  }

  /** An edge from inside the inner loop straight to the parent header is lost whenever it is taken. */
  lemma ContinueStrays<M, I(!new)>(sem: Sem<M, I>, g: Graph, nest: Nest, mem: M, slots: map<Slot, int>)
    requires Nested(g, nest) && EverContinues(sem, g, nest, Entered(nest, mem, slots).state)
    ensures EverStrays(sem, g, nest, Entered(nest, mem, slots))
  {
    var c := Entered(nest, mem, slots);
    var ins, i :| Continues(sem, g, nest, Run(Stepper(sem, g), c.state, ins), i);
    FlaggedIsRun(sem, g, nest, c, ins);
    InnerStaysSet(sem, g, nest, c, ins);
    assert Strays(sem, g, nest, FlaggedRun(sem, g, nest, c, ins), i);
  }

  /** A block outside the inner loop that can lead into it, whatever else it can lead to. */
  ghost predicate InFront(g: Graph, nest: Nest, l: Label) {
    l in g && l !in nest.inner && nest.innerHeader in Succs(g[l].term)
  }

  /** A block in front of the inner loop sets the flag whichever way it goes: its jump to the parent header is lost. */
  lemma JumpAroundStrays<M, I>(sem: Sem<M, I>, g: Graph, nest: Nest, c: Flagged<M>, i: I)
    requires c.state.At? && InFront(g, nest, c.state.block)
    requires var r := Step(sem, g, c.state, i); r.At? && r.block == nest.parentHeader
    ensures Strays(sem, g, nest, c, i)
  {
  }

  /** So is the way around by a block that does not reset the flag, as in `while (..) { if (a) while (b) ..; }`. */
  lemma WayAroundStrays<M, I>(sem: Sem<M, I>, g: Graph, nest: Nest, c: Flagged<M>, i: I, j: I)
    requires c.state.At? && InFront(g, nest, c.state.block)
    requires var r := Step(sem, g, c.state, i);
             && r.At? && r.block in g && r.block !in nest.inner && !Resets(g, nest, r.block)
             && var q := Step(sem, g, r, j); q.At? && q.block == nest.parentHeader
    ensures Strays(sem, g, nest, FlaggedStep(sem, g, nest, c, i), j)
  {
  }

  /**
   What a caller can check: an edge to the parent header from inside the inner loop, or from a block in
   front of it, is taken by some run if the block can be reached and the branches are free.
   */
  lemma StrayEdgeTaken(g: Graph, nest: Nest, l: Label, slots: map<Slot, int>)
    requires Nested(g, nest) && (l in nest.inner || InFront(g, nest, l)) && nest.parentHeader in Succs(g[l].term)
    requires g[l].term.sel.ByCode? && forall k | 0 <= k < |g[l].instrs| :: g[l].instrs[k].Op?
    requires Reaches(Free(), g, Entered(nest, (), slots).state, At(l, (), slots - {nest.flag}))
    ensures EverStrays(Free(), g, nest, Entered(nest, (), slots))
  {
    var c, here := Entered(nest, (), slots), At(l, (), slots - {nest.flag});
    var ins :| Run(Stepper(Free(), g), c.state, ins) == here;
    var succs := g[l].term.succs;
    var k: nat :| k < |succs| && succs[k] == nest.parentHeader;
    FreeExec(g[l].instrs, here.slots, k);
    assert k % |succs| == k;
    FlaggedIsRun(Free(), g, nest, c, ins);
    InnerStaysSet(Free(), g, nest, c, ins);
    assert Strays(Free(), g, nest, FlaggedRun(Free(), g, nest, c, ins), k);
  }

  // ---------------------------------------------------------------------------------------------
  // Where no edge can stray.

  /**
   The flag is set at most on entry to the blocks of `may`: an edge taken with the flag set stays among
   them and does not lead to the parent header.
   */
  ghost predicate Kept(g: Graph, nest: Nest, may: set<Label>) {
    && nest.inner <= may
    && forall l, t | l in g && t in Succs(g[l].term) && FlagAfter(g, nest, l, l in may) :: t in may
        && t != nest.parentHeader
  }

  ghost predicate FlagWithin<M>(g: Graph, nest: Nest, may: set<Label>, s: State<M>) {
    FlagRight(g, nest, s) && (s.At? && s.block in g && SlotSet(s.slots, nest.flag) ==> s.block in may)
  }

  ghost function FlagWithinIn<M>(g: Graph, nest: Nest, may: set<Label>): State<M> -> bool {
    (s: State<M>) => FlagWithin(g, nest, may, s)
  }

  function Erasing<M>(nest: Nest): State<M> -> State<M> {
    (s: State<M>) => Erase(nest, s)
  }

  function RankIn<M>(nest: Nest): State<M> -> nat {
    (s: State<M>) => Rank(nest, s)
  }

  /** Where the flag is kept, the original run does not stray. */
  lemma KeptNeverStrays<M, I>(sem: Sem<M, I>, g: Graph, nest: Nest, may: set<Label>, c: Flagged<M>, i: I)
    requires Kept(g, nest, may) && c.state.At? && c.state.block in g && (c.on ==> c.state.block in may)
    ensures !Strays(sem, g, nest, c, i)
    ensures var c' := FlaggedStep(sem, g, nest, c, i); c'.state.At? && c'.on ==> c'.state.block in may
  {
    if Step(sem, g, c.state, i).At? {
      StepAlongEdge(sem, g, c.state, i);
      KeptEdge(g, nest, may, c.state.block, Step(sem, g, c.state, i).block, c.on);
    }
  }

  lemma KeptEdge(g: Graph, nest: Nest, may: set<Label>, l: Label, t: Label, before: bool)
    requires Kept(g, nest, may) && l in g && t in Succs(g[l].term) && (before ==> l in may)
    ensures FlagAfter(g, nest, l, before) ==> t in may && t != nest.parentHeader
  {
    if FlagAfter(g, nest, l, before) {
      assert FlagAfter(g, nest, l, l in may);
    }
  }

  lemma KeptStep<M, I>(sem: Sem<M, I>, g: Graph, nest: Nest, g': Graph, may: set<Label>, s: State<M>, i: I)
    requires Flattened(g, nest, g') && Allocated(g, nest) && Nested(g, nest) && Kept(g, nest, may)
    requires FlagWithin(g, nest, may, s)
    ensures var r := Step(sem, g', s, i);
            && FlagWithin(g, nest, may, r)
            && if InNew(nest, s) then Erase(nest, r) == Erase(nest, s) && Rank(nest, r) < Rank(nest, s)
               else Erase(nest, r) == Step(sem, g, Erase(nest, s), i)
  {
    var r := Step(sem, g', s, i);
    if InNew(nest, s) {
      NewBlockStep(sem, g, nest, g', s, i);
      ViewWithin(g, nest, may, s, r);
    } else if s.At? {
      OriginalBlockStep(sem, g, nest, g', s, i);
      KeptNeverStrays(sem, g, nest, may, View(nest, s), i);
      if r.At? && r.block in g {
        NotNew(g, nest, r);
      }
    }
  }

  lemma NotNew<M>(g: Graph, nest: Nest, s: State<M>)
    requires Allocated(g, nest) && s.At? && s.block in g
    ensures !InNew(nest, s) && Erase(nest, s).block == s.block
  {
    assert s.block in LabelsOf(g);
  }

  /** From a new block the flag leads to the inner header, or it is not set. */
  lemma ViewWithin<M>(g: Graph, nest: Nest, may: set<Label>, s: State<M>, r: State<M>)
    requires Allocated(g, nest) && Nested(g, nest) && Kept(g, nest, may)
    requires InNew(nest, s) && r.At? && FlagRight(g, nest, r) && View(nest, r) == View(nest, s)
    ensures FlagWithin(g, nest, may, r)
  {
    if r.block in g {
      NotNew(g, nest, r);
    }
  }

  /**
   Flattening preserves meaning wherever no edge can stray: erasing the flag and the two new blocks gives
   exactly the original runs, at most two extra steps for each edge.
   */
  lemma FlattenedRefines<M(!new), I(!new)>(sem: Sem<M, I>, g: Graph, nest: Nest, g': Graph, may: set<Label>)
    requires Flattened(g, nest, g') && Allocated(g, nest) && Nested(g, nest) && Kept(g, nest, may)
    ensures Refines(Stepper(sem, g'), Stepper(sem, g), FlagWithinIn(g, nest, may), InNewIn(nest), Erasing(nest),
                    RankIn(nest))
    ensures forall s: State<M> :: Rank(nest, s) <= 2
  {
    var big, small := Stepper(sem, g'), Stepper(sem, g);
    forall s: State<M>, i: I | FlagWithin(g, nest, may, s)
      ensures FlagWithin(g, nest, may, big(s, i))
      ensures if InNew(nest, s) then Erase(nest, big(s, i)) == Erase(nest, s) && Rank(nest, big(s, i)) < Rank(nest, s)
              else Erase(nest, big(s, i)) == small(Erase(nest, s), i)
    {
      KeptStep(sem, g, nest, g', may, s, i);
    }
  }

  /** The blocks in front of the inner loop can go nowhere else, as in loop-simplify form. */
  ghost predicate HasPreheader(g: Graph, nest: Nest) {
    forall l, t | InFront(g, nest, l) && t in Succs(g[l].term) :: t == nest.innerHeader
  }

  /** No block of the inner loop leads straight to the parent header: every exit of it is a block of its own. */
  ghost predicate NoContinue(g: Graph, nest: Nest) {
    forall l | l in nest.inner && l in g :: nest.parentHeader !in Succs(g[l].term)
  }

  /** With a preheader and exits of its own, the inner loop keeps the flag to itself and its exits. */
  lemma PreheaderKept(g: Graph, nest: Nest)
    requires Nested(g, nest) && HasPreheader(g, nest) && NoContinue(g, nest)
    ensures Kept(g, nest, nest.inner + set l | l in g && Resets(g, nest, l))
  {
    var may := nest.inner + set l | l in g && Resets(g, nest, l);
    forall l, t | l in g && t in Succs(g[l].term) && FlagAfter(g, nest, l, l in may)
      ensures t in may && t != nest.parentHeader
    {
      if l in nest.inner && t !in nest.inner {
        assert IsExit(g, nest.inner, t);
      }
    }
  }

  // ---------------------------------------------------------------------------------------------
  // One application after the other.

  /** Some run comes by a block with this memory. */
  ghost predicate Observes<M(!new), I(!new)>(sem: Sem<M, I>, g: Graph, s: State<M>, l: Label, mem: M) {
    exists slots :: Reaches(sem, g, s, At(l, mem, slots))
  }

  lemma FlattenedErases<M(!new), I(!new)>(sem: Sem<M, I>, g: Graph, nest: Nest, g': Graph, may: set<Label>,
                                          s: State<M>, ins: seq<I>)
    requires Flattened(g, nest, g') && Allocated(g, nest) && Nested(g, nest) && Kept(g, nest, may)
    requires FlagWithin(g, nest, may, s)
    ensures Reaches(sem, g, Erase(nest, s), Erase(nest, Run(Stepper(sem, g'), s, ins)))
  {
    FlattenedRefines(sem, g, nest, g', may);
    ErasedRun(Stepper(sem, g'), Stepper(sem, g), FlagWithinIn(g, nest, may), InNewIn(nest), Erasing(nest),
              RankIn(nest), s, ins);
    assert Run(Stepper(sem, g), Erase(nest, s), Keep(Stepper(sem, g'), InNewIn(nest), s, ins)) ==
           Erase(nest, Run(Stepper(sem, g'), s, ins));
  }

  /** Every original run is the erasure of one that ends at the original block. */
  lemma FlattenedReaches<M(!new), I(!new)>(sem: Sem<M, I>, g: Graph, nest: Nest, g': Graph, may: set<Label>,
                                           s: State<M>, ins: seq<I>) returns (r: State<M>)
    requires Flattened(g, nest, g') && Allocated(g, nest) && Nested(g, nest) && Kept(g, nest, may)
    requires FlagWithin(g, nest, may, s) && !InNew(nest, s)
    ensures Reaches(sem, g', s, r) && !InNew(nest, r) && Erase(nest, r) == Run(Stepper(sem, g), Erase(nest, s), ins)
  {
    var big := Stepper(sem, g');
    FlattenedRefines(sem, g, nest, g', may);
    var padded := PaddedRun(big, Stepper(sem, g), FlagWithinIn(g, nest, may), InNewIn(nest), Erasing(nest),
                            RankIn(nest), 2, s, ins);
    ErasedRun(big, Stepper(sem, g), FlagWithinIn(g, nest, may), InNewIn(nest), Erasing(nest), RankIn(nest), s, padded);
    r := Run(big, s, padded);
    if InNew(nest, r) {
      var quiet := Settle(sem, g, nest, g', r, padded[0]);
      RunAppend(big, s, padded, quiet);
      r := Run(big, r, quiet);
      assert r == Run(big, s, padded + quiet);
    }
  }

  lemma FlattenedSameObservations<M(!new), I(!new)>(sem: Sem<M, I>, g: Graph, nest: Nest, g': Graph, may: set<Label>,
                                                    s: State<M>, l: Label, mem: M)
    requires Flattened(g, nest, g') && Allocated(g, nest) && Nested(g, nest) && Kept(g, nest, may)
    requires FlagWithin(g, nest, may, s) && !InNew(nest, s) && Erase(nest, s) == s && l in g
    ensures Observes(sem, g', s, l, mem) <==> Observes(sem, g, s, l, mem)
  {
    assert l in LabelsOf(g);
    if Observes(sem, g', s, l, mem) {
      var slots, ins :| Run(Stepper(sem, g'), s, ins) == At(l, mem, slots);
      FlattenedErases(sem, g, nest, g', may, s, ins);
      assert Reaches(sem, g, s, At(l, mem, slots - {nest.flag}));
    }
    if Observes(sem, g, s, l, mem) {
      var slots, ins :| Run(Stepper(sem, g), s, ins) == At(l, mem, slots);
      var r := FlattenedReaches(sem, g, nest, g', may, s, ins);
      assert r == At(l, mem, r.slots);
    }
  }

  lemma FlattenedSameEnds<M(!new), I(!new)>(sem: Sem<M, I>, g: Graph, nest: Nest, g': Graph, may: set<Label>,
                                            s: State<M>, r: State<M>)
    requires Flattened(g, nest, g') && Allocated(g, nest) && Nested(g, nest) && Kept(g, nest, may)
    requires FlagWithin(g, nest, may, s) && !InNew(nest, s) && Erase(nest, s) == s && !r.At?
    ensures Reaches(sem, g', s, r) <==> Reaches(sem, g, s, r)
  {
    if Reaches(sem, g', s, r) {
      var ins :| Run(Stepper(sem, g'), s, ins) == r;
      FlattenedErases(sem, g, nest, g', may, s, ins);
    }
    if Reaches(sem, g, s, r) {
      var ins :| Run(Stepper(sem, g), s, ins) == r;
      var r' := FlattenedReaches(sem, g, nest, g', may, s, ins);
    }
  }

  /** One application of the pass, to any loop where no edge can stray. */
  ghost predicate FlattenedOnce(g: Graph, g': Graph, entry: Label) {
    exists nest, may :: IsFlattening(g, nest, may, g', entry)
  }

  ghost predicate IsFlattening(g: Graph, nest: Nest, may: set<Label>, g': Graph, entry: Label) {
    nest.entry == entry && Flattened(g, nest, g') && Allocated(g, nest) && Nested(g, nest) && Kept(g, nest, may)
  }

  ghost predicate FlattenedOverAndOver(gs: seq<Graph>, entry: Label) {
    gs != [] && forall k | 0 < k < |gs| :: FlattenedOnce(gs[k - 1], gs[k], entry)
  }

  lemma FlattenedOnceSame<M(!new), I(!new)>(sem: Sem<M, I>, g: Graph, g': Graph, entry: Label, start: M)
    requires FlattenedOnce(g, g', entry)
    ensures g.Keys <= g'.Keys
    ensures forall l, mem | l in g :: Observes(sem, g', At(entry, start, map[]), l, mem) <==>
                                      Observes(sem, g, At(entry, start, map[]), l, mem)
    ensures forall r: State<M> | !r.At? :: Reaches(sem, g', At(entry, start, map[]), r) <==>
                                           Reaches(sem, g, At(entry, start, map[]), r)
  {
    var nest, may :| IsFlattening(g, nest, may, g', entry);
    var s := At(entry, start, map[]);
    var unset: map<Slot, int> := map[];
    assert entry in LabelsOf(g) && unset - {nest.flag} == unset;
    forall l | l in g ensures l in g' {
      assert BlockFlattened(g, nest, g', l);
    }
    forall l, mem | l in g ensures Observes(sem, g', s, l, mem) <==> Observes(sem, g, s, l, mem) {
      FlattenedSameObservations(sem, g, nest, g', may, s, l, mem);
    }
    forall r: State<M> | !r.At? ensures Reaches(sem, g', s, r) <==> Reaches(sem, g, s, r) {
      FlattenedSameEnds(sem, g, nest, g', may, s, r);
    }
  }

  /**
   Any number of applications: from the entry, with no slot of a pass in use yet, the original blocks are
   met with the same memories, and the function ends in the same ways.
   */
  lemma {:induction false} FlatteningUnobservable<M(!new), I(!new)>(sem: Sem<M, I>, gs: seq<Graph>, entry: Label,
                                                                    start: M)
    requires FlattenedOverAndOver(gs, entry)
    ensures var last := gs[|gs| - 1];
            && gs[0].Keys <= last.Keys
            && (forall l, mem | l in gs[0] :: Observes(sem, last, At(entry, start, map[]), l, mem) <==>
                                              Observes(sem, gs[0], At(entry, start, map[]), l, mem))
            && (forall r: State<M> | !r.At? :: Reaches(sem, last, At(entry, start, map[]), r) <==>
                                               Reaches(sem, gs[0], At(entry, start, map[]), r))
    decreases |gs|
  {
    if |gs| > 1 {
      var front := gs[..|gs| - 1];
      FlatteningUnobservable(sem, front, entry, start);
      assert FlattenedOnce(gs[|gs| - 1 - 1], gs[|gs| - 1], entry);
      FlattenedOnceSame(sem, front[|front| - 1], gs[|gs| - 1], entry, start);
    }
  }
}
