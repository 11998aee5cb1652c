/**
 Unrolling a loop by cloning its body again and again, each copy's back edges leading to the next copy,
 and optionally cutting the runs that would need one more copy.
 */
module Unrolling {
  import opened Common
  import opened Runs
  import opened Cfg

  function IndexOf(xs: seq<Label>, x: Label): (k: nat)
    requires x in xs
    ensures k < |xs| && xs[k] == x
  {
    if xs[0] == x then 0 else 1 + IndexOf(xs[1..], x)
  }

  function Elems(xs: seq<Label>): set<Label> {
    set l | l in xs
  }

  predicate Distinct(xs: seq<Label>) {
    forall j, k | 0 <= j < k < |xs| :: xs[j] != xs[k]
  }

  /** Where an edge of the clone leads that led to `l` in the original. */
  function Cloned(from: seq<Label>, to: seq<Label>, l: Label): Label
    requires |from| == |to|
  {
    if l in from then to[IndexOf(from, l)] else l
  }

  function ClonedTerm(from: seq<Label>, to: seq<Label>, t: Terminator): (r: Terminator)
    requires |from| == |to|
    ensures t.Branch? ==> r.Branch? && r.sel == t.sel && |r.succs| == |t.succs|
    ensures t.Branch? ==> forall k | 0 <= k < |t.succs| :: r.succs[k] == Cloned(from, to, t.succs[k])
    ensures !t.Branch? ==> r == t
  {
    if t.Branch? then t.(succs := seq(|t.succs|, k requires 0 <= k < |t.succs| => Cloned(from, to, t.succs[k]))) else t
  }

  ghost predicate IsClone(g: Graph, blocks: seq<Label>, copy: seq<Label>, g': Graph, j: nat)
    requires j < |blocks| == |copy|
  {
    && blocks[j] in g && copy[j] in g'
    && g'[copy[j]] == Block(g[blocks[j]].instrs, ClonedTerm(blocks, copy, g[blocks[j]].term))
  }

  /** The graph after one more copy: the old blocks lead to the new header, the new ones to their own. */
  ghost predicate OneMoreCopy(g: Graph, blocks: seq<Label>, copy: seq<Label>, g': Graph) {
    && blocks != [] && |copy| == |blocks| && Distinct(copy) && (forall l | l in blocks :: l in g)
    && (forall l | l in copy :: l !in LabelsOf(g))
    && g'.Keys == g.Keys + Elems(copy)
    && (forall l | l in g && l !in blocks :: l in g' && g'[l] == g[l])
    && (forall l | l in blocks :: l in g' && g'[l] == Block(g[l].instrs, Redirected(g[l].term, blocks[0], copy[0])))
    && (forall j | 0 <= j < |blocks| :: IsClone(g, blocks, copy, g', j))
  }

  /** Clones every block, with its edges still leading where the original's lead. */
  method CloneBlocks(f: Function, blocks: seq<Label>) returns (copy: seq<Label>)
    requires forall l | l in blocks :: l in f.blocks
    modifies f
    ensures |copy| == |blocks| && Distinct(copy)
    ensures forall l | l in copy :: l !in LabelsOf(old(f.blocks))
    ensures f.blocks.Keys == old(f.blocks).Keys + Elems(copy)
    ensures forall l | l in old(f.blocks) :: f.blocks[l] == old(f.blocks)[l]
    ensures forall j | 0 <= j < |blocks| :: copy[j] in f.blocks && f.blocks[copy[j]] == old(f.blocks)[blocks[j]]
  {
    copy := [];
    var first := Fresh(LabelsOf(f.blocks));
    for j := 0 to |blocks|
      invariant |copy| == j && forall k | 0 <= k < j :: copy[k] == first + k
      invariant f.blocks.Keys == old(f.blocks).Keys + Elems(copy)
      invariant forall l | l in old(f.blocks) :: f.blocks[l] == old(f.blocks)[l]
      invariant forall k | 0 <= k < j :: copy[k] in f.blocks && f.blocks[copy[k]] == old(f.blocks)[blocks[k]]
    {
      assert blocks[j] in blocks;
      f.blocks := f.blocks[first + j := f.blocks[blocks[j]]];
      ghost var before := copy;
      copy := copy + [first + j];
      assert Elems(copy) == Elems(before) + {first + j};
    }
  }

  /** Leads the edges of one clone to the other clones. */
  method RedirectEdges(f: Function, orig: Label, clone: Label, blocks: seq<Label>, copy: seq<Label>)
    requires orig in f.blocks && clone in f.blocks && orig != clone && |blocks| == |copy|
    requires f.blocks[clone] == f.blocks[orig]
    modifies f
    ensures f.blocks == old(f.blocks)[clone := Block(old(f.blocks)[orig].instrs,
                                                     ClonedTerm(blocks, copy, old(f.blocks)[orig].term))]
  {
    ghost var g := f.blocks;
    var t := f.blocks[orig].term;
    for k := 0 to |Succs(t)|
      invariant f.blocks.Keys == g.Keys && forall l | l in g && l != clone :: f.blocks[l] == g[l]
      invariant f.blocks[clone].instrs == g[orig].instrs
      invariant t.Branch? ==> f.blocks[clone].term.Branch? && f.blocks[clone].term.sel == t.sel
      invariant !t.Branch? ==> f.blocks[clone].term == t
      invariant |Succs(f.blocks[clone].term)| == |Succs(t)|
      invariant forall j | 0 <= j < |Succs(t)| ::
                Succs(f.blocks[clone].term)[j] == if j < k then Cloned(blocks, copy, Succs(t)[j]) else Succs(t)[j]
    {
      if t.succs[k] in blocks {
        var b := f.blocks[clone];
        var succs := b.term.succs[k := copy[IndexOf(blocks, t.succs[k])]];
        f.blocks := f.blocks[clone := b.(term := b.term.(succs := succs))];
      }
    }
    assert t.Branch? ==> f.blocks[clone].term.succs == ClonedTerm(blocks, copy, t).succs;
    assert f.blocks == g[clone := Block(g[orig].instrs, ClonedTerm(blocks, copy, t))];
  }

  /** The clones lead to each other; nothing else has changed. */
  ghost predicate Linked(g: Graph, blocks: seq<Label>, copy: seq<Label>, g': Graph) {
    && |copy| == |blocks| && g'.Keys == g.Keys + Elems(copy)
    && (forall l | l in g :: g'[l] == g[l])
    && (forall j | 0 <= j < |blocks| :: IsClone(g, blocks, copy, g', j))
  }

  /** Redirects the clones one by one. */
  method LinkClones(f: Function, blocks: seq<Label>, copy: seq<Label>, ghost g: Graph)
    requires |copy| == |blocks| && Distinct(copy) && f.blocks.Keys == g.Keys + Elems(copy)
    requires forall l | l in g :: f.blocks[l] == g[l]
    requires forall j | 0 <= j < |blocks| ::
               blocks[j] in g && copy[j] !in g && copy[j] in f.blocks && f.blocks[copy[j]] == g[blocks[j]]
    modifies f
    ensures Linked(g, blocks, copy, f.blocks)
  {
    ghost var cloned := f.blocks;
    for j := 0 to |blocks|
      invariant f.blocks.Keys == cloned.Keys
      invariant forall l | l in g :: f.blocks[l] == g[l]
      invariant forall k | 0 <= k < j :: IsClone(g, blocks, copy, f.blocks, k)
      invariant forall k | j <= k < |blocks| :: f.blocks[copy[k]] == cloned[copy[k]]
    {
      ghost var before := f.blocks;
      RedirectEdges(f, blocks[j], copy[j], blocks, copy);
      assert forall k | 0 <= k < |blocks| && k != j :: f.blocks[copy[k]] == before[copy[k]];
      forall k | 0 <= k < j ensures IsClone(g, blocks, copy, f.blocks, k) {
        assert IsClone(g, blocks, copy, before, k);
      }
    }
  }

  method CloneLoopBody(f: Function, blocks: seq<Label>) returns (copy: seq<Label>)
    requires blocks != [] && Distinct(blocks) && forall l | l in blocks :: l in f.blocks
    modifies f
    ensures OneMoreCopy(old(f.blocks), blocks, copy, f.blocks)
  {
    ghost var g := f.blocks;
    copy := CloneBlocks(f, blocks);
    forall j | 0 <= j < |blocks| ensures blocks[j] in g && copy[j] !in g {
      assert blocks[j] in blocks && copy[j] in copy;
    }
    LinkClones(f, blocks, copy, g);
    ghost var linked := f.blocks;
    f.ReplaceSuccessors(Elems(blocks), blocks[0], copy[0]);
    forall j | 0 <= j < |blocks| ensures IsClone(g, blocks, copy, f.blocks, j) {
      assert IsClone(g, blocks, copy, linked, j) && copy[j] !in Elems(blocks);
    }
  }

  // ---------------------------------------------------------------------------------------------
  // The shape of an unrolled loop.

  /** Where an edge of copy `k` leads that led to `t` in the original. */
  function Dest(blocks: seq<Label>, copies: seq<seq<Label>>, last: Label, k: nat, t: Label): Label
    requires blocks != [] && k < |copies| && forall i | 0 <= i < |copies| :: |copies[i]| == |blocks|
  {
    if t == blocks[0] then (if k + 1 < |copies| then copies[k + 1][0] else last)
    else if t in blocks then copies[k][IndexOf(blocks, t)]
    else t
  }

  ghost predicate TermUnrolled(blocks: seq<Label>, copies: seq<seq<Label>>, last: Label, k: nat, t: Terminator,
                               t': Terminator)
    requires blocks != [] && k < |copies| && forall i | 0 <= i < |copies| :: |copies[i]| == |blocks|
  {
    if t.Branch?
    then && t'.Branch? && t'.sel == t.sel && |t'.succs| == |t.succs|
         && forall j | 0 <= j < |t.succs| :: t'.succs[j] == Dest(blocks, copies, last, k, t.succs[j])
    else t' == t
  }

  /** The copies are copies of the loop, disjoint and new but for the first, which is the loop itself. */
  ghost predicate Copies(g: Graph, blocks: seq<Label>, copies: seq<seq<Label>>) {
    && blocks != [] && copies != [] && copies[0] == blocks
    && (forall l | l in blocks :: l in g)
    && (forall k | 0 <= k < |copies| :: |copies[k]| == |blocks| && Distinct(copies[k]))
    && (forall k, l | 0 < k < |copies| && l in copies[k] :: l !in g)
    && (forall k, k', l | 0 <= k < k' < |copies| && l in copies[k] :: l !in copies[k'])
  }

  /** What the graph looks like with these copies, the last one's back edges leading to `last`. */
  ghost predicate Unrolled(g: Graph, blocks: seq<Label>, copies: seq<seq<Label>>, last: Label, g': Graph) {
    && Copies(g, blocks, copies)
    && g.Keys <= g'.Keys
    && (forall l | l in g && l !in blocks :: g'[l] == g[l])
    && (forall k, j | 0 <= k < |copies| && 0 <= j < |blocks| :: BlockUnrolled(g, blocks, copies, last, g', k, j))
  }

  ghost predicate BlockUnrolled(g: Graph, blocks: seq<Label>, copies: seq<seq<Label>>, last: Label, g': Graph, k: nat,
                                j: nat)
    requires Copies(g, blocks, copies) && k < |copies| && j < |blocks|
  {
    && copies[k][j] in g' && blocks[j] in g
    && g'[copies[k][j]].instrs == g[blocks[j]].instrs
    && TermUnrolled(blocks, copies, last, k, g[blocks[j]].term, g'[copies[k][j]].term)
  }

  function LastHeader(copies: seq<seq<Label>>): Label {
    if copies == [] || copies[|copies| - 1] == [] then 0 else copies[|copies| - 1][0]
  }

  lemma IndexUnique(xs: seq<Label>, j: nat)
    requires Distinct(xs) && j < |xs|
    ensures xs[j] in xs && IndexOf(xs, xs[j]) == j
  {
  }

  lemma NothingUnrolled(g: Graph, blocks: seq<Label>)
    requires blocks != [] && Distinct(blocks) && forall l | l in blocks :: l in g
    ensures Unrolled(g, blocks, [blocks], blocks[0], g)
  {
    var copies := [blocks];
    forall j | 0 <= j < |blocks| ensures BlockUnrolled(g, blocks, copies, blocks[0], g, 0, j) {
      assert blocks[j] in blocks;
    }
  }

  lemma CopiesPresent(g: Graph, blocks: seq<Label>, copies: seq<seq<Label>>, last: Label, g': Graph, k: nat, l: Label)
    requires Unrolled(g, blocks, copies, last, g') && k < |copies| && l in copies[k]
    ensures l in g'
  {
    var j :| 0 <= j < |copies[k]| && copies[k][j] == l;
    assert BlockUnrolled(g, blocks, copies, last, g', k, j);
  }

  lemma CopiesExtended(g: Graph, blocks: seq<Label>, copies: seq<seq<Label>>, g1: Graph, copy: seq<Label>, g2: Graph)
    requires Unrolled(g, blocks, copies, LastHeader(copies), g1)
    requires copies != [] && OneMoreCopy(g1, copies[|copies| - 1], copy, g2)
    ensures Copies(g, blocks, copies + [copy])
  {
    var all := copies + [copy];
    forall k, l | 0 <= k < |copies| && l in copies[k] ensures l in g1 {
      CopiesPresent(g, blocks, copies, LastHeader(copies), g1, k, l);
    }
    forall k, l | 0 < k < |all| && l in all[k] ensures l !in g {
      if k < |copies| {
        assert l in copies[k];
      }
    }
    forall k, k', l | 0 <= k < k' < |all| && l in all[k] ensures l !in all[k'] {
      if k' < |copies| {
        assert l in copies[k];
      }
    }
  }

  /** The last copy so far leads on to the new one. */
  lemma LastCopyRedirected(g: Graph, blocks: seq<Label>, copies: seq<seq<Label>>, to: Label, copies': seq<seq<Label>>,
                           to': Label,
                           k: nat, t: Terminator, t1: Terminator)
    requires Copies(g, blocks, copies) && Copies(g, blocks, copies') && k + 1 == |copies| <= |copies'|
             && copies <= copies'
    requires to == copies[k][0]
    requires TermUnrolled(blocks, copies, to, k, t, t1) && forall l | l in Succs(t) :: l in g
    requires to' == if k + 1 < |copies'| then copies'[k + 1][0] else to'
    ensures forall last' | (k + 1 == |copies'| ==> last' == to') ::
            TermUnrolled(blocks, copies', last', k, t, Redirected(t1, to, to'))
  {
    var copy := copies[k];
    assert copies'[k] == copy;
    forall j | t.Branch? && 0 <= j < |t.succs|
      ensures Redirected(t1, to, to').succs[j] == Dest(blocks, copies', to', k, t.succs[j])
    {
      var l := t.succs[j];
      assert l in Succs(t);
      if l != blocks[0] && l in blocks {
        var i := IndexOf(blocks, l);
        assert copy[i] != copy[0];
      } else if l !in blocks {
        assert k > 0 ==> copy[0] in copies[k];
        assert copies[0][0] in blocks;
      }
    }
  }

  lemma CloneUnrolled(g: Graph, blocks: seq<Label>, copies: seq<seq<Label>>, copy: seq<Label>, k: nat, t: Terminator,
                      t1: Terminator)
    requires Copies(g, blocks, copies) && Copies(g, blocks, copies + [copy]) && k + 1 == |copies| && |copy| == |blocks|
    requires TermUnrolled(blocks, copies, copies[k][0], k, t, t1) && forall l | l in Succs(t) :: l in g
    ensures TermUnrolled(blocks, copies + [copy], copy[0], k + 1, t, ClonedTerm(copies[k], copy, t1))
  {
    var from, all := copies[k], copies + [copy];
    assert all[k + 1] == copy && all[k] == from;
    forall j | t.Branch? && 0 <= j < |t.succs|
      ensures Cloned(from, copy, t1.succs[j]) == Dest(blocks, all, copy[0], k + 1, t.succs[j])
    {
      var l := t.succs[j];
      assert l in Succs(t);
      if l == blocks[0] {
        IndexUnique(from, 0);
      } else if l in blocks {
        IndexUnique(from, IndexOf(blocks, l));
      } else {
        assert k > 0 && l in copies[k] ==> l !in g;
      }
    }
  }

  lemma OneMoreUnrolled(g: Graph, blocks: seq<Label>, copies: seq<seq<Label>>, g1: Graph, copy: seq<Label>, g2: Graph)
    requires WellFormed(g) && Unrolled(g, blocks, copies, LastHeader(copies), g1)
    requires copies != [] && OneMoreCopy(g1, copies[|copies| - 1], copy, g2)
    ensures Unrolled(g, blocks, copies + [copy], copy[0], g2)
  {
    var n, all := |copies|, copies + [copy];
    var from := copies[n - 1];
    CopiesExtended(g, blocks, copies, g1, copy, g2);
    forall l | l in g && l !in blocks ensures g2[l] == g[l] {
      assert n > 1 && l in copies[n - 1] ==> l !in g;
    }
    forall k, j | 0 <= k < |all| && 0 <= j < |blocks| ensures BlockUnrolled(g, blocks, all, copy[0], g2, k, j) {
      OneBlockUnrolled(g, blocks, copies, g1, copy, g2, k, j);
    }
  }

  lemma OneBlockUnrolled(g: Graph, blocks: seq<Label>, copies: seq<seq<Label>>, g1: Graph, copy: seq<Label>,
                         g2: Graph, k: nat, j: nat)
    requires WellFormed(g) && Unrolled(g, blocks, copies, LastHeader(copies), g1)
    requires copies != [] && OneMoreCopy(g1, copies[|copies| - 1], copy, g2) && Copies(g, blocks, copies + [copy])
    requires k <= |copies| && j < |blocks|
    ensures BlockUnrolled(g, blocks, copies + [copy], copy[0], g2, k, j)
  {
    var n, all := |copies|, copies + [copy];
    var from := copies[n - 1];
    assert blocks[j] in blocks;
    var t := g[blocks[j]].term;
    if k < n - 1 {
      assert BlockUnrolled(g, blocks, copies, from[0], g1, k, j);
      assert all[k] == copies[k] && all[k + 1] == copies[k + 1] && copies[k][j] in copies[k] && copies[k][j] !in from;
      assert g2[copies[k][j]] == g1[copies[k][j]];
    } else if k == n - 1 {
      assert BlockUnrolled(g, blocks, copies, from[0], g1, k, j);
      assert from[j] in from && all[n] == copy && all[k] == from;
      LastCopyRedirected(g, blocks, copies, from[0], all, copy[0], k, t, g1[from[j]].term);
    } else {
      assert BlockUnrolled(g, blocks, copies, from[0], g1, n - 1, j);
      assert IsClone(g1, from, copy, g2, j) && all[k] == copy;
      CloneUnrolled(g, blocks, copies, copy, n - 1, t, g1[from[j]].term);
    }
  }

  /** Cutting the last copy's back edges. */
  lemma Terminated(g: Graph, blocks: seq<Label>, copies: seq<seq<Label>>, termB: Label, g1: Graph, g2: Graph)
    requires WellFormed(g) && Unrolled(g, blocks, copies, LastHeader(copies), g1) && termB !in g1
    requires copies != []
             && g2 == RedirectedIn(g1[termB := Block([AssumeZero], Unreachable)], Elems(copies[|copies| - 1]),
                                   LastHeader(copies), termB)
    ensures Unrolled(g, blocks, copies, termB, g2) && termB in g2 && g2[termB] == Block([AssumeZero], Unreachable)
  {
    var n := |copies|;
    var from := copies[n - 1];
    forall l | l in g && l !in blocks ensures g2[l] == g[l] {
      assert n > 1 && l in copies[n - 1] ==> l !in g;
    }
    if termB in from {
      CopiesPresent(g, blocks, copies, from[0], g1, n - 1, termB);
    }
    forall k, j | 0 <= k < n && 0 <= j < |blocks| ensures BlockUnrolled(g, blocks, copies, termB, g2, k, j) {
      assert blocks[j] in blocks && BlockUnrolled(g, blocks, copies, from[0], g1, k, j);
      if k < n - 1 {
        assert copies[k][j] in copies[k] && copies[k][j] !in from;
        assert g2[copies[k][j]] == g1[copies[k][j]];
      } else {
        assert from[j] in from;
        LastCopyRedirected(g, blocks, copies, from[0], copies, termB, k, g[blocks[j]].term, g1[from[j]].term);
      }
    }
  }

  /** A copy of the loop leads to blocks that exist, if the loop did. */
  lemma CopyWellFormed(g: Graph, blocks: seq<Label>, copy: seq<Label>, g': Graph)
    requires WellFormed(g) && OneMoreCopy(g, blocks, copy, g')
    ensures WellFormed(g')
  {
    forall l, t | l in g' && t in Succs(g'[l].term) ensures t in g' {
      assert copy[0] in copy;
      if l in copy {
        var j :| 0 <= j < |copy| && copy[j] == l;
        assert IsClone(g, blocks, copy, g', j);
        var k :| 0 <= k < |Succs(g'[l].term)| && Succs(g'[l].term)[k] == t;
        assert Succs(g[blocks[j]].term)[k] in Succs(g[blocks[j]].term);
      } else if l in blocks && t != copy[0] {
        assert t in Succs(g[l].term);
      }
    }
  }

  lemma RedirectedWellFormed(g: Graph, which: set<Label>, from: Label, to: Label)
    requires WellFormed(g) && to in g
    ensures WellFormed(RedirectedIn(g, which, from, to))
  {
    var g' := RedirectedIn(g, which, from, to);
    forall l, t | l in g' && t in Succs(g'[l].term) ensures t in g' {
      assert t == to || t in Succs(g[l].term);
    }
  }

  method CreateTerminatingBlock(f: Function) returns (termB: Label)
    modifies f
    ensures termB !in LabelsOf(old(f.blocks))
    ensures f.blocks == old(f.blocks)[termB := Block([AssumeZero], Unreachable)]
  {
    termB := Fresh(LabelsOf(f.blocks));
    f.blocks := f.blocks[termB := Block([AssumeZero], Unreachable)];
  }

  /** The pass: `count` copies in all, and with `terminate` no more iterations than that. */
  method RunOnLoop(f: Function, blocks: seq<Label>, count: nat, terminate: bool)
    returns (changed: bool, ghost copies: seq<seq<Label>>, last: Label)
    requires WellFormed(f.blocks) && blocks != [] && Distinct(blocks) && forall l | l in blocks :: l in f.blocks
    modifies f
    ensures changed <==> count > 1
    ensures !changed ==> f.blocks == old(f.blocks)
    ensures changed ==> |copies| == count && Unrolled(old(f.blocks), blocks, copies, last, f.blocks)
    ensures WellFormed(f.blocks)
    ensures changed && !terminate ==> last == LastHeader(copies)
    ensures changed && terminate ==>
              last !in old(f.blocks) && last in f.blocks && f.blocks[last] == Block([AssumeZero], Unreachable)
  {
    copies, last := [blocks], blocks[0];
    if count <= 1 {
      return false, copies, last;
    }
    ghost var g := f.blocks;
    NothingUnrolled(g, blocks);
    var lastBlocks := blocks;
    for n := 1 to count
      invariant |copies| == n && copies[n - 1] == lastBlocks
      invariant Unrolled(g, blocks, copies, LastHeader(copies), f.blocks) && WellFormed(f.blocks)
    {
      ghost var before := f.blocks;
      forall l | l in lastBlocks ensures l in f.blocks {
        CopiesPresent(g, blocks, copies, LastHeader(copies), f.blocks, n - 1, l);
      }
      lastBlocks := CloneLoopBody(f, lastBlocks);
      CopyWellFormed(before, copies[n - 1], lastBlocks, f.blocks);
      OneMoreUnrolled(g, blocks, copies, before, lastBlocks, f.blocks);
      copies := copies + [lastBlocks];
    }
    last := lastBlocks[0];
    if terminate {
      ghost var before := f.blocks;
      last := CreateTerminatingBlock(f);
      forall l | l in lastBlocks ensures l in f.blocks {
        CopiesPresent(g, blocks, copies, LastHeader(copies), before, count - 1, l);
      }
      f.ReplaceSuccessors(Elems(lastBlocks), lastBlocks[0], last);
      Terminated(g, blocks, copies, last, before, f.blocks);
      assert WellFormed(before[last := Block([AssumeZero], Unreachable)]);
      RedirectedWellFormed(before[last := Block([AssumeZero], Unreachable)], Elems(lastBlocks), lastBlocks[0], last);
    }
    changed := true;
  }

  // ---------------------------------------------------------------------------------------------
  // Runs of the unrolled loop.

  /** How many back edges have been taken since the loop was entered, after going from one block to another. */
  function NextRounds(blocks: seq<Label>, rounds: nat, from: Label, to: Label): nat
    requires blocks != []
  {
    if from !in blocks || to !in blocks then 0 else if to == blocks[0] then rounds + 1 else rounds
  }

  /** An original run that counts its rounds. */
  datatype Counted<M> = Counted(state: State<M>, rounds: nat)

  function CountedStep<M, I>(sem: Sem<M, I>, g: Graph, blocks: seq<Label>, c: Counted<M>, i: I): Counted<M>
    requires blocks != []
  {
    var t := Step(sem, g, c.state, i);
    Counted(t, if c.state.At? && t.At? then NextRounds(blocks, c.rounds, c.state.block, t.block) else c.rounds)
  }

  function CountedRun<M, I>(sem: Sem<M, I>, g: Graph, blocks: seq<Label>, c: Counted<M>, ins: seq<I>): Counted<M>
    requires blocks != []
    decreases |ins|
  {
    if ins == [] then c else CountedRun(sem, g, blocks, CountedStep(sem, g, blocks, c, ins[0]), ins[1..])
  }

  /** Counting does not disturb the run. */
  lemma {:induction false} CountedIsRun<M, I>(sem: Sem<M, I>, g: Graph, blocks: seq<Label>, c: Counted<M>, ins: seq<I>)
    requires blocks != []
    ensures CountedRun(sem, g, blocks, c, ins).state == Run(Stepper(sem, g), c.state, ins)
    decreases |ins|
  {
    if ins != [] {
      CountedIsRun(sem, g, blocks, CountedStep(sem, g, blocks, c, ins[0]), ins[1..]);
    }
  }

  /** The copy that a block of the loop is executed in. */
  function Level(n: nat, rounds: nat): nat
    requires n > 0
  {
    if rounds < n then rounds else n - 1
  }

  /** The unrolled run stands where the original one does, in the copy that its rounds say. */
  ghost predicate InCopy<M>(g: Graph, blocks: seq<Label>, copies: seq<seq<Label>>, c: Counted<M>, s: State<M>)
    requires Copies(g, blocks, copies)
  {
    if c.state.At?
    then && s.At? && s.mem == c.state.mem && s.slots == c.state.slots && c.state.block in g
         && s.block == if c.state.block in blocks
                       then copies[Level(|copies|, c.rounds)][IndexOf(blocks, c.state.block)]
                       else c.state.block
    else s == c.state
  }

  /** A step along a back edge when the last copy is being executed. */
  ghost predicate Overruns<M>(n: nat, blocks: seq<Label>, c: Counted<M>, c': Counted<M>)
    requires blocks != []
  {
    c.state.At? && c'.state.At? && c.state.block in blocks && c'.state.block == blocks[0] && c.rounds + 1 >= n
  }

  lemma JumpUnrolled<M, I>(sem: Sem<M, I>, g: Graph, blocks: seq<Label>, copies: seq<seq<Label>>, last: Label, k: nat,
                           t: Terminator, t': Terminator, mem: M, slots: map<Slot, int>, i: I)
    requires Copies(g, blocks, copies) && k < |copies| && TermUnrolled(blocks, copies, last, k, t, t')
    ensures var j, j' := Jump(sem, t, mem, slots, i), Jump(sem, t', mem, slots, i);
            if j.At? then j.block in Succs(t) && j.mem == mem && j.slots == slots
                && j' == At(Dest(blocks, copies, last, k, j.block), mem, slots)
            else j' == j
  {
    if t.Branch? && t.succs != [] {
      var x := Taken(sem, t.sel, |t.succs|, mem, slots, i);
      assert t.succs[x] in Succs(t);
    }
  }

  /** The unrolled block executes the code of the original one and jumps where the copy number says. */
  lemma BlockStep<M, I>(sem: Sem<M, I>, g: Graph, blocks: seq<Label>, copies: seq<seq<Label>>, last: Label, g': Graph,
                        k: nat, s: State<M>, i: I)
    requires Unrolled(g, blocks, copies, last, g') && k < |copies| && s.At? && s.block in blocks
    ensures var r, r' := Step(sem, g, s, i), Step(sem, g', s.(block := copies[k][IndexOf(blocks, s.block)]), i);
            if r.At? then r.block in Succs(g[s.block].term)
                && r' == r.(block := Dest(blocks, copies, last, k, r.block)) else r' == r
  {
    var j := IndexOf(blocks, s.block);
    assert BlockUnrolled(g, blocks, copies, last, g', k, j);
    var e := Exec(sem, g[s.block].instrs, s.mem, s.slots, i);
    if e.Go? {
      JumpUnrolled(sem, g, blocks, copies, last, k, g[s.block].term, g'[copies[k][j]].term, e.mem, e.slots, i);
    } else {
      StopIsNotAt(sem, g[s.block].instrs, s.mem, s.slots, i);
    }
  }

  lemma OutsideStep<M, I>(sem: Sem<M, I>, g: Graph, g': Graph, s: State<M>, i: I)
    requires s.At? && s.block in g && s.block in g' && g'[s.block] == g[s.block]
    ensures var r := Step(sem, g, s, i); Step(sem, g', s, i) == r && (r.At? ==> r.block in Succs(g[s.block].term))
  {
    if Step(sem, g, s, i).At? {
      StepAlongEdge(sem, g, s, i);
    }
  }

  /** One step, with the same input, stays in step; from the last copy a back edge leads to `last`. */
  lemma UnrolledStep<M, I>(sem: Sem<M, I>, g: Graph, blocks: seq<Label>, copies: seq<seq<Label>>, last: Label,
                           g': Graph, c: Counted<M>, s: State<M>, i: I)
    requires WellFormed(g) && Unrolled(g, blocks, copies, last, g') && InCopy(g, blocks, copies, c, s)
    ensures var c', s' := CountedStep(sem, g, blocks, c, i), Step(sem, g', s, i);
            if Overruns(|copies|, blocks, c, c') then s' == At(last, c'.state.mem, c'.state.slots)
            else InCopy(g, blocks, copies, c', s')
  {
    if c.state.At? {
      var r := Step(sem, g, c.state, i);
      IndexUnique(blocks, 0);
      if c.state.block in blocks {
        var k := Level(|copies|, c.rounds);
        assert c.state.(block := copies[k][IndexOf(blocks, c.state.block)]) == s;
        BlockStep(sem, g, blocks, copies, last, g', k, c.state, i);
      } else {
        OutsideStep(sem, g, g', c.state, i);
      }
    }
  }

  /**
   Without a limit nothing is lost: on the same inputs the unrolled function stays in step with the
   original one, in the copy that the number of rounds says, wherever the loop can be entered.
   */
  lemma {:induction false} UnrollingKeepsRuns<M, I>(sem: Sem<M, I>, g: Graph, blocks: seq<Label>,
                                                    copies: seq<seq<Label>>, g': Graph,
                                                    c: Counted<M>, s: State<M>, ins: seq<I>)
    requires WellFormed(g) && Unrolled(g, blocks, copies, LastHeader(copies), g') && InCopy(g, blocks, copies, c, s)
    ensures InCopy(g, blocks, copies, CountedRun(sem, g, blocks, c, ins), Run(Stepper(sem, g'), s, ins))
    decreases |ins|
  {
    if ins != [] {
      UnrolledStep(sem, g, blocks, copies, LastHeader(copies), g', c, s, ins[0]);
      IndexUnique(blocks, 0);
      UnrollingKeepsRuns(sem, g, blocks, copies, g', CountedStep(sem, g, blocks, c, ins[0]), Step(sem, g', s, ins[0]),
                         ins[1..]);
    }
  }

  /** The original block behind a label of the unrolled function. */
  ghost function Origin(blocks: seq<Label>, copies: seq<seq<Label>>, l: Label): Label
    requires forall k | 0 <= k < |copies| :: |copies[k]| == |blocks|
  {
    if exists k :: 0 <= k < |copies| && l in copies[k] then
      var k :| 0 <= k < |copies| && l in copies[k];
      blocks[IndexOf(copies[k], l)]
    else l
  }

  /** A state of the unrolled function read as one of the original. */
  ghost function ReadBack<M>(blocks: seq<Label>, copies: seq<seq<Label>>, s: State<M>): State<M>
    requires forall k | 0 <= k < |copies| :: |copies[k]| == |blocks|
  {
    if s.At? then s.(block := Origin(blocks, copies, s.block)) else s
  }

  /** Read through Origin, the unrolled function has exactly the original runs, for every number of copies. */
  lemma UnrollingIsLockstep<M, I>(sem: Sem<M, I>, g: Graph, blocks: seq<Label>, copies: seq<seq<Label>>, g': Graph,
                                  s: State<M>, ins: seq<I>)
    requires WellFormed(g) && Unrolled(g, blocks, copies, LastHeader(copies), g') && (s.At? ==> s.block in g)
    ensures Run(Stepper(sem, g), s, ins) == ReadBack(blocks, copies, Run(Stepper(sem, g'), s, ins))
  {
    var c := Counted(s, 0);
    UnrollingKeepsRuns(sem, g, blocks, copies, g', c, s, ins);
    CountedIsRun(sem, g, blocks, c, ins);
    var e, r' := CountedRun(sem, g, blocks, c, ins), Run(Stepper(sem, g'), s, ins);
    if e.state.At? {
      InCopyOrigin(g, blocks, copies, e, r');
    }
  }

  lemma InCopyOrigin<M>(g: Graph, blocks: seq<Label>, copies: seq<seq<Label>>, c: Counted<M>, s: State<M>)
    requires Copies(g, blocks, copies) && InCopy(g, blocks, copies, c, s) && c.state.At?
    ensures Origin(blocks, copies, s.block) == c.state.block
  {
    var l := c.state.block;
    if l in blocks {
      var n := Level(|copies|, c.rounds);
      var j := IndexOf(blocks, l);
      assert s.block in copies[n];
      var k :| 0 <= k < |copies| && s.block in copies[k]
          && Origin(blocks, copies, s.block) == blocks[IndexOf(copies[k], s.block)];
      assert k == n;
      IndexUnique(copies[n], j);
    } else {
      assert s.block == l;
      forall k | 0 <= k < |copies| ensures l !in copies[k] {
        assert k > 0 && l in copies[k] ==> l !in g;
      }
    }
  }

  /**
   How many inputs it takes until the original run has taken `n` back edges since it entered the loop;
   None if it does not on these inputs.
   */
  ghost function ExceedsAfter<M, I>(sem: Sem<M, I>, g: Graph, blocks: seq<Label>, n: nat, c: Counted<M>,
                                    ins: seq<I>): (r: Option<nat>)
    requires blocks != []
    ensures r.Some? ==> r.value <= |ins|
    decreases |ins|
  {
    if c.rounds >= n then Some(0)
    else if ins == [] then None
    else
      var r := ExceedsAfter(sem, g, blocks, n, CountedStep(sem, g, blocks, c, ins[0]), ins[1..]);
      if r.None? then None else Some(r.value + 1)
  }

  ghost predicate Terminates(g': Graph, last: Label) {
    last in g' && g'[last] == Block([AssumeZero], Unreachable)
  }

  lemma {:induction false} AfterTermination<M, I>(sem: Sem<M, I>, g': Graph, last: Label, mem: M,
                                                  slots: map<Slot, int>, ins: seq<I>)
    requires Terminates(g', last)
    ensures Run(Stepper(sem, g'), At(last, mem, slots), ins) == if ins == [] then At(last, mem, slots) else Cut
  {
    if ins != [] {
      assert Step(sem, g', At(last, mem, slots), ins[0]) == Cut;
      Finished<M, I>(sem, g', Cut, ins[1..]);
    }
  }

  /**
   With the limit on, unrolling is exact, wherever the loop can be entered: a run that never takes as many
   back edges in a row as there are copies is kept, in step; any other is cut in the block that the last of
   them leads to.
   */
  lemma {:induction false} BoundedUnrollingExact<M, I>(sem: Sem<M, I>, g: Graph, blocks: seq<Label>,
                                                       copies: seq<seq<Label>>, last: Label, g': Graph,
                                                       c: Counted<M>, s: State<M>, ins: seq<I>)
    requires WellFormed(g) && Unrolled(g, blocks, copies, last, g') && Terminates(g', last)
    requires InCopy(g, blocks, copies, c, s) && c.rounds < |copies|
    ensures var over := ExceedsAfter(sem, g, blocks, |copies|, c, ins);
            var r' := Run(Stepper(sem, g'), s, ins);
            match over
            case None => InCopy(g, blocks, copies, CountedRun(sem, g, blocks, c, ins), r')
            case Some(k) =>
              var e := CountedRun(sem, g, blocks, c, ins[..k]);
              && e.state.At? && e.state.block == blocks[0] && e.rounds == |copies|
              && r' == if k == |ins| then At(last, e.state.mem, e.state.slots) else Cut
    decreases |ins|
  {
    if ins != [] {
      var c', s' := CountedStep(sem, g, blocks, c, ins[0]), Step(sem, g', s, ins[0]);
      UnrolledStep(sem, g, blocks, copies, last, g', c, s, ins[0]);
      if Overruns(|copies|, blocks, c, c') {
        AfterTermination(sem, g', last, c'.state.mem, c'.state.slots, ins[1..]);
        assert ExceedsAfter(sem, g, blocks, |copies|, c', ins[1..]) == Some(0);
        assert ins[..1][1..] == []
               && CountedRun(sem, g, blocks, c, ins[..1]) == CountedRun(sem, g, blocks, c', ins[..1][1..]);
      } else {
        BoundedUnrollingExact(sem, g, blocks, copies, last, g', c', s', ins[1..]);
        var over := ExceedsAfter(sem, g, blocks, |copies|, c', ins[1..]);
        if over.Some? {
          assert ins[..over.value + 1][1..] == ins[1..][..over.value];
        }
      }
    }
  }

  // ---------------------------------------------------------------------------------------------
  // Loops entered at their header.

  /** A loop is entered only at its header. */
  ghost predicate SingleEntry(g: Graph, blocks: seq<Label>)
    requires blocks != []
  {
    forall l, t | l in g && l !in blocks && t in Succs(g[l].term) && t in blocks :: t == blocks[0]
  }

  /** How often the header has been entered since the loop was, in a run that has entered it `entries` times. */
  function HeaderEntries<M, I>(sem: Sem<M, I>, g: Graph, blocks: seq<Label>, s: State<M>, entries: nat,
                               ins: seq<I>): nat
    requires blocks != []
    decreases |ins|
  {
    if ins == [] then entries
    else
      var t := Step(sem, g, s, ins[0]);
      var now := if !s.At? || !t.At? then entries
                 else if t.block !in blocks then 0
                 else if t.block == blocks[0] then entries + 1
                 else entries;
      HeaderEntries(sem, g, blocks, t, now, ins[1..])
  }

  /** A loop that is entered at its header has been there once more often than it has gone round. */
  lemma {:induction false} EntriesAreRounds<M, I>(sem: Sem<M, I>, g: Graph, blocks: seq<Label>, c: Counted<M>,
                                                  entries: nat, ins: seq<I>)
    requires WellFormed(g) && blocks != [] && SingleEntry(g, blocks) && (c.state.At? ==> c.state.block in g)
    requires c.state.At? ==> entries == if c.state.block in blocks then c.rounds + 1 else 0
    ensures var e := CountedRun(sem, g, blocks, c, ins);
            e.state.At? ==>
              HeaderEntries(sem, g, blocks, c.state, entries, ins) ==
              if e.state.block in blocks then e.rounds + 1 else 0
    decreases |ins|
  {
    if ins != [] {
      var c' := CountedStep(sem, g, blocks, c, ins[0]);
      if c'.state.At? {
        StepAlongEdge(sem, g, c.state, ins[0]);
      }
      var now := if !c.state.At? || !c'.state.At? then entries
                 else if c'.state.block !in blocks then 0
                 else if c'.state.block == blocks[0] then entries + 1
                 else entries;
      EntriesAreRounds(sem, g, blocks, c', now, ins[1..]);
    }
  }

  // ---------------------------------------------------------------------------------------------
  // One loop after the other.

  /** One application without a limit. */
  datatype Application = Application(blocks: seq<Label>, copies: seq<seq<Label>>)

  ghost predicate IsUnrolling(g: Graph, a: Application, g': Graph) {
    WellFormed(g) && Unrolled(g, a.blocks, a.copies, LastHeader(a.copies), g')
  }

  ghost predicate UnrolledOverAndOver(gs: seq<Graph>, steps: seq<Application>) {
    |gs| == |steps| + 1 && forall k | 0 <= k < |steps| :: IsUnrolling(gs[k], steps[k], gs[k + 1])
  }

  /** A state after all the applications, read as one of the function before them. */
  ghost function ReadAllBack<M>(gs: seq<Graph>, steps: seq<Application>, s: State<M>): State<M>
    requires UnrolledOverAndOver(gs, steps)
    decreases |steps|
  {
    if steps == [] then s
    else
      var n := |steps| - 1;
      assert IsUnrolling(gs[n], steps[n], gs[n + 1]);
      assert UnrolledOverAndOver(gs[..n + 1], steps[..n]) by {
        assert forall k | 0 <= k < n :: IsUnrolling(gs[k], steps[k], gs[k + 1]);
      }
      ReadAllBack(gs[..n + 1], steps[..n], ReadBack(steps[n].blocks, steps[n].copies, s))
  }

  lemma {:induction false} LabelsRemain(gs: seq<Graph>, steps: seq<Application>, k: nat)
    requires UnrolledOverAndOver(gs, steps) && k < |gs|
    ensures gs[0].Keys <= gs[k].Keys
    decreases k
  {
    if k > 0 {
      LabelsRemain(gs, steps, k - 1);
      assert IsUnrolling(gs[k - 1], steps[k - 1], gs[k - 1 + 1]);
    }
  }

  /**
   Any number of applications without a limit, to any loops, nested or not: with the same inputs the last
   function is in step with the first one, block by block.
   */
  lemma {:induction false} UnrollingsAreLockstep<M, I>(sem: Sem<M, I>, gs: seq<Graph>, steps: seq<Application>,
                                                       s: State<M>, ins: seq<I>)
    requires UnrolledOverAndOver(gs, steps) && (s.At? ==> s.block in gs[0])
    ensures Run(Stepper(sem, gs[0]), s, ins) == ReadAllBack(gs, steps, Run(Stepper(sem, gs[|steps|]), s, ins))
    decreases |steps|
  {
    if steps != [] {
      var n := |steps| - 1;
      assert IsUnrolling(gs[n], steps[n], gs[n + 1]);
      assert UnrolledOverAndOver(gs[..n + 1], steps[..n]) by {
        assert forall k | 0 <= k < n :: IsUnrolling(gs[k], steps[k], gs[k + 1]);
      }
      LabelsRemain(gs, steps, n);
      UnrollingIsLockstep(sem, gs[n], steps[n].blocks, steps[n].copies, gs[n + 1], s, ins);
      UnrollingsAreLockstep(sem, gs[..n + 1], steps[..n], s, ins);
    }
  }
}
