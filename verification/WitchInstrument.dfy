/**
 The instrumentation itself: copies of the tracked variables, a block that decides whether to store
 them, a block that stores them, and a check in front of every jump back to the loop header.
 */
module WitchInstrument {
  import opened Common
  import opened Ir
  import opened WitchCheck

  /** A tracked variable and the stack slot that holds its stored value. */
  datatype Copy = Copy(original: Pointer, slot: nat)

  ghost predicate Tracks(mapping: seq<Copy>, v: Pointer) {
    exists k :: 0 <= k < |mapping| && mapping[k].original == v
  }

  function SlotSet(mapping: seq<Copy>): set<nat> {
    set c | c in mapping :: c.slot
  }

  function StoreCode(mapping: seq<Copy>, base: Reg): seq<Instr>
    decreases |mapping|
  {
    if mapping == [] then []
    else
      var it := mapping[|mapping| - 1];
      StoreCode(mapping[..|mapping| - 1], base) + [Load(base, it.original), Store(Alloca(it.slot), base)]
  }

  /** The register holding the conjunction of the first `k` comparisons. */
  function LastCond(k: nat, base: Reg): Reg {
    if k <= 1 then base + 2 else base + 4 * (k - 1) + 3
  }

  function LoadAndCompare(it: Copy, r: Reg): seq<Instr> {
    [Load(r, it.original), Load(r + 1, Alloca(it.slot)), Compute(r + 2, CmpEq, [r, r + 1])]
  }

  /** What is appended for the k-th tracked variable. */
  function CompareOne(it: Copy, k: nat, base: Reg): seq<Instr> {
    LoadAndCompare(it, base + 4 * k) +
    if k > 0 then [Compute(base + 4 * k + 3, And, [LastCond(k, base), base + 4 * k + 2])] else []
  }

  function CompareCode(mapping: seq<Copy>, base: Reg): seq<Instr>
    decreases |mapping|
  {
    if mapping == [] then []
    else
      var k := |mapping| - 1;
      CompareCode(mapping[..k], base) + CompareOne(mapping[k], k, base)
  }

  function CompareAndReport(mapping: seq<Copy>, base: Reg): seq<Instr> {
    CompareCode(mapping, base) + [Call(base, Some(CHECK), [LastCond(|mapping|, base)])]
  }

  function Succs(t: Terminator): seq<Label> {
    if t.Branch? then t.succs else []
  }

  /** The register a terminator reads. */
  function TermReg(t: Terminator): Reg {
    match t
    case Branch(c, _) => c
    case Ret(v) => v
    case Unreachable => 0
  }

  /** Every label in use, whether or not it has a block. */
  function LabelsOf(blocks: map<Label, Block>): set<Label> {
    blocks.Keys + set l, t | l in blocks && t in Succs(blocks[l].term) :: t
  }

  /** The edges that lead to a block, as pairs of a block and a successor index. */
  function EdgesTo(blocks: map<Label, Block>, target: Label): set<(Label, nat)> {
    set l, k | l in blocks && 0 <= k < |Succs(blocks[l].term)| && Succs(blocks[l].term)[k] == target :: (l, k)
  }

  function Redirected(t: Terminator, header: Label, target: Label): Terminator {
    if t.Branch? then t.(succs := RedirectedSuccs(t.succs, header, target)) else t
  }

  /** A terminator is redirected if its successors are, one by one, and nothing else has changed. */
  lemma SuccsRedirected(t: Terminator, t': Terminator, header: Label, target: Label)
    requires if t.Branch? then t'.Branch? && t'.cond == t.cond && |t'.succs| == |t.succs| else t' == t
    requires forall k | 0 <= k < |Succs(t)| :: Succs(t')[k] == if Succs(t)[k] == header then target else Succs(t)[k]
    ensures t' == Redirected(t, header, target)
  {
    if t.Branch? {
      forall k | 0 <= k < |t.succs| ensures t'.succs[k] == RedirectedSuccs(t.succs, header, target)[k] {
        assert Succs(t')[k] == t'.succs[k] && Succs(t)[k] == t.succs[k];
      }
      assert t'.succs == RedirectedSuccs(t.succs, header, target);
    }
  }

  /** Tracking one more variable. */
  lemma CopyTracked(before: seq<Copy>, it: Copy)
    ensures forall v :: Tracks(before + [it], v) <==> Tracks(before, v) || v == it.original
    ensures SlotSet(before + [it]) == SlotSet(before) + {it.slot}
  {
    var mapping := before + [it];
    assert forall k | 0 <= k < |before| :: mapping[k] == before[k];
    forall v | Tracks(before, v) || v == it.original ensures Tracks(mapping, v) {
      var k :| 0 <= k < |mapping|
          && (if v == it.original then k == |before| else k < |before| && before[k].original == v);
      assert mapping[k].original == v;
    }
    assert forall c | c in before :: c in mapping;
    assert it in mapping;
  }

  /** One instrumented loop: what was there, and what the pass allocated. */
  datatype Site = Site(
    blocks: map<Label, Block>, body: set<Label>, header: Label,
    mapping: seq<Copy>, base: Reg, decide: Label, store: Label, withHeaderCall: bool)
  {
    function DecideBlock(): Block {
      Block((if withHeaderCall then [Call(base + 1, Some(CHECK_HEADER), [])]
             else []) + [Call(base, Some(NONDET_STORE), [])],
            Branch(base, [store, header]))
    }

    function StoreBlock(): Block {
      Block([Call(base + 1, Some(STORE), [])] + StoreCode(mapping, base), Branch(base, [header]))
    }

    function Checks(l: Label): seq<Instr>
      requires l in blocks
    {
      if l in body then Repeat(CompareAndReport(mapping, base), CountEdges(Succs(blocks[l].term), header)) else []
    }

    function NewBlock(l: Label): Block
      requires l in blocks
    {
      Block(blocks[l].instrs + Checks(l), Redirected(blocks[l].term, header, decide))
    }

    function NewBlocks(): map<Label, Block> {
      (map l | l in blocks :: NewBlock(l))[store := StoreBlock()][decide := DecideBlock()]
    }

    function NewBody(): set<Label> {
      body + {decide, store}
    }

    /** The mapping tracks exactly `used`, in slots of its own, and everything allocated is fresh. */
    ghost predicate Fresh(used: set<Pointer>, allocas: set<nat>) {
      && mapping != []
      && (forall k | 0 <= k < |mapping| :: mapping[k].original in used && mapping[k].slot !in allocas)
      && (forall v | v in used :: Tracks(mapping, v))
      && (forall j, k | 0 <= j < k < |mapping| :: mapping[j].slot != mapping[k].slot)
      && decide !in LabelsOf(blocks) && store !in LabelsOf(blocks) && decide != store
      && (forall l | l in blocks :: TermReg(blocks[l].term) < base)
    }
  }

  /**
   What the pass leaves alone and what it redirects, block by block: code is added behind that of blocks
   with an edge back to the header and nowhere else, every edge to the header is led to the deciding
   block, and the header is announced there exactly if that is asked for.
   */
  ghost predicate InPlace(blocks: map<Label, Block>, body: set<Label>, header: Label, decide: Label,
                          announced: bool, blocks': map<Label, Block>)
  {
    && (forall l | l in blocks ::
          && l in blocks' && |Succs(blocks'[l].term)| == |Succs(blocks[l].term)|
          && blocks[l].instrs <= blocks'[l].instrs
          && (blocks'[l].instrs == blocks[l].instrs <==> l !in body || header !in Succs(blocks[l].term)))
    && (forall l, k | l in blocks && 0 <= k < |Succs(blocks[l].term)| ::
          Succs(blocks'[l].term)[k] ==
          if Succs(blocks[l].term)[k] == header then decide else Succs(blocks[l].term)[k])
    && decide in blocks'
    && (announced <==> exists i :: i in blocks'[decide].instrs && i.Call? && i.callee == Some(CHECK_HEADER))
  }

  lemma {:induction false} RepeatGrows<T>(code: seq<T>, n: nat)
    requires code != []
    ensures |Repeat(code, n)| >= n
    decreases n
  {
    if n > 0 {
      RepeatGrows(code, n - 1);
    }
  }

  lemma ChecksInPlace(site: Site, l: Label)
    requires l in site.blocks
    ensures site.Checks(l) == [] <==> l !in site.body || site.header !in Succs(site.blocks[l].term)
  {
    var succs := Succs(site.blocks[l].term);
    if site.header in succs {
      var k :| 0 <= k < |succs| && succs[k] == site.header;
      EdgeCounted(succs, site.header, k);
      RepeatGrows(CompareAndReport(site.mapping, site.base), CountEdges(succs, site.header));
    } else {
      NoEdgeNoCount(succs, site.header);
    }
  }

  lemma SiteInPlace(site: Site)
    requires site.decide !in LabelsOf(site.blocks) && site.store !in LabelsOf(site.blocks)
    ensures InPlace(site.blocks, site.body, site.header, site.decide, site.withHeaderCall, site.NewBlocks())
  {
    var blocks' := site.NewBlocks();
    forall l | l in site.blocks
      ensures l in blocks' && blocks'[l] == site.NewBlock(l)
      ensures site.Checks(l) == [] <==> l !in site.body || site.header !in Succs(site.blocks[l].term)
    {
      assert l in LabelsOf(site.blocks);
      ChecksInPlace(site, l);
    }
    var code := site.DecideBlock().instrs;
    assert blocks'[site.decide] == site.DecideBlock();
    assert site.withHeaderCall ==> code[0] in code && code[0].callee == Some(CHECK_HEADER);
  }

  /** The blocks after the instrumentation of a loop that uses no variables. */
  function MarkedEmpty(blocks: map<Label, Block>, header: Label): map<Label, Block>
    requires header in blocks
  {
    blocks[header := Block([Call(0, Some(INFINITE_LOOP), [])] + blocks[header].instrs, blocks[header].term)]
  }

  datatype Verdict = Rejected | EmptyLoop | Done(site: Site)

  class FunctionBody {
    var blocks: map<Label, Block>
    var allocas: set<nat>

    constructor (blocks: map<Label, Block>, allocas: set<nat>)
      ensures this.blocks == blocks && this.allocas == allocas
    {
      this.blocks := blocks;
      this.allocas := allocas;
    }

    /** One copy for each tracked variable. */
    method CreateCopies(variables: set<Pointer>) returns (mapping: seq<Copy>)
      modifies `allocas
      ensures forall k | 0 <= k < |mapping| ::
                mapping[k].original in variables && mapping[k].slot !in old(allocas) + Slots(variables)
      ensures forall v | v in variables :: Tracks(mapping, v)
      ensures forall j, k | 0 <= j < k < |mapping| :: mapping[j].slot != mapping[k].slot
      ensures allocas == old(allocas) + SlotSet(mapping)
    {
      mapping := [];
      var next := Fresh(allocas + Slots(variables));
      ghost var low := next;
      var todo := variables;
      while todo != {}
        invariant todo <= variables && low <= next
        invariant forall k | 0 <= k < |mapping| :: mapping[k].original in variables && low <= mapping[k].slot < next
        invariant forall v | v in variables :: v in todo || Tracks(mapping, v)
        invariant forall j, k | 0 <= j < k < |mapping| :: mapping[j].slot != mapping[k].slot
        invariant allocas == old(allocas) + SlotSet(mapping)
        decreases todo
      {
        var v :| v in todo;
        CopyTracked(mapping, Copy(v, next));
        mapping := mapping + [Copy(v, next)];
        allocas := allocas + {next};
        next := next + 1;
        todo := todo - {v};
      }
    }

    /** In front of the terminator of each block of the loop, one check per edge to the header. */
    method InsertChecks(body: set<Label>, header: Label, check: seq<Instr>)
      requires body <= blocks.Keys
      modifies `blocks
      ensures blocks.Keys == old(blocks).Keys
      ensures forall l | l in blocks :: blocks[l].term == old(blocks)[l].term
      ensures forall l | l in blocks :: blocks[l].instrs == old(blocks)[l].instrs +
                if l in body then Repeat(check, CountEdges(Succs(old(blocks)[l].term), header)) else []
    {
      var todo := body;
      while todo != {}
        invariant todo <= body && blocks.Keys == old(blocks).Keys
        invariant forall l | l in blocks :: blocks[l].term == old(blocks)[l].term
        invariant forall l | l in blocks :: blocks[l].instrs == old(blocks)[l].instrs +
                    if l in body - todo then Repeat(check, CountEdges(Succs(old(blocks)[l].term), header)) else []
        decreases todo
      {
        var l :| l in todo;
        var succs := Succs(blocks[l].term);
        var code := blocks[l].instrs;
        assert code == old(blocks)[l].instrs;
        for k := 0 to |succs|
          invariant code == old(blocks)[l].instrs + Repeat(check, CountEdges(succs[..k], header))
        {
          assert succs[..k + 1][..k] == succs[..k];
          if succs[k] == header {
            code := code + check;
          }
        }
        assert succs[..|succs|] == succs;
        blocks := blocks[l := blocks[l].(instrs := code)];
        todo := todo - {l};
      }
    }

    /** Points every edge that led to the header to `target`. */
    method RedirectEdges(toChange: set<(Label, nat)>, header: Label, target: Label)
      requires toChange == EdgesTo(blocks, header)
      modifies `blocks
      ensures blocks == map l | l in old(blocks) ::
              Block(old(blocks)[l].instrs, Redirected(old(blocks)[l].term, header, target))
    {
      var todo := toChange;
      while todo != {}
        invariant todo <= toChange && blocks.Keys == old(blocks).Keys
        invariant forall l | l in blocks :: blocks[l].instrs == old(blocks)[l].instrs
        invariant forall l | l in blocks && !old(blocks)[l].term.Branch? :: blocks[l].term == old(blocks)[l].term
        invariant forall l | l in blocks && old(blocks)[l].term.Branch? ::
                    && blocks[l].term.Branch? && blocks[l].term.cond == old(blocks)[l].term.cond
                    && |blocks[l].term.succs| == |old(blocks)[l].term.succs|
        invariant forall l, k | l in blocks && 0 <= k < |Succs(old(blocks)[l].term)| ::
                    Succs(blocks[l].term)[k] ==
                        if (l, k) in toChange - todo then target else Succs(old(blocks)[l].term)[k]
        decreases todo
      {
        var pr :| pr in todo;
        var b := blocks[pr.0];
        blocks := blocks[pr.0 := b.(term := b.term.(succs := b.term.succs[pr.1 := target]))];
        todo := todo - {pr};
      }
      forall l | l in blocks
        ensures blocks[l] == Block(old(blocks)[l].instrs, Redirected(old(blocks)[l].term, header, target))
      {
        forall k | 0 <= k < |Succs(old(blocks)[l].term)|
          ensures Succs(blocks[l].term)[k] ==
                  if Succs(old(blocks)[l].term)[k] == header then target else Succs(old(blocks)[l].term)[k]
        {
          assert (l, k) in toChange <==> Succs(old(blocks)[l].term)[k] == header;
        }
        SuccsRedirected(old(blocks)[l].term, blocks[l].term, header, target);
      }
    }

    /** Adds the checks and the two blocks, and leads every edge to the header through them. */
    method Rewire(site: Site, toChange: set<(Label, nat)>)
      requires site.blocks == blocks && site.body <= blocks.Keys
      requires toChange == EdgesTo(blocks, site.header)
      modifies `blocks
      ensures blocks == site.NewBlocks()
    {
      var check := CompareAndReport(site.mapping, site.base);
      InsertChecks(site.body, site.header, check);
      assert EdgesTo(blocks, site.header) == toChange;
      RedirectEdges(toChange, site.header, site.decide);
      assert blocks == map l | l in site.blocks :: site.NewBlock(l);
      blocks := blocks[site.store := site.StoreBlock()][site.decide := site.DecideBlock()];
    }

    /** A loop without variables is marked at its header. */
    method InstrumentEmptyLoop(header: Label)
      requires header in blocks
      modifies `blocks
      ensures blocks == MarkedEmpty(old(blocks), header)
    {
      var b := blocks[header];
      blocks := blocks[header := b.(instrs := [Call(0, Some(INFINITE_LOOP), [])] + b.instrs)];
    }

    method Instrument(P: Program, body: set<Label>, header: Label, insertHeader: bool) returns (v: Verdict)
      requires header in body && body <= blocks.Keys
      modifies this
      ensures v.Rejected? <==> !LoopAccepted(P, old(blocks), body)
      ensures v.Rejected? ==> blocks == old(blocks)
      ensures !v.Done? ==> allocas == old(allocas)
      ensures v.EmptyLoop? <==> LoopAccepted(P, old(blocks), body) && LoopUses(P, old(blocks), body) == {}
      ensures v.EmptyLoop? <==> LoopAccepted(P, old(blocks), body) && forall x :: !IsUsed(P, old(blocks), body, x)
      ensures v.EmptyLoop? ==> blocks == MarkedEmpty(old(blocks), header)
      ensures v.Done? ==>
                && v.site.blocks == old(blocks) && v.site.body == body && v.site.header == header
                && v.site.Fresh(LoopUses(P, old(blocks), body), old(allocas) + Slots(LoopUses(P, old(blocks), body)))
                && (forall x :: Tracks(v.site.mapping, x) <==> IsUsed(P, old(blocks), body, x))
                && v.site.withHeaderCall == insertHeader
                && blocks == v.site.NewBlocks()
                && InPlace(old(blocks), body, header, v.site.decide, insertHeader, blocks)
                && allocas == old(allocas) + SlotSet(v.site.mapping)
    {
      var ok, variables := CheckLoop(P, blocks, body);
      if !ok {
        return Rejected;
      }
      // remember the edges to the header before any block is added
      var toChange := EdgesTo(blocks, header);
      var mapping := CreateCopies(variables);
      if mapping == [] {
        assert forall v :: !Tracks(mapping, v);
        assert variables == {};
        InstrumentEmptyLoop(header);
        return EmptyLoop;
      }
      assert mapping[0].original in variables;
      var store := Fresh(LabelsOf(blocks));
      var decide := Fresh(LabelsOf(blocks) + {store});
      var read := set l | l in blocks :: TermReg(blocks[l].term);
      var base := Fresh(read);
      var site := Site(blocks, body, header, mapping, base, decide, store, insertHeader);
      assert site.Fresh(variables, old(allocas) + Slots(variables)) by {
        assert store !in LabelsOf(site.blocks) && decide !in LabelsOf(site.blocks) && decide != store;
        forall l | l in site.blocks ensures TermReg(site.blocks[l].term) < base {
          assert TermReg(site.blocks[l].term) in read;
        }
      }
      Rewire(site, toChange);
      SiteInPlace(site);
      return Done(site);
    }
  }
}
