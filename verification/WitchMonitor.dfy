/**
 What an instrumented loop does, compared with the loop it was made from. A report means that the
 original loop can run forever, every original run survives the instrumentation, and every repeated
 state can be reported.
 */
module WitchMonitor {
  import opened Common
  import opened Ir
  import opened WitchFrame
  import opened WitchCheck
  import opened WitchInstrument

  /**
   The loop of function `name` passed the check and `site` records its instrumentation. No function that
   the check accepts without looking at it leads back to the loop.
   */
  ghost predicate Ready(P: Program, name: string, site: Site) {
    && IsDefined(P, name) && P[name].blocks == site.blocks
    && site.header in site.body && site.body <= site.blocks.Keys
    && LoopAccepted(P, site.blocks, site.body)
    && Assumed(P, site.blocks, site.body) && !Unscanned(P, site.blocks, site.body, name)
    && site.Fresh(LoopUses(P, site.blocks, site.body), P[name].allocas + Slots(LoopUses(P, site.blocks, site.body)))
  }

  /** The program after the pass. */
  function Rewritten(P: Program, name: string, site: Site): Program
    requires IsDefined(P, name)
  {
    P[name := Defined(site.NewBlocks(), P[name].entry, P[name].allocas + SlotSet(site.mapping))]
  }

  function Original(env: Env, P: Program, d: nat, site: Site): (LoopState, seq<int>) -> LoopState {
    LoopStepper(env, P, d, site.blocks, site.body)
  }

  function Monitored(env: Env, P: Program, name: string, d: nat, site: Site): (LoopState, seq<int>) -> LoopState
    requires IsDefined(P, name)
  {
    LoopStepper(env, Rewritten(P, name, site), d, site.NewBlocks(), site.NewBody())
  }

  function Cell(d: nat, p: Pointer): Addr {
    match p
    case Alloca(s) => Local(d, s)
    case Global(g) => Glob(g)
    case _ => Monitor
  }

  /** The cells of the tracked variables, in an activation at depth `d`. */
  ghost function TrackedCells(P: Program, d: nat, blocks: map<Label, Block>, body: set<Label>): iset<Addr>
    requires body <= blocks.Keys
  {
    iset v | v in LoopUses(P, blocks, body) :: Cell(d, v)
  }

  /** The cells the instrumentation owns. */
  function Hidden(d: nat, site: Site): set<Addr> {
    (set c | c in site.mapping :: Local(d, c.slot)) + {Monitor}
  }

  predicate Stored(m: Memory) {
    Get(m, Monitor) != 0
  }

  /** The first `n` tracked variables equal their copies. */
  ghost predicate EqualCopies(d: nat, mapping: seq<Copy>, m: Memory) {
    forall c | c in mapping :: Get(m, Cell(d, c.original)) == Get(m, Local(d, c.slot))
  }

  predicate Direct(mapping: seq<Copy>) {
    forall c | c in mapping :: c.original.Alloca? || c.original.Global?
  }

  predicate SameBelow(base: Reg, regs: map<Reg, int>, regs': map<Reg, int>) {
    forall r: Reg | r < base :: Reading(regs', r) == Reading(regs, r)
  }

  // ---------------------------------------------------------------------------------------------
  // The inserted code.

  lemma EqualCopiesSnoc(d: nat, mapping: seq<Copy>, it: Copy, m: Memory)
    ensures EqualCopies(d, mapping + [it], m) <==>
            EqualCopies(d, mapping, m) && Get(m, Cell(d, it.original)) == Get(m, Local(d, it.slot))
  {
    assert it in mapping + [it];
    assert forall c | c in mapping :: c in mapping + [it];
  }

  /** The comparison of one more variable, after those of `front`. */
  lemma CompareSnoc(env: Env, P: Program, d: nat, front: seq<Copy>, it: Copy, base: Reg, regs: map<Reg, int>,
                    before: map<Reg, int>, mem: Memory, ins: seq<int>)
    returns (after: map<Reg, int>)
    requires Direct([it])
    requires ExecInstrs(env, P, d, CompareCode(front, base), regs, mem, ins) == Ok(before, mem, ins)
    ensures ExecInstrs(env, P, d, CompareCode(front + [it], base), regs, mem, ins) == Ok(after, mem, ins)
    ensures SameBelow(base, before, after)
    ensures Reading(after, LastCond(|front| + 1, base)) ==
            if && (front != [] ==> Reading(before, LastCond(|front|, base)) != 0)
               && Get(mem, Cell(d, it.original)) == Get(mem, Local(d, it.slot)) then 1 else 0
  {
    var k := |front|;
    assert (front + [it])[..k] == front && (front + [it])[k] == it;
    ExecAppend(env, P, d, CompareCode(front, base), CompareOne(it, k, base), regs, mem, ins);
    after := CompareOneExec(env, P, d, it, k, base, before, mem, ins);
  }

  lemma {:induction false} CompareExec(env: Env, P: Program, d: nat, mapping: seq<Copy>, base: Reg,
                                       regs: map<Reg, int>, mem: Memory, ins: seq<int>)
    requires Direct(mapping)
    ensures var r := ExecInstrs(env, P, d, CompareCode(mapping, base), regs, mem, ins);
            && r.Ok? && r.mem == mem && r.rest == ins && SameBelow(base, regs, r.regs)
            && (mapping != [] ==>
                  Reading(r.regs, LastCond(|mapping|, base)) == if EqualCopies(d, mapping, mem) then 1 else 0)
    decreases |mapping|
  {
    if mapping != [] {
      var k := |mapping| - 1;
      var front, it := mapping[..k], mapping[k];
      assert mapping == front + [it];
      CompareExec(env, P, d, front, base, regs, mem, ins);
      var before := ExecInstrs(env, P, d, CompareCode(front, base), regs, mem, ins).regs;
      var after := CompareSnoc(env, P, d, front, it, base, regs, before, mem, ins);
      EqualCopiesSnoc(d, front, it, mem);
    }
  }

  lemma {:induction false} ExecOne(env: Env, P: Program, d: nat, i: Instr, regs: map<Reg, int>, mem: Memory,
                                   ins: seq<int>)
    ensures ExecInstrs(env, P, d, [i], regs, mem, ins) == ExecInstr(env, P, d, i, regs, mem, ins)
  {
    var r := ExecInstr(env, P, d, i, regs, mem, ins);
    assert [i][1..] == [];
    if r.Ok? {
      assert ExecInstrs(env, P, d, [], r.regs, r.mem, r.rest) == r;
    }
  }

  /** Code whose last instruction neither stops nor touches memory. */
  lemma ExecSnoc(env: Env, P: Program, d: nat, code: seq<Instr>, i: Instr, regs: map<Reg, int>, mem: Memory,
                 ins: seq<int>)
    returns (regs': map<Reg, int>)
    requires i.Compute? || (i.Load? && Direct([Copy(i.ptr, 0)]))
    requires var r := ExecInstrs(env, P, d, code, regs, mem, ins); r.Ok? && r.mem == mem && r.rest == ins
    ensures ExecInstrs(env, P, d, code + [i], regs, mem, ins) == Ok(regs', mem, ins)
    ensures var before := ExecInstrs(env, P, d, code, regs, mem, ins).regs;
            regs' == before[i.dst :=
                            if i.Load? then Get(mem, Cell(d, i.ptr))
                                else BinaryValue(env, i.op, ReadAll(before, i.operands))]
  {
    var r := ExecInstrs(env, P, d, code, regs, mem, ins);
    ExecAppend(env, P, d, code, [i], regs, mem, ins);
    ExecOne(env, P, d, i, r.regs, mem, ins);
    if i.Load? {
      assert Copy(i.ptr, 0) in [Copy(i.ptr, 0)];
    }
    regs' := ExecInstr(env, P, d, i, r.regs, mem, ins).regs;
  }

  lemma LoadAndCompareExec(env: Env, P: Program, d: nat, it: Copy, n: Reg, regs: map<Reg, int>, mem: Memory,
                           ins: seq<int>)
    returns (regs': map<Reg, int>)
    requires Direct([it])
    ensures ExecInstrs(env, P, d, LoadAndCompare(it, n), regs, mem, ins) == Ok(regs', mem, ins)
    ensures SameBelow(n, regs, regs')
    ensures Reading(regs', n + 2) == if Get(mem, Cell(d, it.original)) == Get(mem, Local(d, it.slot)) then 1 else 0
  {
    var i0, i1, i2 := Load(n, it.original), Load(n + 1, Alloca(it.slot)), Compute(n + 2, CmpEq, [n, n + 1]);
    assert it in [it];
    var r0 := ExecSnoc(env, P, d, [], i0, regs, mem, ins);
    assert [] + [i0] == [i0] && [i0] + [i1] == [i0, i1] && [i0, i1] + [i2] == LoadAndCompare(it, n);
    var r1 := ExecSnoc(env, P, d, [i0], i1, regs, mem, ins);
    regs' := ExecSnoc(env, P, d, [i0, i1], i2, regs, mem, ins);
    assert ReadAll(r1, [n, n + 1]) == [Get(mem, Cell(d, it.original)), Get(mem, Local(d, it.slot))];
  }

  lemma CompareOneExec(env: Env, P: Program, d: nat, it: Copy, k: nat, base: Reg,
                       regs: map<Reg, int>, mem: Memory, ins: seq<int>)
    returns (regs': map<Reg, int>)
    requires Direct([it])
    ensures ExecInstrs(env, P, d, CompareOne(it, k, base), regs, mem, ins) == Ok(regs', mem, ins)
    ensures SameBelow(base, regs, regs')
    ensures Reading(regs', LastCond(k + 1, base)) ==
            if && (k > 0 ==> Reading(regs, LastCond(k, base)) != 0)
               && Get(mem, Cell(d, it.original)) == Get(mem, Local(d, it.slot)) then 1 else 0
  {
    var n := base + 4 * k;
    regs' := LoadAndCompareExec(env, P, d, it, n, regs, mem, ins);
    if k > 0 {
      var before := regs';
      var i := Compute(n + 3, And, [LastCond(k, base), n + 2]);
      regs' := ExecSnoc(env, P, d, LoadAndCompare(it, n), i, regs, mem, ins);
      assert ReadAll(before, i.operands) == [Reading(before, LastCond(k, base)), Reading(before, n + 2)];
    } else {
      assert LoadAndCompare(it, n) + [] == LoadAndCompare(it, n);
    }
  }

  /** One comparison with its check. */
  lemma CheckExec(env: Env, P: Program, d: nat, mapping: seq<Copy>, base: Reg,
                  regs: map<Reg, int>, mem: Memory, ins: seq<int>)
    requires Direct(mapping) && mapping != []
    ensures var r := ExecInstrs(env, P, d, CompareAndReport(mapping, base), regs, mem, ins);
            if Stored(mem) && EqualCopies(d, mapping, mem) then r == Alarm(ins)
            else r.Ok? && r.mem == mem && r.rest == ins && SameBelow(base, regs, r.regs)
  {
    var call := Call(base, Some(CHECK), [LastCond(|mapping|, base)]);
    CompareExec(env, P, d, mapping, base, regs, mem, ins);
    var c := ExecInstrs(env, P, d, CompareCode(mapping, base), regs, mem, ins);
    ExecAppend(env, P, d, CompareCode(mapping, base), [call], regs, mem, ins);
    ExecOne(env, P, d, call, c.regs, mem, ins);
    assert ReadAll(c.regs, call.args) == [Reading(c.regs, LastCond(|mapping|, base))];
  }

  /** The appended checks report when a state is stored and equal to the present one, and do nothing otherwise. */
  lemma {:induction false} ChecksExec(env: Env, P: Program, d: nat, mapping: seq<Copy>, base: Reg, n: nat,
                                      regs: map<Reg, int>, mem: Memory, ins: seq<int>)
    requires Direct(mapping) && mapping != []
    ensures var r := ExecInstrs(env, P, d, Repeat(CompareAndReport(mapping, base), n), regs, mem, ins);
            if n > 0 && Stored(mem) && EqualCopies(d, mapping, mem) then r == Alarm(ins)
            else r.Ok? && r.mem == mem && r.rest == ins && SameBelow(base, regs, r.regs)
    decreases n
  {
    if n > 0 {
      var check := CompareAndReport(mapping, base);
      ChecksExec(env, P, d, mapping, base, n - 1, regs, mem, ins);
      ExecAppend(env, P, d, Repeat(check, n - 1), check, regs, mem, ins);
      var r := ExecInstrs(env, P, d, Repeat(check, n - 1), regs, mem, ins);
      if r.Ok? {
        CheckExec(env, P, d, mapping, base, r.regs, mem, ins);
      }
    }
  }

  ghost predicate CopiesHold(d: nat, mapping: seq<Copy>, m: Memory, copies: Memory) {
    forall c | c in mapping :: Get(copies, Local(d, c.slot)) == Get(m, Cell(d, c.original))
  }

  lemma StoreOneExec(env: Env, P: Program, d: nat, code: seq<Instr>, it: Copy, base: Reg,
                     regs: map<Reg, int>, mem: Memory, ins: seq<int>)
    requires Direct([it]) && ExecInstrs(env, P, d, code, regs, mem, ins).Ok?
    ensures var r := ExecInstrs(env, P, d, code, regs, mem, ins);
            var r' := ExecInstrs(env, P, d, code + [Load(base, it.original), Store(Alloca(it.slot), base)], regs, mem,
                                 ins);
            r'.Ok? && r'.rest == r.rest && r'.mem == r.mem[Local(d, it.slot) := Get(r.mem, Cell(d, it.original))]
  {
    var i0, i1 := Load(base, it.original), Store(Alloca(it.slot), base);
    assert it in [it];
    var r := ExecInstrs(env, P, d, code, regs, mem, ins);
    ExecAppend(env, P, d, code, [i0], regs, mem, ins);
    ExecOne(env, P, d, i0, r.regs, r.mem, r.rest);
    var r0 := ExecInstr(env, P, d, i0, r.regs, r.mem, r.rest);
    ExecAppend(env, P, d, code + [i0], [i1], regs, mem, ins);
    ExecOne(env, P, d, i1, r0.regs, r0.mem, r0.rest);
    assert code + [i0] + [i1] == code + [i0, i1];
  }

  function CopyCells(d: nat, mapping: seq<Copy>): set<Addr> {
    set c | c in mapping :: Local(d, c.slot)
  }

  ghost predicate Disjoint(d: nat, mapping: seq<Copy>) {
    && (forall j, k | 0 <= j < k < |mapping| :: mapping[j].slot != mapping[k].slot)
    && (forall b, c | b in mapping && c in mapping :: Cell(d, b.original) != Local(d, c.slot))
  }

  lemma CopyAdded(d: nat, mapping: seq<Copy>, it: Copy, m: Memory, before: Memory)
    requires Disjoint(d, mapping + [it]) && CopiesHold(d, mapping, m, before)
    requires forall a | a !in CopyCells(d, mapping) :: AgreeAt(m, before, a)
    ensures var after := before[Local(d, it.slot) := Get(before, Cell(d, it.original))];
            && CopiesHold(d, mapping + [it], m, after)
            && forall a | a !in CopyCells(d, mapping + [it]) :: AgreeAt(m, after, a)
  {
    var whole := mapping + [it];
    var after := before[Local(d, it.slot) := Get(before, Cell(d, it.original))];
    assert it in whole;
    forall c | c in mapping ensures c in whole && c.slot != it.slot && Cell(d, it.original) != Local(d, c.slot) {
      var j :| 0 <= j < |mapping| && mapping[j] == c;
      assert whole[j] == c && whole[|mapping|] == it;
    }
    assert AgreeAt(m, before, Cell(d, it.original));
    forall a | a !in CopyCells(d, whole) ensures AgreeAt(m, after, a) {
      assert a !in CopyCells(d, mapping) && a != Local(d, it.slot);
    }
  }

  /** Storing writes exactly the copies. */
  lemma {:induction false} StoreExec(env: Env, P: Program, d: nat, mapping: seq<Copy>, base: Reg,
                                     regs: map<Reg, int>, mem: Memory, ins: seq<int>)
    requires Direct(mapping) && Disjoint(d, mapping)
    ensures var r := ExecInstrs(env, P, d, StoreCode(mapping, base), regs, mem, ins);
            && r.Ok? && r.rest == ins && CopiesHold(d, mapping, mem, r.mem)
            && (forall a | a !in CopyCells(d, mapping) :: AgreeAt(mem, r.mem, a))
    decreases |mapping|
  {
    if mapping != [] {
      var k := |mapping| - 1;
      var front := mapping[..k];
      assert mapping == front + [mapping[k]];
      StoreExec(env, P, d, front, base, regs, mem, ins);
      StoreOneExec(env, P, d, StoreCode(front, base), mapping[k], base, regs, mem, ins);
      CopyAdded(d, front, mapping[k], mem, ExecInstrs(env, P, d, StoreCode(front, base), regs, mem, ins).mem);
    }
  }

  // ---------------------------------------------------------------------------------------------
  // One step.

  /** The mapping and the used variables, one for one. */
  lemma MappingFacts(P: Program, name: string, site: Site)
    requires Ready(P, name, site)
    ensures var used := LoopUses(P, site.blocks, site.body);
            && (forall v | v in used :: v.Alloca? || v.Global?)
            && (forall v | v in used :: exists c :: c in site.mapping && c.original == v)
            && (forall c | c in site.mapping :: c.original in used && c.slot !in Slots(used))
  {
    var used := LoopUses(P, site.blocks, site.body);
    UsesAreVariables(P, site.blocks, site.body, []);
    forall v | v in used ensures exists c :: c in site.mapping && c.original == v {
      assert Tracks(site.mapping, v);
      var k :| 0 <= k < |site.mapping| && site.mapping[k].original == v;
      assert site.mapping[k] in site.mapping;
    }
    forall c | c in site.mapping ensures c.original in used && c.slot !in Slots(used) {
      var k :| 0 <= k < |site.mapping| && site.mapping[k] == c;
    }
  }

  lemma SiteFacts(P: Program, name: string, d: nat, site: Site)
    requires Ready(P, name, site)
    ensures var used := LoopUses(P, site.blocks, site.body);
            var tracked := TrackedCells(P, d, site.blocks, site.body);
            && Direct(site.mapping) && Disjoint(d, site.mapping)
            && (forall a | a in tracked :: a !in Hidden(d, site))
            && (forall c | c in site.mapping ::
                  Cell(d, c.original) in tracked && Cell(d, c.original) !in Hidden(d, site))
            && (forall a | MayWrite(d, Slots(used), Globals(used), a) :: a !in Hidden(d, site))
            && Covers(tracked, d, Slots(used), Globals(used))
            && (forall v | v in used :: exists c :: c in site.mapping && c.original == v)
  {
    MappingFacts(P, name, site);
  }

  /** Only stack slots and globals are ever recorded as used. */
  lemma {:induction false} UsesAreVariables(P: Program, blocks: map<Label, Block>, which: set<Label>,
                                            stack: seq<string>)
    requires which <= blocks.Keys
    ensures forall v | v in BlocksUses(P, blocks, which, stack) :: v.Alloca? || v.Global?
    decreases P.Keys - Elems(stack)
  {
    forall v | v in BlocksUses(P, blocks, which, stack) ensures v.Alloca? || v.Global? {
      var l :| l in which && v in CodeUses(P, blocks[l].instrs, stack);
      var i :| i in blocks[l].instrs && v in InstrUses(P, i, stack);
      if i.Call? {
        var n := i.callee.value;
        assert v in FunctionUses(P, n, stack);
        assert Elems(stack + [n]) == Elems(stack) + {n};
        assert n in P.Keys - Elems(stack) && n !in P.Keys - Elems(stack + [n]);
        UsesAreVariables(P, P[n].blocks, P[n].blocks.Keys, stack + [n]);
      }
    }
  }

  /** The original code of a block does the same with and without the cells of the instrumentation. */
  lemma BlockErased(env: Env, P: Program, name: string, d: nat, site: Site, l: Label, m: Memory, chunk: seq<int>)
    requires Ready(P, name, site) && l in site.body
    ensures SameWithout(Hidden(d, site), m,
                        ExecInstrs(env, Rewritten(P, name, site), d, site.blocks[l].instrs, map[], m, chunk),
                        ExecInstrs(env, P, d, site.blocks[l].instrs, map[], m - Hidden(d, site), chunk))
  {
    var Q, code := Rewritten(P, name, site), site.blocks[l].instrs;
    var fns, used := Reached(P, site.blocks, site.body), LoopUses(P, site.blocks, site.body);
    SiteFacts(P, name, d, site);
    AcceptedIsNamed(P, site.blocks, site.body);
    OwnFunctionNotReached(P, name, site.body);
    assert SameFunctions(P, Q, fns);
    SameInBoth(env, P, Q, fns, d, Slots(used), Globals(used), code, m, chunk);
    HiddenFrame(env, P, fns, d, Slots(used), Globals(used), Hidden(d, site), code, m, chunk);
  }

  predicate Silent(site: Site, s: LoopState) {
    s.At? && (s.block == site.decide || s.block == site.store)
  }

  /** Forgets the added blocks and cells. */
  function Erase(d: nat, site: Site, s: LoopState): LoopState {
    match s
    case At(l, m) => At(if l == site.decide || l == site.store then site.header else l, m - Hidden(d, site))
    case Left(t, m) => Left(t, m - Hidden(d, site))
    case Returned(v, m) => Returned(v, m - Hidden(d, site))
    case _ => s
  }

  function MemoryOf(s: LoopState): Memory {
    match s
    case At(_, m) => m
    case Left(_, m) => m
    case Returned(_, m) => m
    case _ => map[]
  }

  /**
   The end of an instrumented block against the end of the original one: `r` is the original code run
   with the hidden cells, `checked` that outcome after the checks.
   */
  lemma FinishErased(site: Site, d: nat, t: Terminator, r: Outcome, regs: map<Reg, int>)
    requires r.Ok? && TermReg(t) < site.base && SameBelow(site.base, r.regs, regs)
    requires site.decide !in site.body && site.store !in site.body && site.header in site.body
    requires (t.Branch? ==> forall k | 0 <= k < |t.succs| :: t.succs[k] != site.decide && t.succs[k] != site.store)
    ensures Erase(d, site, Finish(Redirected(t, site.header, site.decide), Ok(regs, r.mem, r.rest), site.NewBody()))
            == Finish(t, Ok(r.regs, r.mem - Hidden(d, site), r.rest), site.body)
  {
    if t.Branch? && t.succs != [] {
      var k := Pick(Reading(r.regs, t.cond), |t.succs|);
      assert Redirected(t, site.header, site.decide).succs[k] ==
             if t.succs[k] == site.header then site.decide else t.succs[k];
    }
  }

  predicate IsLatch(site: Site, l: Label)
    requires l in site.blocks
  {
    CountEdges(Succs(site.blocks[l].term), site.header) > 0
  }

  /** The original code of block `l`, run without the hidden cells. */
  function Erased(env: Env, P: Program, d: nat, site: Site, l: Label, m: Memory, chunk: seq<int>): Outcome
    requires l in site.blocks
  {
    ExecInstrs(env, P, d, site.blocks[l].instrs, map[], m - Hidden(d, site), chunk)
  }

  /**
   The check behind block `l` receives true: a state is stored, and after the block the tracked
   variables equal it.
   */
  ghost predicate CheckMatches(env: Env, P: Program, d: nat, site: Site, l: Label, m: Memory, chunk: seq<int>)
    requires l in site.blocks
  {
    var e := Erased(env, P, d, site, l, m, chunk);
    IsLatch(site, l) && Stored(m) && e.Ok? && CopiesHold(d, site.mapping, e.mem, m)
  }

  /** The same, and the inputs are those the block reads. */
  ghost predicate CheckFires(env: Env, P: Program, d: nat, site: Site, l: Label, m: Memory, chunk: seq<int>)
    requires l in site.blocks
  {
    CheckMatches(env, P, d, site, l, m, chunk) && Erased(env, P, d, site, l, m, chunk).rest == []
  }

  /** The checks see the present values and the stored ones. */
  lemma CheckedOutcome(env: Env, P: Program, name: string, d: nat, site: Site, l: Label, m: Memory, chunk: seq<int>)
    requires Ready(P, name, site) && l in site.body
    ensures var Q := Rewritten(P, name, site);
            var r := ExecInstrs(env, Q, d, site.blocks[l].instrs, map[], m, chunk);
            var c := ExecInstrs(env, Q, d, site.blocks[l].instrs + site.Checks(l), map[], m, chunk);
            if CheckMatches(env, P, d, site, l, m, chunk) then r.Ok? && c == Alarm(r.rest)
            else if !r.Ok? then c == r
            else c.Ok? && c.mem == r.mem && c.rest == r.rest && SameBelow(site.base, r.regs, c.regs)
  {
    var Q, hidden, b := Rewritten(P, name, site), Hidden(d, site), site.blocks[l];
    SiteFacts(P, name, d, site);
    BlockErased(env, P, name, d, site, l, m, chunk);
    var n := CountEdges(Succs(b.term), site.header);
    ExecAppend(env, Q, d, b.instrs, site.Checks(l), map[], m, chunk);
    var r := ExecInstrs(env, Q, d, b.instrs, map[], m, chunk);
    if r.Ok? {
      ChecksExec(env, Q, d, site.mapping, site.base, n, r.regs, r.mem, r.rest);
      CopiesSeen(P, d, site, m, r.mem);
    }
  }

  /** The comparison with the copies does not depend on where the hidden cells are looked at. */
  lemma CopiesSeen(P: Program, d: nat, site: Site, m: Memory, now: Memory)
    requires forall c | c in site.mapping :: Cell(d, c.original) !in Hidden(d, site)
    requires forall a | a in Hidden(d, site) :: AgreeAt(m, now, a)
    ensures Stored(m) <==> Stored(now)
    ensures EqualCopies(d, site.mapping, now) <==> CopiesHold(d, site.mapping, now - Hidden(d, site), m)
  {
    assert AgreeAt(m, now, Monitor);
    forall c | c in site.mapping
      ensures Get(now, Cell(d, c.original)) == Get(now - Hidden(d, site), Cell(d, c.original))
      ensures Get(now, Local(d, c.slot)) == Get(m, Local(d, c.slot))
    {
      assert Local(d, c.slot) in Hidden(d, site) && AgreeAt(m, now, Local(d, c.slot));
    }
  }

  /** What the instrumentation stored is as it was. */
  ghost predicate SameHidden(d: nat, site: Site, m1: Memory, m2: Memory) {
    forall a | a in Hidden(d, site) :: AgreeAt(m1, m2, a)
  }

  /** The labels of the site, apart from what the check established. */
  ghost predicate Shaped(site: Site) {
    && site.header in site.body && site.body <= site.blocks.Keys
    && site.decide !in LabelsOf(site.blocks) && site.store !in LabelsOf(site.blocks) && site.decide != site.store
    && (forall l | l in site.blocks :: TermReg(site.blocks[l].term) < site.base)
    && (forall l, t | l in site.blocks && t in Succs(site.blocks[l].term) :: t != site.decide && t != site.store)
  }

  lemma ReadyIsShaped(P: Program, name: string, site: Site)
    requires Ready(P, name, site)
    ensures Shaped(site)
  {
    forall l, t | l in site.blocks && t in Succs(site.blocks[l].term) ensures t in LabelsOf(site.blocks) {
    }
  }

  lemma MonitoredStep(env: Env, P: Program, name: string, d: nat, site: Site, l: Label, m: Memory, chunk: seq<int>)
    requires IsDefined(P, name) && l in site.NewBlocks()
    ensures Monitored(env, P, name, d, site)(At(l, m), chunk) ==
            Finish(site.NewBlocks()[l].term,
                   ExecInstrs(env, Rewritten(P, name, site), d, site.NewBlocks()[l].instrs, map[], m, chunk),
                       site.NewBody())
  {
  }

  lemma NewBlockAt(site: Site, l: Label)
    requires Shaped(site) && l in site.blocks
    ensures l in site.NewBlocks() && site.NewBlocks()[l] == site.NewBlock(l)
  {
    assert l != site.store && l != site.decide;
  }

  /** A finished block of the instrumented loop goes where the original one goes, by way of the deciding block. */
  lemma BlockFinish(site: Site, d: nat, l: Label, r: Outcome, c: Outcome)
    requires Shaped(site) && l in site.body && !r.Alarm?
    requires if r.Ok? then c.Ok? && c.mem == r.mem && c.rest == r.rest
             && SameBelow(site.base, r.regs, c.regs) else c == r
    ensures var big := Finish(site.NewBlock(l).term, c, site.NewBody());
            var e := if r.Ok? then Ok(r.regs, r.mem - Hidden(d, site), r.rest) else r;
            && !big.Reported? && Erase(d, site, big) == Finish(site.blocks[l].term, e, site.body)
            && (big.At? ==>
                  big.block in site.body + {site.decide} && big.block != site.header && r.Ok? && big.mem == r.mem)
  {
    var t := site.blocks[l].term;
    if r.Ok? {
      forall k | t.Branch? && 0 <= k < |t.succs| ensures t.succs[k] != site.decide && t.succs[k] != site.store {
        assert t.succs[k] in Succs(site.blocks[l].term);
      }
      FinishErased(site, d, t, r, c.regs);
      if t.Branch? && t.succs != [] {
        var k := Pick(Reading(c.regs, t.cond), |t.succs|);
        assert Redirected(t, site.header, site.decide).succs[k] ==
               if t.succs[k] == site.header then site.decide else t.succs[k];
      }
    }
  }

  /**
   A step from a block of the loop reports exactly when its check receives true; otherwise it is the
   original step after erasure, and what is stored does not change.
   */
  lemma BodyStep(env: Env, P: Program, name: string, d: nat, site: Site, l: Label, m: Memory, chunk: seq<int>)
    requires Ready(P, name, site) && l in site.body
    ensures var big := Monitored(env, P, name, d, site)(At(l, m), chunk);
            var small := Original(env, P, d, site)(At(l, m - Hidden(d, site)), chunk);
            && !small.Reported?
            && (big.Reported? <==> CheckFires(env, P, d, site, l, m, chunk))
            && (!big.Reported? ==> Erase(d, site, big) == small)
            && (big.At? ==>
                  big.block in site.body + {site.decide} && big.block != site.header && SameHidden(d, site, m, big.mem))
  {
    var Q := Rewritten(P, name, site);
    var r := ExecInstrs(env, Q, d, site.blocks[l].instrs, map[], m, chunk);
    var c := ExecInstrs(env, Q, d, site.blocks[l].instrs + site.Checks(l), map[], m, chunk);
    CheckedOutcome(env, P, name, d, site, l, m, chunk);
    BlockErased(env, P, name, d, site, l, m, chunk);
    ReadyIsShaped(P, name, site);
    NewBlockAt(site, l);
    MonitoredStep(env, P, name, d, site, l, m, chunk);
    OriginalStep(env, P, d, site, l, m - Hidden(d, site), chunk);
    BodyStepCases(env, P, d, site, l, m, chunk, r, c);
  }

  lemma OriginalStep(env: Env, P: Program, d: nat, site: Site, l: Label, m: Memory, chunk: seq<int>)
    requires l in site.blocks
    ensures Original(env, P, d, site)(At(l, m), chunk) ==
            Finish(site.blocks[l].term, ExecInstrs(env, P, d, site.blocks[l].instrs, map[], m, chunk), site.body)
  {
  }

  lemma BodyStepCases(env: Env, P: Program, d: nat, site: Site, l: Label, m: Memory, chunk: seq<int>, r: Outcome,
                      c: Outcome)
    requires Shaped(site) && l in site.body
    requires SameWithout(Hidden(d, site), m, r, Erased(env, P, d, site, l, m, chunk))
    requires if CheckMatches(env, P, d, site, l, m, chunk) then r.Ok? && c == Alarm(r.rest)
             else if !r.Ok? then c == r
             else c.Ok? && c.mem == r.mem && c.rest == r.rest && SameBelow(site.base, r.regs, c.regs)
    ensures var big := Finish(site.NewBlock(l).term, c, site.NewBody());
            var small := Finish(site.blocks[l].term, Erased(env, P, d, site, l, m, chunk), site.body);
            && !small.Reported?
            && (big.Reported? <==> CheckFires(env, P, d, site, l, m, chunk))
            && (!big.Reported? ==> Erase(d, site, big) == small)
            && (big.At? ==>
                  big.block in site.body + {site.decide} && big.block != site.header && SameHidden(d, site, m, big.mem))
  {
    if !CheckMatches(env, P, d, site, l, m, chunk) {
      BlockFinish(site, d, l, r, c);
    }
  }

  lemma DecideExec(env: Env, P: Program, d: nat, site: Site, m: Memory, chunk: seq<int>)
    ensures ExecInstrs(env, P, d, site.DecideBlock().instrs, map[], m, chunk) ==
            if chunk == [] then Starved else Ok(map[site.base := chunk[0]], m, chunk[1..])
  {
    var c, h := Call(site.base, Some(NONDET_STORE), []), Call(site.base + 1, Some(CHECK_HEADER), []);
    ExecOne(env, P, d, c, map[], m, chunk);
    if site.withHeaderCall {
      ExecAppend(env, P, d, [h], [c], map[], m, chunk);
      ExecOne(env, P, d, h, map[], m, chunk);
    } else {
      assert [] + [c] == [c];
    }
  }

  /** The deciding block only chooses. */
  lemma DecideStep(env: Env, P: Program, name: string, d: nat, site: Site, m: Memory, chunk: seq<int>)
    requires IsDefined(P, name) && Shaped(site)
    ensures Monitored(env, P, name, d, site)(At(site.decide, m), chunk) ==
            if |chunk| != 1 then Misfed else if chunk[0] != 0 then At(site.store, m) else At(site.header, m)
  {
    assert site.NewBlocks()[site.decide] == site.DecideBlock();
    MonitoredStep(env, P, name, d, site, site.decide, m, chunk);
    DecideExec(env, Rewritten(P, name, site), d, site, m, chunk);
    if chunk != [] {
      assert Reading(map[site.base := chunk[0]], site.base) == chunk[0];
    }
  }

  lemma StoreBlockExec(env: Env, P: Program, d: nat, site: Site, m: Memory, chunk: seq<int>)
    requires Direct(site.mapping) && Disjoint(d, site.mapping)
    requires forall c | c in site.mapping :: Cell(d, c.original) !in Hidden(d, site)
    ensures var r := ExecInstrs(env, P, d, site.StoreBlock().instrs, map[], m, chunk);
            && r.Ok? && r.rest == chunk && Stored(r.mem)
            && r.mem - Hidden(d, site) == m - Hidden(d, site)
            && CopiesHold(d, site.mapping, m - Hidden(d, site), r.mem)
  {
    var hidden := Hidden(d, site);
    var i := Call(site.base + 1, Some(STORE), []);
    var marked := m[Monitor := 1];
    ExecAppend(env, P, d, [i], StoreCode(site.mapping, site.base), map[], m, chunk);
    ExecOne(env, P, d, i, map[], m, chunk);
    StoreExec(env, P, d, site.mapping, site.base, map[], marked, chunk);
    var r := ExecInstrs(env, P, d, StoreCode(site.mapping, site.base), map[], marked, chunk);
    assert AgreeAt(marked, r.mem, Monitor);
    forall a | a !in hidden ensures AgreeAt(m, r.mem, a) {
      assert a !in CopyCells(d, site.mapping) && AgreeAt(marked, r.mem, a);
    }
    assert r.mem - hidden == m - hidden;
  }

  /** The storing block copies every tracked variable and marks a state as stored. */
  lemma StoreStep(env: Env, P: Program, name: string, d: nat, site: Site, m: Memory, chunk: seq<int>)
    requires Ready(P, name, site)
    ensures var big := Monitored(env, P, name, d, site)(At(site.store, m), chunk);
            if chunk != [] then big.Misfed?
            else && big.At? && big.block == site.header && Stored(big.mem)
                 && big.mem - Hidden(d, site) == m - Hidden(d, site)
                 && CopiesHold(d, site.mapping, m - Hidden(d, site), big.mem)
  {
    SiteFacts(P, name, d, site);
    ReadyIsShaped(P, name, site);
    assert site.NewBlocks()[site.store] == site.StoreBlock();
    forall c | c in site.mapping ensures Cell(d, c.original) !in Hidden(d, site) {
      assert Cell(d, c.original) in TrackedCells(P, d, site.blocks, site.body);
    }
    MonitoredStep(env, P, name, d, site, site.store, m, chunk);
    StoreBlockExec(env, Rewritten(P, name, site), d, site, m, chunk);
  }
}
