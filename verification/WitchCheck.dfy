/**
 The check that a loop reads and writes only known locations, done before the loop is instrumented.
 It follows calls into function bodies and collects the variables the loop uses.
 */
module WitchCheck {
  import opened Common
  import opened Ir
  import opened WitchFrame

  /** Functions that are accepted without looking at them. */
  predicate IsExempt(name: string) {
    || name == "__VERIFIER_assume" || name == "__VERIFIER_assert"
    || "__VERIFIER_nondet_" <= name || "__VERIFIER_exit" <= name || "__VERIFIER_silent_exit" <= name
    || "exit" <= name || "_exit" <= name || "abort" <= name || "klee_silent_exit" <= name
    || "llvm.dbg." <= name || "__VALIDATOR" <= name
    || name == STORE
  }

  lemma DiffersAt(beginning: string, name: string, k: nat)
    requires k < |beginning| && k < |name| && beginning[k] != name[k]
    ensures !(beginning <= name)
  {
  }

  lemma NotInFamily(name: string)
    requires |name| > 11 && name[0] == '_' && name[1] == '_' && name[3] == 'E' && name[11] == 'a'
    requires name != "__VERIFIER_assume" && name != "__VERIFIER_assert"
    ensures !IsExempt(name)
  {
    DiffersAt("__VERIFIER_nondet_", name, 11);
    DiffersAt("__VERIFIER_exit", name, 11);
    DiffersAt("__VERIFIER_silent_exit", name, 11);
    DiffersAt("exit", name, 0);
    DiffersAt("_exit", name, 1);
    DiffersAt("abort", name, 0);
    DiffersAt("klee_silent_exit", name, 0);
    DiffersAt("llvm.dbg.", name, 0);
    DiffersAt("__VALIDATOR", name, 3);
    assert STORE[3] == 'N';
  }

  /** Most exempt names stand for everything that starts like them, and those of assume and assert for themselves. */
  lemma ExemptFamilies(suffix: string)
    ensures IsExempt("__VERIFIER_nondet_" + suffix) && IsExempt("__VALIDATOR" + suffix)
    ensures IsExempt("llvm.dbg." + suffix) && IsExempt("__VERIFIER_exit" + suffix)
    ensures IsExempt("__VERIFIER_silent_exit" + suffix)
    ensures IsExempt("exit" + suffix) && IsExempt("_exit" + suffix) && IsExempt("abort" + suffix)
    ensures IsExempt("klee_silent_exit" + suffix)
    ensures IsExempt("__VERIFIER_assume") && IsExempt("__VERIFIER_assert") && IsExempt("__INSTR_store")
    ensures suffix != "" ==> !IsExempt("__VERIFIER_assume" + suffix) && !IsExempt("__VERIFIER_assert" + suffix)
  {
    if suffix != "" {
      NotInFamily("__VERIFIER_assume" + suffix);
      NotInFamily("__VERIFIER_assert" + suffix);
    }
  }

  function Elems(stack: seq<string>): set<string> {
    set n | n in stack
  }

  predicate OperandKnown(p: Pointer) {
    p.Alloca? || p.Global? || p.ConstAddress?
  }

  function OperandUses(p: Pointer, nested: bool): set<Pointer> {
    if p.Global? || (p.Alloca? && !nested) then {p} else {}
  }

  ghost predicate InstrAccepted(P: Program, i: Instr, stack: seq<string>)
    decreases P.Keys - Elems(stack), 1
  {
    match i
    case Call(_, callee, _) => callee.Some? && FunctionAccepted(P, callee.value, stack)
    case Load(_, p) => OperandKnown(p)
    case Store(p, _) => OperandKnown(p)
    case Compute(_, _, _) => true
    case OtherMemory(_) => false
  }

  ghost predicate CodeAccepted(P: Program, code: seq<Instr>, stack: seq<string>)
    decreases P.Keys - Elems(stack), 2
  {
    forall i | i in code :: InstrAccepted(P, i, stack)
  }

  ghost predicate FunctionAccepted(P: Program, name: string, stack: seq<string>)
    decreases P.Keys - Elems(stack), 0
  {
    if IsExempt(name) then true
    else if name in stack then false
    else if !IsDefined(P, name) then true
    else
      assert Elems(stack + [name]) == Elems(stack) + {name};
      assert name in P.Keys - Elems(stack) && name !in P.Keys - Elems(stack + [name]);
      forall l | l in P[name].blocks :: CodeAccepted(P, P[name].blocks[l].instrs, stack + [name])
  }

  ghost function InstrUses(P: Program, i: Instr, stack: seq<string>): set<Pointer>
    decreases P.Keys - Elems(stack), 1
  {
    match i
    case Call(_, callee, _) => if callee.Some? then FunctionUses(P, callee.value, stack) else {}
    case Load(_, p) => OperandUses(p, stack != [])
    case Store(p, _) => OperandUses(p, stack != [])
    case Compute(_, _, _) => {}
    case OtherMemory(_) => {}
  }

  ghost function CodeUses(P: Program, code: seq<Instr>, stack: seq<string>): set<Pointer>
    decreases P.Keys - Elems(stack), 2
  {
    set i, v | i in code && v in InstrUses(P, i, stack) :: v
  }

  ghost function FunctionUses(P: Program, name: string, stack: seq<string>): set<Pointer>
    decreases P.Keys - Elems(stack), 0
  {
    if IsExempt(name) || name in stack || !IsDefined(P, name) then {}
    else
      assert Elems(stack + [name]) == Elems(stack) + {name};
      assert name in P.Keys - Elems(stack) && name !in P.Keys - Elems(stack + [name]);
      BlocksUses(P, P[name].blocks, P[name].blocks.Keys, stack + [name])
  }

  ghost function BlocksUses(P: Program, blocks: map<Label, Block>, which: set<Label>, stack: seq<string>): set<Pointer>
    requires which <= blocks.Keys
    decreases P.Keys - Elems(stack), 3
  {
    set l, v | l in which && v in CodeUses(P, blocks[l].instrs, stack) :: v
  }

  /** A call of an exempt function is accepted, and nothing is recorded. */
  lemma ExemptCall(P: Program, dst: Reg, name: string, args: seq<Reg>, stack: seq<string>)
    requires IsExempt(name)
    ensures InstrAccepted(P, Call(dst, Some(name), args), stack)
    ensures InstrUses(P, Call(dst, Some(name), args), stack) == {}
  {
    assert FunctionAccepted(P, name, stack) && FunctionUses(P, name, stack) == {};
  }

  ghost predicate LoopAccepted(P: Program, blocks: map<Label, Block>, body: set<Label>)
    requires body <= blocks.Keys
  {
    forall l | l in body :: CodeAccepted(P, blocks[l].instrs, [])
  }

  ghost function LoopUses(P: Program, blocks: map<Label, Block>, body: set<Label>): set<Pointer>
    requires body <= blocks.Keys
  {
    BlocksUses(P, blocks, body, [])
  }

  // ---------------------------------------------------------------------------------------------
  // The check as the pass runs it, filling the set of used values by reference.

  class ValueSet {
    var elems: set<Pointer>

    constructor ()
      ensures elems == {}
    {
      elems := {};
    }

    method Insert(v: Pointer)
      modifies this
      ensures elems == old(elems) + {v}
    {
      elems := elems + {v};
    }
  }

  method CheckOperand(v: Pointer, used: ValueSet, nestedCall: bool) returns (ok: bool)
    modifies used
    ensures ok == OperandKnown(v)
    ensures ok <==> !v.Computed?
    ensures used.elems == old(used.elems) + OperandUses(v, nestedCall)
  {
    if v.Alloca? {
      if !nestedCall {
        used.Insert(v);
      }
      return true;
    } else if v.Global? {
      used.Insert(v);
      return true;
    }
    return v.ConstAddress?;
  }

  method CheckInstruction(P: Program, i: Instr, used: ValueSet, stack: seq<string>) returns (ok: bool)
    modifies used
    ensures ok == InstrAccepted(P, i, stack)
    ensures i.Load? || i.Store? ==> (ok <==> !i.ptr.Computed?)
    ensures i.Compute? ==> ok
    ensures i.OtherMemory? || (i.Call? && i.callee.None?) ==> !ok
    ensures ok ==> used.elems == old(used.elems) + InstrUses(P, i, stack)
    decreases P.Keys - Elems(stack), 1
  {
    var nested := stack != [];
    match i
    case Call(_, callee, _) => ok := CheckFunction(P, callee, used, stack);
    case Load(_, p) => ok := CheckOperand(p, used, nested);
    case Store(p, _) => ok := CheckOperand(p, used, nested);
    case Compute(_, _, _) => ok := true;
    case OtherMemory(_) => ok := false;
  }

  method CheckCode(P: Program, code: seq<Instr>, used: ValueSet, stack: seq<string>) returns (ok: bool)
    modifies used
    ensures ok == CodeAccepted(P, code, stack)
    ensures ok ==> used.elems == old(used.elems) + CodeUses(P, code, stack)
    decreases P.Keys - Elems(stack), 2
  {
    for k := 0 to |code|
      invariant CodeAccepted(P, code[..k], stack)
      invariant used.elems == old(used.elems) + CodeUses(P, code[..k], stack)
    {
      assert code[..k + 1] == code[..k] + [code[k]];
      ok := CheckInstruction(P, code[k], used, stack);
      if !ok {
        assert code[k] in code;
        return;
      }
    }
    assert code[..|code|] == code;
    ok := true;
  }

  method CheckFunction(P: Program, callee: Option<string>, used: ValueSet, stack: seq<string>) returns (ok: bool)
    modifies used
    ensures ok == (callee.Some? && FunctionAccepted(P, callee.value, stack))
    ensures ok ==> used.elems == old(used.elems) + FunctionUses(P, callee.value, stack)
    decreases P.Keys - Elems(stack), 0
  {
    if callee.None? {
      return false;
    }
    var name := callee.value;
    if IsExempt(name) {
      return true;
    }
    for k := 0 to |stack|
      invariant name !in stack[..k]
    {
      if stack[k] == name {
        return false;
      }
    }
    assert stack[..|stack|] == stack;
    if !IsDefined(P, name) {
      return true;
    }
    assert Elems(stack + [name]) == Elems(stack) + {name};
    assert name in P.Keys - Elems(stack) && name !in P.Keys - Elems(stack + [name]);
    ok := CheckBlocks(P, P[name].blocks, P[name].blocks.Keys, used, stack + [name]);
  }

  /** Every instruction of the given blocks, in any block order. */
  method CheckBlocks(P: Program, blocks: map<Label, Block>, which: set<Label>, used: ValueSet, stack: seq<string>)
    returns (ok: bool)
    requires which <= blocks.Keys
    modifies used
    ensures ok == forall l | l in which :: CodeAccepted(P, blocks[l].instrs, stack)
    ensures ok ==> used.elems == old(used.elems) + BlocksUses(P, blocks, which, stack)
    decreases P.Keys - Elems(stack), 3
  {
    var todo := which;
    while todo != {}
      invariant todo <= which
      invariant forall l | l in which - todo :: CodeAccepted(P, blocks[l].instrs, stack)
      invariant used.elems == old(used.elems) + BlocksUses(P, blocks, which - todo, stack)
      decreases todo
    {
      var l :| l in todo;
      ok := CheckCode(P, blocks[l].instrs, used, stack);
      if !ok {
        return;
      }
      todo := todo - {l};
    }
    ok := true;
  }

  /** The first half of instrumenting a loop: scan it, and give up unless everything is known. */
  method CheckLoop(P: Program, blocks: map<Label, Block>, body: set<Label>)
    returns (ok: bool, usedValues: set<Pointer>)
    requires body <= blocks.Keys
    ensures ok <==> LoopAccepted(P, blocks, body)
    ensures ok ==> usedValues == LoopUses(P, blocks, body)
    ensures ok ==> forall v :: v in usedValues <==> IsUsed(P, blocks, body, v)
  {
    var used := new ValueSet();
    ok := CheckBlocks(P, blocks, body, used, []);
    usedValues := used.elems;
    if ok {
      forall v ensures v in usedValues <==> IsUsed(P, blocks, body, v) {
        LoopUsesExactly(P, blocks, body, v);
      }
    }
  }

  // ---------------------------------------------------------------------------------------------
  // What acceptance means, said with call paths instead of the recursion.

  ghost predicate CallsFrom(code: seq<Instr>, name: string) {
    exists i | i in code :: i.Call? && i.callee == Some(name)
  }

  ghost predicate Calls(P: Program, caller: string, callee: string) {
    IsDefined(P, caller) && exists l | l in P[caller].blocks :: CallsFrom(P[caller].blocks[l].instrs, callee)
  }

  ghost predicate Path(P: Program, p: seq<string>) {
    && p != []
    && (forall k | 0 <= k < |p| :: !IsExempt(p[k]))
    && (forall k | 0 <= k < |p| - 1 :: Calls(P, p[k], p[k + 1]))
  }

  function Last(p: seq<string>): string
    requires p != []
  {
    p[|p| - 1]
  }

  function Front(p: seq<string>): seq<string>
    requires p != []
  {
    p[..|p| - 1]
  }

  /** Nothing in this instruction itself is a reason to give up. */
  predicate LocallyKnown(i: Instr) {
    match i
    case Call(_, callee, _) => callee.Some?
    case Load(_, p) => OperandKnown(p)
    case Store(p, _) => OperandKnown(p)
    case Compute(_, _, _) => true
    case OtherMemory(_) => false
  }

  ghost predicate CodeKnown(code: seq<Instr>) {
    forall i | i in code :: LocallyKnown(i)
  }

  /** The function a call path ends in is not already active, and its own code is known. */
  ghost predicate EndsWell(P: Program, active: seq<string>, p: seq<string>)
    requires p != []
  {
    && Last(p) !in active + Front(p)
    && (IsDefined(P, Last(p)) ==> forall l | l in P[Last(p)].blocks :: CodeKnown(P[Last(p)].blocks[l].instrs))
  }

  lemma AcceptedBody(P: Program, name: string, stack: seq<string>)
    requires FunctionAccepted(P, name, stack) && !IsExempt(name) && IsDefined(P, name)
    ensures forall l | l in P[name].blocks ::
              CodeAccepted(P, P[name].blocks[l].instrs, stack + [name]) && CodeKnown(P[name].blocks[l].instrs)
  {
    forall l, i | l in P[name].blocks && i in P[name].blocks[l].instrs ensures LocallyKnown(i) {
      assert CodeAccepted(P, P[name].blocks[l].instrs, stack + [name]);
      assert InstrAccepted(P, i, stack + [name]);
    }
  }

  lemma {:induction false} PathAccepted(P: Program, active: seq<string>, p: seq<string>)
    requires Path(P, p) && FunctionAccepted(P, p[0], active)
    ensures EndsWell(P, active, p)
    ensures FunctionAccepted(P, Last(p), active + Front(p))
    ensures FunctionUses(P, Last(p), active + Front(p)) <= FunctionUses(P, p[0], active)
    decreases |p|
  {
    if |p| == 1 {
      AcceptedAlone(P, active, p[0]);
      assert p == [p[0]] && active + Front(p) == active;
    } else {
      var rest := p[1..];
      PathTail(P, p);
      AcceptedCall(P, active, p[0], rest[0]);
      PathAccepted(P, active + [p[0]], rest);
      EndsWellTail(P, active, p);
    }
  }

  lemma AcceptedAlone(P: Program, active: seq<string>, name: string)
    requires !IsExempt(name) && FunctionAccepted(P, name, active)
    ensures EndsWell(P, active, [name])
  {
    assert active + Front([name]) == active;
    if IsDefined(P, name) {
      AcceptedBody(P, name, active);
    }
  }

  lemma EndsWellTail(P: Program, active: seq<string>, p: seq<string>)
    requires |p| > 1 && EndsWell(P, active + [p[0]], p[1..])
    ensures EndsWell(P, active, p) && Last(p) == Last(p[1..]) && active + [p[0]] + Front(p[1..]) == active + Front(p)
  {
  }

  lemma PathTail(P: Program, p: seq<string>)
    requires Path(P, p) && |p| > 1
    ensures Path(P, p[1..]) && Calls(P, p[0], p[1..][0])
  {
    assert Calls(P, p[0], p[0 + 1]);
    forall k | 0 <= k < |p[1..]| - 1 ensures Calls(P, p[1..][k], p[1..][k + 1]) {
      assert Calls(P, p[k + 1], p[k + 1 + 1]);
    }
  }

  lemma AcceptedCall(P: Program, active: seq<string>, caller: string, callee: string)
    requires FunctionAccepted(P, caller, active) && !IsExempt(caller) && Calls(P, caller, callee)
    ensures FunctionAccepted(P, callee, active + [caller])
    ensures FunctionUses(P, callee, active + [caller]) <= FunctionUses(P, caller, active)
  {
    AcceptedBody(P, caller, active);
    var inner := active + [caller];
    var l :| l in P[caller].blocks && CallsFrom(P[caller].blocks[l].instrs, callee);
    var code := P[caller].blocks[l].instrs;
    var i :| i in code && i.Call? && i.callee == Some(callee);
    assert CodeAccepted(P, code, inner) && InstrAccepted(P, i, inner);
    assert FunctionUses(P, callee, inner) == InstrUses(P, i, inner) <= CodeUses(P, code, inner);
    assert CodeUses(P, code, inner) <= FunctionUses(P, caller, active);
  }

  lemma PathCons(P: Program, name: string, q: seq<string>)
    requires !IsExempt(name) && Path(P, q) && Calls(P, name, q[0])
    ensures Path(P, [name] + q) && Last([name] + q) == Last(q) && Front([name] + q) == [name] + Front(q)
  {
    var p := [name] + q;
    forall k | 0 <= k < |p| - 1 ensures Calls(P, p[k], p[k + 1]) {
      assert k > 0 ==> Calls(P, q[k - 1], q[k - 1 + 1]);
    }
  }

  lemma PathsAfterCall(P: Program, active: seq<string>, name: string, m: string)
    requires !IsExempt(name) && Calls(P, name, m)
    requires forall p | Path(P, p) && p[0] == name :: EndsWell(P, active, p)
    ensures forall q | Path(P, q) && q[0] == m :: EndsWell(P, active + [name], q)
  {
    forall q | Path(P, q) && q[0] == m ensures EndsWell(P, active + [name], q) {
      PathCons(P, name, q);
      assert EndsWell(P, active, [name] + q);
      assert active + ([name] + Front(q)) == active + [name] + Front(q);
    }
  }

  lemma {:induction false} AcceptedIfPathsEndWell(P: Program, active: seq<string>, name: string)
    requires !IsExempt(name)
    requires forall p | Path(P, p) && p[0] == name :: EndsWell(P, active, p)
    ensures FunctionAccepted(P, name, active)
    decreases P.Keys - Elems(active)
  {
    assert Path(P, [name]) && EndsWell(P, active, [name]);
    assert active + Front([name]) == active;
    if IsDefined(P, name) {
      var inner := active + [name];
      assert Elems(inner) == Elems(active) + {name};
      assert name in P.Keys - Elems(active) && name !in P.Keys - Elems(inner);
      forall l | l in P[name].blocks ensures CodeAccepted(P, P[name].blocks[l].instrs, inner) {
        var code := P[name].blocks[l].instrs;
        assert CodeKnown(code);
        forall i | i in code ensures InstrAccepted(P, i, inner) {
          assert LocallyKnown(i);
          if i.Call? && !IsExempt(i.callee.value) {
            assert CallsFrom(code, i.callee.value);
            PathsAfterCall(P, active, name, i.callee.value);
            AcceptedIfPathsEndWell(P, inner, i.callee.value);
          }
        }
      }
    }
  }

  /** A call path that starts with a call from the loop. */
  ghost predicate LoopPath(P: Program, blocks: map<Label, Block>, body: set<Label>, p: seq<string>)
    requires body <= blocks.Keys
  {
    Path(P, p) && exists l | l in body :: CallsFrom(blocks[l].instrs, p[0])
  }

  /**
   The check accepts a loop exactly when its own code is known and every call path out of it ends in
   a function that is not already on the path (no recursion) and whose code is known (no call
   through a pointer, no other memory access).
   */
  lemma AcceptedIffNoBadPath(P: Program, blocks: map<Label, Block>, body: set<Label>)
    requires body <= blocks.Keys
    ensures LoopAccepted(P, blocks, body) <==>
            && (forall l | l in body :: CodeKnown(blocks[l].instrs))
            && (forall p | LoopPath(P, blocks, body, p) :: EndsWell(P, [], p))
  {
    if LoopAccepted(P, blocks, body) {
      forall l, i | l in body && i in blocks[l].instrs ensures LocallyKnown(i) {
        assert CodeAccepted(P, blocks[l].instrs, []) && InstrAccepted(P, i, []);
      }
      forall p | LoopPath(P, blocks, body, p) ensures EndsWell(P, [], p) {
        LoopPathAccepted(P, blocks, body, p);
      }
    }
    if && (forall l | l in body :: CodeKnown(blocks[l].instrs))
       && (forall p | LoopPath(P, blocks, body, p) :: EndsWell(P, [], p)) {
      forall l | l in body ensures CodeAccepted(P, blocks[l].instrs, []) {
        forall i | i in blocks[l].instrs ensures InstrAccepted(P, i, []) {
          assert CodeKnown(blocks[l].instrs) && LocallyKnown(i);
          if i.Call? && !IsExempt(i.callee.value) {
            assert CallsFrom(blocks[l].instrs, i.callee.value);
            assert forall p | Path(P, p) && p[0] == i.callee.value :: LoopPath(P, blocks, body, p);
            AcceptedIfPathsEndWell(P, [], i.callee.value);
          }
        }
      }
    }
  }

  lemma LoopPathAccepted(P: Program, blocks: map<Label, Block>, body: set<Label>, p: seq<string>)
    requires body <= blocks.Keys && LoopAccepted(P, blocks, body) && LoopPath(P, blocks, body, p)
    ensures EndsWell(P, [], p) && FunctionAccepted(P, Last(p), Front(p))
    ensures FunctionUses(P, Last(p), Front(p)) <= LoopUses(P, blocks, body)
  {
    var l :| l in body && CallsFrom(blocks[l].instrs, p[0]);
    var i :| i in blocks[l].instrs && i.Call? && i.callee == Some(p[0]);
    assert CodeAccepted(P, blocks[l].instrs, []) && InstrAccepted(P, i, []);
    PathAccepted(P, [], p);
    assert [] + Front(p) == Front(p);
    assert InstrUses(P, i, []) <= CodeUses(P, blocks[l].instrs, []) <= LoopUses(P, blocks, body);
  }

  // ---------------------------------------------------------------------------------------------
  // From acceptance to named code.

  /** Any call path, through functions that are accepted without looking at them too. */
  ghost predicate Chain(P: Program, p: seq<string>) {
    p != [] && forall k | 0 <= k < |p| - 1 :: Calls(P, p[k], p[k + 1])
  }

  ghost predicate LoopChain(P: Program, blocks: map<Label, Block>, body: set<Label>, p: seq<string>)
    requires body <= blocks.Keys
  {
    Chain(P, p) && exists l | l in body :: CallsFrom(blocks[l].instrs, p[0])
  }

  /** The functions the loop can reach. */
  ghost function Reached(P: Program, blocks: map<Label, Block>, body: set<Label>): iset<string>
    requires body <= blocks.Keys
  {
    iset p | LoopChain(P, blocks, body, p) && IsDefined(P, Last(p)) :: Last(p)
  }

  /** Those among them that the check looks into. */
  ghost function Scanned(P: Program, blocks: map<Label, Block>, body: set<Label>): iset<string>
    requires body <= blocks.Keys
  {
    iset p | LoopPath(P, blocks, body, p) && IsDefined(P, Last(p)) :: Last(p)
  }

  /** Reached only through a function that is accepted without looking at it. */
  ghost predicate Unscanned(P: Program, blocks: map<Label, Block>, body: set<Label>, n: string)
    requires body <= blocks.Keys
  {
    n in Reached(P, blocks, body) && n !in Scanned(P, blocks, body)
  }

  ghost predicate CodeScanned(P: Program, blocks: map<Label, Block>, body: set<Label>, code: seq<Instr>)
    requires body <= blocks.Keys
  {
    || (exists l | l in body :: blocks[l].instrs == code)
    || (exists n | n in Scanned(P, blocks, body) :: exists l | l in P[n].blocks :: P[n].blocks[l].instrs == code)
  }

  /** A load or store of this code has just this pointer. */
  ghost predicate Names(code: seq<Instr>, v: Pointer) {
    exists i | i in code :: (i.Load? && i.ptr == v) || (i.Store? && i.ptr == v)
  }

  ghost predicate NamedByLoop(blocks: map<Label, Block>, body: set<Label>, v: Pointer)
    requires body <= blocks.Keys
  {
    exists l | l in body :: Names(blocks[l].instrs, v)
  }

  ghost predicate NamedByFunction(P: Program, n: string, v: Pointer) {
    IsDefined(P, n) && exists l | l in P[n].blocks :: Names(P[n].blocks[l].instrs, v)
  }

  ghost predicate NamedByScanned(P: Program, blocks: map<Label, Block>, body: set<Label>, v: Pointer)
    requires body <= blocks.Keys
  {
    exists n | n in Scanned(P, blocks, body) :: NamedByFunction(P, n, v)
  }

  /**
   What the loop uses: the stack slots and globals that its own loads and stores name, and the globals
   that those of the functions looked into name. The slots of these functions are none of its business.
   */
  ghost predicate IsUsed(P: Program, blocks: map<Label, Block>, body: set<Label>, v: Pointer)
    requires body <= blocks.Keys
  {
    || ((v.Alloca? || v.Global?) && NamedByLoop(blocks, body, v))
    || (v.Global? && NamedByScanned(P, blocks, body, v))
  }

  /** Whatever is recorded inside a function is a global named at the end of some call path from it. */
  lemma {:induction false} RecordedIsNamed(P: Program, name: string, stack: seq<string>, v: Pointer)
    returns (p: seq<string>)
    requires v in FunctionUses(P, name, stack)
    ensures Path(P, p) && p[0] == name && v.Global? && NamedByFunction(P, Last(p), v)
    decreases P.Keys - Elems(stack)
  {
    var inner := stack + [name];
    assert Elems(inner) == Elems(stack) + {name};
    assert name in P.Keys - Elems(stack) && name !in P.Keys - Elems(inner);
    var l :| l in P[name].blocks && v in CodeUses(P, P[name].blocks[l].instrs, inner);
    var code := P[name].blocks[l].instrs;
    var i :| i in code && v in InstrUses(P, i, inner);
    if i.Call? {
      var q := RecordedIsNamed(P, i.callee.value, inner, v);
      assert CallsFrom(code, q[0]) && Calls(P, name, q[0]);
      PathCons(P, name, q);
      p := [name] + q;
    } else {
      assert Names(code, v);
      p := [name];
    }
  }

  lemma LoopNameRecorded(P: Program, blocks: map<Label, Block>, body: set<Label>, v: Pointer)
    requires body <= blocks.Keys && (v.Alloca? || v.Global?) && NamedByLoop(blocks, body, v)
    ensures v in LoopUses(P, blocks, body)
  {
    var l :| l in body && Names(blocks[l].instrs, v);
    var i :| i in blocks[l].instrs && ((i.Load? && i.ptr == v) || (i.Store? && i.ptr == v));
    assert v in InstrUses(P, i, []) && v in CodeUses(P, blocks[l].instrs, []);
  }

  lemma ScannedNameRecorded(P: Program, blocks: map<Label, Block>, body: set<Label>, v: Pointer)
    requires body <= blocks.Keys && LoopAccepted(P, blocks, body) && v.Global? && NamedByScanned(P, blocks, body, v)
    ensures v in LoopUses(P, blocks, body)
  {
    var n :| n in Scanned(P, blocks, body) && NamedByFunction(P, n, v);
    var p :| LoopPath(P, blocks, body, p) && IsDefined(P, Last(p)) && n == Last(p);
    LoopPathAccepted(P, blocks, body, p);
    var l :| l in P[n].blocks && Names(P[n].blocks[l].instrs, v);
    var code, inner := P[n].blocks[l].instrs, Front(p) + [n];
    var i :| i in code && ((i.Load? && i.ptr == v) || (i.Store? && i.ptr == v));
    assert v in InstrUses(P, i, inner) && v in CodeUses(P, code, inner);
    assert FunctionUses(P, n, Front(p)) == BlocksUses(P, P[n].blocks, P[n].blocks.Keys, inner);
    assert v in FunctionUses(P, n, Front(p));
  }

  lemma LoopRecordIsUsed(P: Program, blocks: map<Label, Block>, body: set<Label>, v: Pointer)
    requires body <= blocks.Keys && v in LoopUses(P, blocks, body)
    ensures IsUsed(P, blocks, body, v)
  {
    var l :| l in body && v in CodeUses(P, blocks[l].instrs, []);
    var code := blocks[l].instrs;
    var i :| i in code && v in InstrUses(P, i, []);
    if i.Call? {
      var p := RecordedIsNamed(P, i.callee.value, [], v);
      assert CallsFrom(code, p[0]) && LoopPath(P, blocks, body, p);
      assert Last(p) in Scanned(P, blocks, body);
    } else {
      assert Names(code, v);
    }
  }

  /** The variables that the scan of an accepted loop records are exactly those it uses. */
  lemma LoopUsesExactly(P: Program, blocks: map<Label, Block>, body: set<Label>, v: Pointer)
    requires body <= blocks.Keys && LoopAccepted(P, blocks, body)
    ensures v in LoopUses(P, blocks, body) <==> IsUsed(P, blocks, body, v)
  {
    if v in LoopUses(P, blocks, body) {
      LoopRecordIsUsed(P, blocks, body, v);
    }
    if (v.Alloca? || v.Global?) && NamedByLoop(blocks, body, v) {
      LoopNameRecorded(P, blocks, body, v);
    }
    if v.Global? && NamedByScanned(P, blocks, body, v) {
      ScannedNameRecorded(P, blocks, body, v);
    }
  }

  function Slots(used: set<Pointer>): set<nat> {
    set v | v in used && v.Alloca? :: v.slot
  }

  function Globals(used: set<Pointer>): set<nat> {
    set v | v in used && v.Global? :: v.id
  }

  predicate PointerSound(used: set<Pointer>, p: Pointer) {
    p.ConstAddress? && p.base.Some? ==> p.base.value in Globals(used)
  }

  /**
   What the check takes for granted about an instruction: a constant address does not point into an
   untracked global, and the monitor is not called yet.
   */
  predicate InstrSound(used: set<Pointer>, i: Instr) {
    match i
    case Load(_, p) => PointerSound(used, p)
    case Store(p, _) => PointerSound(used, p)
    case Call(_, callee, _) => callee.Some? ==> !IsMonitorCall(callee.value)
    case _ => true
  }

  predicate OwnSlots(allocas: set<nat>, i: Instr) {
    match i
    case Load(_, p) => p.Alloca? ==> p.slot in allocas
    case Store(p, _) => p.Alloca? ==> p.slot in allocas
    case _ => true
  }

  /** A function names only its own stack slots. */
  ghost predicate WellFormed(P: Program) {
    forall n | n in P && P[n].Defined? ::
      forall l | l in P[n].blocks :: forall i | i in P[n].blocks[l].instrs :: OwnSlots(P[n].allocas, i)
  }

  /**
   The assumptions of the check, which it does not verify itself: on code it looks at, and on the
   functions the loop reaches without a look, which may name only tracked globals and their own slots.
   */
  ghost predicate Assumed(P: Program, blocks: map<Label, Block>, body: set<Label>)
    requires body <= blocks.Keys
  {
    && WellFormed(P)
    && (forall code | CodeScanned(P, blocks, body, code) ::
          forall i | i in code :: InstrSound(LoopUses(P, blocks, body), i))
    && (forall n, l | Unscanned(P, blocks, body, n) && l in P[n].blocks ::
          CodeNamed(P, Reached(P, blocks, body), P[n].allocas, Globals(LoopUses(P, blocks, body)),
                    P[n].blocks[l].instrs))
  }

  /** A call from the end of a call path leads to one that is longer. */
  lemma ChainGrows(P: Program, blocks: map<Label, Block>, body: set<Label>, p: seq<string>, callee: string)
    requires body <= blocks.Keys && LoopChain(P, blocks, body, p) && Calls(P, Last(p), callee)
    ensures LoopChain(P, blocks, body, p + [callee]) && Last(p + [callee]) == callee
  {
    var q := p + [callee];
    forall k | 0 <= k < |q| - 1 ensures Calls(P, q[k], q[k + 1]) {
      assert k < |p| - 1 ==> Calls(P, p[k], p[k + 1]);
    }
    assert q[0] == p[0];
  }

  lemma ScannedCode(P: Program, blocks: map<Label, Block>, body: set<Label>, n: string, l: Label)
    requires body <= blocks.Keys && LoopAccepted(P, blocks, body) && Assumed(P, blocks, body)
    requires n in Scanned(P, blocks, body) && l in P[n].blocks
    ensures CodeNamed(P, Reached(P, blocks, body), P[n].allocas, Globals(LoopUses(P, blocks, body)),
                      P[n].blocks[l].instrs)
  {
    var fns, used, code := Reached(P, blocks, body), LoopUses(P, blocks, body), P[n].blocks[l].instrs;
    var p :| LoopPath(P, blocks, body, p) && IsDefined(P, Last(p)) && n == Last(p);
    LoopPathAccepted(P, blocks, body, p);
    assert CodeScanned(P, blocks, body, code);
    assert LoopChain(P, blocks, body, p);
    assert CodeAccepted(P, code, Front(p) + [n]);
    forall i | i in code ensures InstrNamed(P, fns, P[n].allocas, Globals(used), i) {
      assert InstrAccepted(P, i, Front(p) + [n]) && InstrSound(used, i) && OwnSlots(P[n].allocas, i);
      assert InstrUses(P, i, Front(p) + [n]) <= CodeUses(P, code, Front(p) + [n]);
      assert CodeUses(P, code, Front(p) + [n]) <= FunctionUses(P, n, Front(p)) <= used;
      match i {
        case Load(_, q) =>
          if q.Global? { assert q in used; }
        case Store(q, _) =>
          if q.Global? { assert q in used; }
        case Call(_, callee, _) =>
          if IsDefined(P, callee.value) {
            assert CallsFrom(code, callee.value) && Calls(P, n, callee.value);
            ChainGrows(P, blocks, body, p, callee.value);
          }
        case _ =>
      }
    }
  }

  /** An accepted loop is named code, closed under the calls it can make. */
  lemma AcceptedIsNamed(P: Program, blocks: map<Label, Block>, body: set<Label>)
    requires body <= blocks.Keys && LoopAccepted(P, blocks, body) && Assumed(P, blocks, body)
    ensures Closed(P, Reached(P, blocks, body), Globals(LoopUses(P, blocks, body)))
    ensures forall l | l in body ::
              CodeNamed(P, Reached(P, blocks, body), Slots(LoopUses(P, blocks, body)),
                        Globals(LoopUses(P, blocks, body)), blocks[l].instrs)
  {
    var fns, used := Reached(P, blocks, body), LoopUses(P, blocks, body);
    forall n, l | n in fns && l in P[n].blocks
      ensures CodeNamed(P, fns, P[n].allocas, Globals(used), P[n].blocks[l].instrs)
    {
      if n in Scanned(P, blocks, body) {
        ScannedCode(P, blocks, body, n, l);
      } else {
        assert Unscanned(P, blocks, body, n);
      }
    }
    forall l, i | l in body && i in blocks[l].instrs
      ensures InstrNamed(P, fns, Slots(used), Globals(used), i)
    {
      var code := blocks[l].instrs;
      assert CodeAccepted(P, code, []) && InstrAccepted(P, i, []);
      assert CodeScanned(P, blocks, body, code) && InstrSound(used, i);
      assert InstrUses(P, i, []) <= CodeUses(P, code, []) <= used;
      match i {
        case Load(_, q) =>
          if q.Global? || q.Alloca? { assert q in used; }
        case Store(q, _) =>
          if q.Global? || q.Alloca? { assert q in used; }
        case Call(_, callee, _) =>
          if IsDefined(P, callee.value) {
            var q := [callee.value];
            assert CallsFrom(code, q[0]) && LoopChain(P, blocks, body, q) && Last(q) == callee.value;
          }
        case _ =>
      }
    }
  }

  /** The function that holds an accepted loop cannot be reached from it by calls that the check follows. */
  lemma OwnFunctionNotReached(P: Program, name: string, body: set<Label>)
    requires IsDefined(P, name) && body <= P[name].blocks.Keys
    requires LoopAccepted(P, P[name].blocks, body)
    ensures name !in Scanned(P, P[name].blocks, body)
  {
    var blocks := P[name].blocks;
    forall p | LoopPath(P, blocks, body, p) && Last(p) == name ensures false {
      var l :| l in body && CallsFrom(blocks[l].instrs, p[0]);
      assert Calls(P, name, p[0]);
      var q := p + [p[0]];
      forall k | 0 <= k < |q| - 1 ensures Calls(P, q[k], q[k + 1]) {
        assert k < |p| - 1 ==> Calls(P, p[k], p[k + 1]);
      }
      assert LoopPath(P, blocks, body, q) by {
        assert Path(P, q) && q[0] == p[0];
      }
      assert Front(q) == p && Last(q) == p[0] && p[0] in [] + p;
      LoopPathAccepted(P, blocks, body, q);
    }
  }
}
