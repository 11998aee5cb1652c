/**
 RemoveConstantExprs (transforms/RemoveConstantExprs.cpp): constant expressions in operands become
 instructions in front of the instruction that uses them, one at a time, from a worklist. The cast
 of a called function is left in place.

 The pass has an inverse. If every instruction it added is dropped, and every use of one is replaced
 by the constant expression it was made from, the original function is back; with that, running the
 two functions side by side is an induction over one block.
 */
module RemoveConstantExprs {
  import opened Common
  import opened Runs

  /** A constant is uniqued, so that equal constants are the same object. */
  datatype Constant = Atom(n: nat) | Expr(op: nat, args: seq<Constant>)

  datatype Operand = Const(c: Constant) | Value(id: nat)

  /** An operation without effect can also be written as a constant expression. */
  datatype Opcode = Pure(op: nat) | Other(op: nat)

  datatype Inst = Inst(id: nat, code: Opcode, operands: seq<Operand>, isCall: bool)

  type Blocks = seq<seq<Inst>>

  /** The function a call calls is its last operand. */
  predicate CallsConstant(i: Inst, ce: Constant) {
    i.isCall && i.operands != [] && i.operands[|i.operands| - 1] == Const(ce)
  }

  function FirstExpr(operands: seq<Operand>): Option<Constant> {
    if operands == [] then None
    else if operands[0].Const? && operands[0].c.Expr? then Some(operands[0].c)
    else FirstExpr(operands[1..])
  }

  /** Nothing is left to do: no constant expression, or the first one is the called function. */
  predicate Settled(i: Inst) {
    FirstExpr(i.operands).None? || CallsConstant(i, FirstExpr(i.operands).value)
  }

  predicate AllSettled(blocks: Blocks) {
    forall b | 0 <= b < |blocks| :: forall k | 0 <= k < |blocks[b]| :: Settled(blocks[b][k])
  }

  predicate InBlocks(blocks: Blocks, b: int, k: int) {
    0 <= b < |blocks| && 0 <= k < |blocks[b]|
  }

  /** No two instructions are the same one. */
  ghost predicate Distinct(blocks: Blocks) {
    forall b, k, c, l | InBlocks(blocks, b, k) && InBlocks(blocks, c, l) && blocks[b][k].id == blocks[c][l].id ::
      b == c && k == l
  }

  predicate Below(i: Inst, n: nat) {
    i.id < n && forall o | o in i.operands :: o.Value? ==> o.id < n
  }

  predicate CodeBelow(code: seq<Inst>, n: nat) {
    forall i | i in code :: Below(i, n)
  }

  predicate AllBelow(blocks: Blocks, n: nat) {
    forall code | code in blocks :: CodeBelow(code, n)
  }

  // ----- What running a function means ---------------------------------------------------------

  datatype Next = Fall | Goto(block: nat) | Finish

  datatype Effect<V, M> = Effect(value: V, mem: M, next: Next)

  /** The meaning of constants, of pure operations, and of everything else. */
  datatype Sem<!V, !M, !I> = Sem(
    atom: nat -> V,
    apply: (nat, seq<V>) -> V,
    effect: (nat, seq<V>, M, I) -> Effect<V, M>,
    unset: V)

  type Env<V> = map<nat, V>

  function Eval<V, M, I>(sem: Sem<V, M, I>, c: Constant): V
    decreases c
  {
    match c
    case Atom(n) => sem.atom(n)
    case Expr(op, args) => sem.apply(op, seq(|args|, k requires 0 <= k < |args| => Eval(sem, args[k])))
  }

  function Look<V, M, I>(sem: Sem<V, M, I>, env: Env<V>, o: Operand): V {
    match o
    case Const(c) => Eval(sem, c)
    case Value(v) => if v in env then env[v] else sem.unset
  }

  function LookAll<V, M, I>(sem: Sem<V, M, I>, env: Env<V>, os: seq<Operand>): seq<V> {
    seq(|os|, k requires 0 <= k < |os| => Look(sem, env, os[k]))
  }

  function Perform<V, M, I>(sem: Sem<V, M, I>, i: Inst, vals: seq<V>, mem: M, input: I): Effect<V, M> {
    match i.code
    case Pure(op) => Effect(sem.apply(op, vals), mem, Fall)
    case Other(op) => sem.effect(op, vals, mem, input)
  }

  datatype State<V, M> = State(env: Env<V>, mem: M, next: Next)

  function Exec<V, M, I>(sem: Sem<V, M, I>, code: seq<Inst>, env: Env<V>, mem: M, input: I): State<V, M>
    decreases |code|
  {
    if code == [] then State(env, mem, Fall)
    else
      var e := Perform(sem, code[0], LookAll(sem, env, code[0].operands), mem, input);
      var after := env[code[0].id := e.value];
      if e.next.Fall? then Exec(sem, code[1..], after, e.mem, input) else State(after, e.mem, e.next)
  }

  /** One block; a function that has stopped stays where it is. */
  function Step<V, M, I>(sem: Sem<V, M, I>, blocks: Blocks, s: State<V, M>, input: I): State<V, M> {
    if s.next.Goto? && s.next.block < |blocks| then Exec(sem, blocks[s.next.block], s.env, s.mem, input) else s
  }

  function Stepper<V, M, I>(sem: Sem<V, M, I>, blocks: Blocks): (State<V, M>, I) -> State<V, M> {
    (s, input) => Step(sem, blocks, s, input)
  }

  // ----- The inverse ---------------------------------------------------------------------------

  /** Which constant expression each added instruction was made from. */
  type Origin = map<nat, Constant>

  function FoldedOperand(m: Origin, o: Operand): Operand {
    if o.Value? && o.id in m then Const(m[o.id]) else o
  }

  function Folded(m: Origin, os: seq<Operand>): seq<Operand> {
    seq(|os|, k requires 0 <= k < |os| => FoldedOperand(m, os[k]))
  }

  /** The code without the added instructions, and with the constant expressions back in place. */
  function Erase(m: Origin, code: seq<Inst>): seq<Inst>
    decreases |code|
  {
    if code == [] then []
    else (if code[0].id in m then [] else [code[0].(operands := Folded(m, code[0].operands))])
         + Erase(m, code[1..])
  }

  function EraseAll(m: Origin, blocks: Blocks): Blocks {
    seq(|blocks|, b requires 0 <= b < |blocks| => Erase(m, blocks[b]))
  }

  function AsOperands(args: seq<Constant>): seq<Operand> {
    seq(|args|, k requires 0 <= k < |args| => Const(args[k]))
  }

  /** An added instruction computes the constant expression it was made from. */
  predicate MadeFrom(m: Origin, i: Inst) {
    i.id in m ==>
      && m[i.id].Expr? && i.code == Pure(m[i.id].op) && !i.isCall
      && Folded(m, i.operands) == AsOperands(m[i.id].args)
  }

  /** What an instruction uses of the added instructions has been computed in the same block. */
  predicate UsesKnown(m: Origin, i: Inst, known: set<nat>) {
    forall o | o in i.operands :: o.Value? && o.id in m ==> o.id in known
  }

  predicate Ordered(m: Origin, code: seq<Inst>, known: set<nat>)
    decreases |code|
  {
    code == [] || (MadeFrom(m, code[0]) && UsesKnown(m, code[0], known)
                   && Ordered(m, code[1..], known + {code[0].id}))
  }

  predicate AllOrdered(m: Origin, blocks: Blocks) {
    forall code | code in blocks :: Ordered(m, code, {})
  }

  /** Dropping the added instructions gives back the function the pass was given. */
  ghost predicate Undoes(m: Origin, blocks: Blocks, was: Blocks) {
    EraseAll(m, blocks) == was && AllOrdered(m, blocks)
  }

  /** Equal as far as the original function can see. */
  ghost predicate Agree<V>(m: Origin, e: Env<V>, f: Env<V>) {
    forall v | v !in m :: (v in e <==> v in f) && (v in e ==> e[v] == f[v])
  }

  ghost predicate Same<V, M>(m: Origin, s: State<V, M>, t: State<V, M>) {
    Agree(m, s.env, t.env) && s.mem == t.mem && s.next == t.next
  }

  ghost predicate Computed<V, M, I>(sem: Sem<V, M, I>, m: Origin, env: Env<V>, known: set<nat>) {
    forall v | v in known && v in m :: v in env && env[v] == Eval(sem, m[v])
  }

  // ----- Running the new function is running the old one ---------------------------------------

  lemma FoldedValues<V, M, I>(sem: Sem<V, M, I>, m: Origin, i: Inst, known: set<nat>, e: Env<V>, f: Env<V>)
    requires UsesKnown(m, i, known) && Computed(sem, m, e, known) && Agree(m, e, f)
    ensures LookAll(sem, e, i.operands) == LookAll(sem, f, Folded(m, i.operands))
  {
    forall k | 0 <= k < |i.operands|
      ensures Look(sem, e, i.operands[k]) == Look(sem, f, Folded(m, i.operands)[k])
    {
      assert i.operands[k] in i.operands;
    }
  }

  /** The value of an added instruction is the value of its constant expression. */
  lemma AddedValue<V, M, I>(sem: Sem<V, M, I>, m: Origin, i: Inst, known: set<nat>, e: Env<V>, mem: M, input: I)
    requires i.id in m && MadeFrom(m, i) && UsesKnown(m, i, known) && Computed(sem, m, e, known)
    ensures Perform(sem, i, LookAll(sem, e, i.operands), mem, input) == Effect(Eval(sem, m[i.id]), mem, Fall)
  {
    FoldedValues(sem, m, i, known, e, e);
    var args := m[i.id].args;
    assert LookAll(sem, e, AsOperands(args)) == seq(|args|, k requires 0 <= k < |args| => Eval(sem, args[k]));
  }

  lemma {:induction false} BlockErased<V, M, I>(sem: Sem<V, M, I>, m: Origin, code: seq<Inst>, known: set<nat>,
                                                e: Env<V>, f: Env<V>, mem: M, input: I)
    requires Ordered(m, code, known) && Computed(sem, m, e, known) && Agree(m, e, f)
    ensures Same(m, Exec(sem, code, e, mem, input), Exec(sem, Erase(m, code), f, mem, input))
    decreases |code|
  {
    if code != [] {
      var i, rest := code[0], Erase(m, code[1..]);
      FoldedValues(sem, m, i, known, e, f);
      var r := Perform(sem, i, LookAll(sem, e, i.operands), mem, input);
      if i.id in m {
        AddedValue(sem, m, i, known, e, mem, input);
        assert [] + rest == rest;
        BlockErased(sem, m, code[1..], known + {i.id}, e[i.id := r.value], f, r.mem, input);
      } else {
        assert Erase(m, code)[1..] == rest;
        if r.next.Fall? {
          BlockErased(sem, m, code[1..], known + {i.id}, e[i.id := r.value], f[i.id := r.value], r.mem, input);
        }
      }
    }
  }

  lemma {:induction false} ErasedRunAgrees<V, M, I>(sem: Sem<V, M, I>, m: Origin, blocks: Blocks,
                                                    s: State<V, M>, t: State<V, M>, ins: seq<I>)
    requires AllOrdered(m, blocks) && Same(m, s, t)
    ensures Same(m, Run(Stepper(sem, blocks), s, ins), Run(Stepper(sem, EraseAll(m, blocks)), t, ins))
    decreases |ins|
  {
    if ins != [] {
      if s.next.Goto? && s.next.block < |blocks| {
        BlockErased(sem, m, blocks[s.next.block], {}, s.env, t.env, s.mem, ins[0]);
      }
      ErasedRunAgrees(sem, m, blocks, Step(sem, blocks, s, ins[0]), Step(sem, EraseAll(m, blocks), t, ins[0]),
                      ins[1..]);
    }
  }

  /** The pass cannot be observed: memory, the way taken and all original values stay the same. */
  lemma RemovalUnobservable<V, M, I>(sem: Sem<V, M, I>, m: Origin, now: Blocks, was: Blocks,
                                     s: State<V, M>, ins: seq<I>)
    requires Undoes(m, now, was)
    ensures Same(m, Run(Stepper(sem, now), s, ins), Run(Stepper(sem, was), s, ins))
  {
    ErasedRunAgrees(sem, m, now, s, s, ins);
  }

  // ----- One replacement -----------------------------------------------------------------------

  /** The operands after one constant expression has been replaced by an instruction. */
  function Replaced(os: seq<Operand>, ce: Constant, n: nat): seq<Operand> {
    seq(|os|, k requires 0 <= k < |os| => if os[k] == Const(ce) then Value(n) else os[k])
  }

  function Made(ce: Constant, n: nat): Inst
    requires ce.Expr?
  {
    Inst(n, Pure(ce.op), AsOperands(ce.args), false)
  }

  function Using(i: Inst, ce: Constant, n: nat): Inst {
    i.(operands := Replaced(i.operands, ce, n))
  }

  /** The instruction made from `ce` stands right in front of the one that used `ce`. */
  function Lowered(code: seq<Inst>, k: nat, ce: Constant, n: nat): (r: seq<Inst>)
    requires k < |code| && ce.Expr?
    ensures |r| == |code| + 1
  {
    code[..k] + [Made(ce, n), Using(code[k], ce, n)] + code[k + 1..]
  }

  lemma Split(code: seq<Inst>, k: nat, ce: Constant, n: nat)
    requires k < |code| && ce.Expr?
    ensures code == code[..k] + ([code[k]] + code[k + 1..])
    ensures Lowered(code, k, ce, n) == code[..k] + ([Made(ce, n)] + ([Using(code[k], ce, n)] + code[k + 1..]))
  {
  }

  lemma FoldedReplaced(m: Origin, os: seq<Operand>, ce: Constant, n: nat)
    requires forall o | o in os :: o.Value? ==> o.id != n
    ensures Folded(m[n := ce], Replaced(os, ce, n)) == Folded(m, os)
    ensures Folded(m[n := ce], os) == Folded(m, os)
  {
    forall k | 0 <= k < |os|
      ensures FoldedOperand(m[n := ce], Replaced(os, ce, n)[k]) == FoldedOperand(m, os[k])
      ensures FoldedOperand(m[n := ce], os[k]) == FoldedOperand(m, os[k])
    {
      assert os[k] in os;
    }
  }

  lemma {:induction false} EraseAppend(m: Origin, a: seq<Inst>, c: seq<Inst>)
    ensures Erase(m, a + c) == Erase(m, a) + Erase(m, c)
    decreases |a|
  {
    if a == [] {
      assert a + c == c;
    } else {
      assert (a + c)[1..] == a[1..] + c;
      EraseAppend(m, a[1..], c);
    }
  }

  lemma {:induction false} EraseUntouched(m: Origin, code: seq<Inst>, ce: Constant, n: nat)
    requires CodeBelow(code, n)
    ensures Erase(m[n := ce], code) == Erase(m, code)
    decreases |code|
  {
    if code != [] {
      assert code[0] in code;
      FoldedReplaced(m, code[0].operands, ce, n);
      EraseUntouched(m, code[1..], ce, n);
    }
  }

  lemma EraseLowered(m: Origin, code: seq<Inst>, k: nat, ce: Constant, n: nat)
    requires k < |code| && ce.Expr? && CodeBelow(code, n)
    ensures Erase(m[n := ce], Lowered(code, k, ce, n)) == Erase(m, code)
  {
    var m', pre, post, i := m[n := ce], code[..k], code[k + 1..], code[k];
    var made, used := Made(ce, n), Using(i, ce, n);
    assert i in code;
    FoldedReplaced(m, i.operands, ce, n);
    EraseUntouched(m, pre, ce, n);
    EraseUntouched(m, post, ce, n);
    assert code == pre + ([i] + post);
    EraseAppend(m, pre, [i] + post);
    assert ([i] + post)[1..] == post;
    assert Lowered(code, k, ce, n) == pre + ([made, used] + post);
    EraseAppend(m', pre, [made, used] + post);
    assert ([made, used] + post)[1..] == [used] + post;
    assert ([used] + post)[1..] == post;
    assert Erase(m', [made, used] + post) == Erase(m', [used] + post);
  }

  function Ids(code: seq<Inst>): set<nat> {
    set i | i in code :: i.id
  }

  lemma {:induction false} OrderedAppend(m: Origin, a: seq<Inst>, c: seq<Inst>, known: set<nat>)
    ensures Ordered(m, a + c, known) <==> Ordered(m, a, known) && Ordered(m, c, known + Ids(a))
    decreases |a|
  {
    if a == [] {
      assert a + c == c && known + Ids(a) == known;
    } else {
      assert (a + c)[0] == a[0] && (a + c)[1..] == a[1..] + c;
      assert known + Ids(a) == known + {a[0].id} + Ids(a[1..]) by {
        assert a == [a[0]] + a[1..];
      }
      OrderedAppend(m, a[1..], c, known + {a[0].id});
    }
  }

  lemma {:induction false} OrderedUntouched(m: Origin, code: seq<Inst>, known: set<nat>, more: set<nat>, ce: Constant,
                                            n: nat)
    requires CodeBelow(code, n) && Ordered(m, code, known) && known <= more
    ensures Ordered(m[n := ce], code, more)
    decreases |code|
  {
    if code != [] {
      assert code[0] in code;
      FoldedReplaced(m, code[0].operands, ce, n);
      OrderedUntouched(m, code[1..], known + {code[0].id}, more + {code[0].id}, ce, n);
    }
  }

  lemma OrderedCons(m: Origin, i: Inst, rest: seq<Inst>, known: set<nat>)
    ensures Ordered(m, [i] + rest, known) <==>
            MadeFrom(m, i) && UsesKnown(m, i, known) && Ordered(m, rest, known + {i.id})
  {
    assert ([i] + rest)[1..] == rest;
  }

  /** The two new instructions are in order if the old one was. */
  lemma OrderedPair(m: Origin, i: Inst, ce: Constant, n: nat, known: set<nat>)
    requires ce.Expr? && Below(i, n) && MadeFrom(m, i) && UsesKnown(m, i, known)
    ensures MadeFrom(m[n := ce], Made(ce, n)) && UsesKnown(m[n := ce], Made(ce, n), known)
    ensures MadeFrom(m[n := ce], Using(i, ce, n)) && UsesKnown(m[n := ce], Using(i, ce, n), known + {n})
  {
    FoldedReplaced(m, i.operands, ce, n);
    var os := AsOperands(ce.args);
    assert Folded(m[n := ce], os) == os;
    forall o | o in Using(i, ce, n).operands && o.Value? && o.id in m[n := ce] ensures o.id in known + {n} {
      var k :| 0 <= k < |i.operands| && Using(i, ce, n).operands[k] == o;
      assert i.operands[k] in i.operands;
    }
  }

  lemma OrderedMiddle(m: Origin, i: Inst, ce: Constant, n: nat, post: seq<Inst>, known: set<nat>)
    requires ce.Expr? && Below(i, n) && CodeBelow(post, n) && Ordered(m, [i] + post, known)
    ensures Ordered(m[n := ce], [Made(ce, n)] + ([Using(i, ce, n)] + post), known)
  {
    var m', made, used := m[n := ce], Made(ce, n), Using(i, ce, n);
    OrderedCons(m, i, post, known);
    OrderedPair(m, i, ce, n, known);
    OrderedUntouched(m, post, known + {i.id}, known + {n} + {i.id}, ce, n);
    OrderedCons(m', used, post, known + {n});
    OrderedCons(m', made, [used] + post, known);
  }

  lemma OrderedLowered(m: Origin, code: seq<Inst>, k: nat, ce: Constant, n: nat)
    requires k < |code| && ce.Expr? && CodeBelow(code, n) && Ordered(m, code, {})
    ensures Ordered(m[n := ce], Lowered(code, k, ce, n), {})
  {
    var pre, post, i := code[..k], code[k + 1..], code[k];
    var tail := [Made(ce, n)] + ([Using(i, ce, n)] + post);
    assert i in code;
    Split(code, k, ce, n);
    OrderedAppend(m, pre, [i] + post, {});
    OrderedMiddle(m, i, ce, n, post, {} + Ids(pre));
    OrderedUntouched(m, pre, {}, {}, ce, n);
    OrderedAppend(m[n := ce], pre, tail, {});
  }

  lemma BelowLowered(code: seq<Inst>, k: nat, ce: Constant, n: nat)
    requires k < |code| && ce.Expr? && CodeBelow(code, n)
    ensures CodeBelow(Lowered(code, k, ce, n), n + 1)
  {
    assert code[k] in code;
    forall o | o in Using(code[k], ce, n).operands && o.Value? ensures o.id < n + 1 {
      var j :| 0 <= j < |code[k].operands| && Using(code[k], ce, n).operands[j] == o;
      assert code[k].operands[j] in code[k].operands;
    }
    forall i | i in Lowered(code, k, ce, n) ensures Below(i, n + 1) {
      assert i in code || i == Made(ce, n) || i == Using(code[k], ce, n);
    }
  }

  // ----- The constant expressions left to replace ----------------------------------------------

  function Nodes(c: Constant): nat
    decreases c
  {
    match c
    case Atom(_) => 0
    case Expr(_, args) => 1 + NodesOf(args)
  }

  function NodesOf(cs: seq<Constant>): nat
    decreases cs
  {
    if cs == [] then 0 else Nodes(cs[0]) + NodesOf(cs[1..])
  }

  function OperandNodes(os: seq<Operand>): nat
    decreases |os|
  {
    if os == [] then 0 else (if os[0].Const? then Nodes(os[0].c) else 0) + OperandNodes(os[1..])
  }

  function CodeNodes(code: seq<Inst>): nat
    decreases |code|
  {
    if code == [] then 0 else OperandNodes(code[0].operands) + CodeNodes(code[1..])
  }

  function AllNodes(blocks: Blocks): nat
    decreases |blocks|
  {
    if blocks == [] then 0 else CodeNodes(blocks[0]) + AllNodes(blocks[1..])
  }

  lemma {:induction false} ReplacedNodes(os: seq<Operand>, ce: Constant, n: nat)
    ensures OperandNodes(Replaced(os, ce, n)) <= OperandNodes(os)
    ensures FirstExpr(os) == Some(ce) ==> OperandNodes(Replaced(os, ce, n)) + Nodes(ce) <= OperandNodes(os)
    decreases |os|
  {
    if os != [] {
      assert Replaced(os, ce, n)[1..] == Replaced(os[1..], ce, n);
      ReplacedNodes(os[1..], ce, n);
    }
  }

  lemma {:induction false} MadeNodes(args: seq<Constant>)
    ensures OperandNodes(AsOperands(args)) == NodesOf(args)
    decreases |args|
  {
    if args != [] {
      assert AsOperands(args)[1..] == AsOperands(args[1..]);
      MadeNodes(args[1..]);
    }
  }

  lemma {:induction false} CodeNodesAppend(a: seq<Inst>, c: seq<Inst>)
    ensures CodeNodes(a + c) == CodeNodes(a) + CodeNodes(c)
    decreases |a|
  {
    if a == [] {
      assert a + c == c;
    } else {
      assert (a + c)[1..] == a[1..] + c;
      CodeNodesAppend(a[1..], c);
    }
  }

  lemma CodeNodesCons(i: Inst, rest: seq<Inst>)
    ensures CodeNodes([i] + rest) == OperandNodes(i.operands) + CodeNodes(rest)
  {
    assert ([i] + rest)[1..] == rest;
  }

  lemma PairNodes(i: Inst, ce: Constant, n: nat)
    requires FirstExpr(i.operands) == Some(ce) && ce.Expr?
    ensures OperandNodes(Made(ce, n).operands) + OperandNodes(Using(i, ce, n).operands) < OperandNodes(i.operands)
  {
    ReplacedNodes(i.operands, ce, n);
    MadeNodes(ce.args);
  }

  lemma MiddleNodes(i: Inst, ce: Constant, n: nat, post: seq<Inst>)
    requires FirstExpr(i.operands) == Some(ce) && ce.Expr?
    ensures CodeNodes([Made(ce, n)] + ([Using(i, ce, n)] + post)) < CodeNodes([i] + post)
  {
    PairNodes(i, ce, n);
    CodeNodesCons(i, post);
    CodeNodesCons(Made(ce, n), [Using(i, ce, n)] + post);
    CodeNodesCons(Using(i, ce, n), post);
  }

  /** A constant expression is replaced by one node less than it had, however often it is used. */
  lemma LoweredNodes(code: seq<Inst>, k: nat, ce: Constant, n: nat)
    requires k < |code| && FirstExpr(code[k].operands) == Some(ce) && ce.Expr?
    ensures CodeNodes(Lowered(code, k, ce, n)) < CodeNodes(code)
  {
    var pre, post, i := code[..k], code[k + 1..], code[k];
    Split(code, k, ce, n);
    MiddleNodes(i, ce, n, post);
    CodeNodesAppend(pre, [i] + post);
    CodeNodesAppend(pre, [Made(ce, n)] + ([Using(i, ce, n)] + post));
  }

  lemma {:induction false} AllNodesUpdate(blocks: Blocks, b: nat, code: seq<Inst>)
    requires b < |blocks|
    ensures AllNodes(blocks[b := code]) + CodeNodes(blocks[b]) == AllNodes(blocks) + CodeNodes(code)
    decreases |blocks|
  {
    if b == 0 {
      assert blocks[b := code][1..] == blocks[1..];
    } else {
      assert blocks[b := code][1..] == blocks[1..][b - 1 := code];
      AllNodesUpdate(blocks[1..], b - 1, code);
    }
  }

  // ----- The worklist --------------------------------------------------------------------------

  type Work = set<(nat, Constant)>

  /** An instruction whose first constant expression is the one queued with it. */
  ghost predicate Queued(blocks: Blocks, p: (nat, Constant)) {
    exists b, k :: InBlocks(blocks, b, k) && blocks[b][k].id == p.0 && FirstExpr(blocks[b][k].operands) == Some(p.1)
  }

  ghost predicate Pending(blocks: Blocks, work: Work) {
    forall p | p in work :: Queued(blocks, p)
  }

  predicate Waits(i: Inst, work: Work) {
    var first := FirstExpr(i.operands);
    first.Some? && (i.id, first.value) in work
  }

  ghost predicate Covered(blocks: Blocks, work: Work) {
    forall b, k | InBlocks(blocks, b, k) :: Settled(blocks[b][k]) || Waits(blocks[b][k], work)
  }

  /** The worklist is right and complete. */
  ghost predicate Waiting(blocks: Blocks, work: Work) {
    Pending(blocks, work) && Covered(blocks, work)
  }

  /** Where an instruction is after an insertion at position `k` of block `b`. */
  function After(b: int, k: int, c: int, l: int): int {
    if c == b && l > k then l + 1 else l
  }

  function Before(b: int, k: int, c: int, l: int): int {
    if c == b && l > k then l - 1 else l
  }

  lemma MovedBack(blocks: Blocks, b: nat, k: nat, ce: Constant, n: nat, c: int, l: int)
    requires InBlocks(blocks, b, k) && ce.Expr?
    requires InBlocks(blocks[b := Lowered(blocks[b], k, ce, n)], c, l)
    requires c != b || l != k
    ensures InBlocks(blocks, c, Before(b, k, c, l))
    ensures var now := blocks[b := Lowered(blocks[b], k, ce, n)][c][l];
            now == if c == b && l == k + 1 then Using(blocks[b][k], ce, n) else blocks[c][Before(b, k, c, l)]
  {
  }

  lemma DistinctLowered(blocks: Blocks, b: nat, k: nat, ce: Constant, n: nat)
    requires InBlocks(blocks, b, k) && ce.Expr? && Distinct(blocks) && AllBelow(blocks, n)
    ensures Distinct(blocks[b := Lowered(blocks[b], k, ce, n)])
  {
    var now := blocks[b := Lowered(blocks[b], k, ce, n)];
    forall c, l | InBlocks(now, c, l) && (c != b || l != k)
      ensures InBlocks(blocks, c, Before(b, k, c, l)) && now[c][l].id == blocks[c][Before(b, k, c, l)].id < n
    {
      MovedBack(blocks, b, k, ce, n, c, l);
      assert blocks[c] in blocks && blocks[c][Before(b, k, c, l)] in blocks[c];
    }
    assert now[b][k].id == n;
  }

  lemma OthersStayQueued(blocks: Blocks, b: nat, k: nat, ce: Constant, n: nat, p: (nat, Constant))
    requires InBlocks(blocks, b, k) && ce.Expr? && Queued(blocks, p) && p.0 != blocks[b][k].id
    ensures Queued(blocks[b := Lowered(blocks[b], k, ce, n)], p)
  {
    var now := blocks[b := Lowered(blocks[b], k, ce, n)];
    var c, l :| InBlocks(blocks, c, l) && blocks[c][l].id == p.0 && FirstExpr(blocks[c][l].operands) == Some(p.1);
    assert InBlocks(now, c, After(b, k, c, l)) && now[c][After(b, k, c, l)] == blocks[c][l];
  }

  lemma PendingLowered(blocks: Blocks, b: nat, k: nat, ce: Constant, n: nat, work: Work)
    requires InBlocks(blocks, b, k) && ce.Expr? && Distinct(blocks) && Pending(blocks, work)
    requires FirstExpr(blocks[b][k].operands) == Some(ce)
    ensures Pending(blocks[b := Lowered(blocks[b], k, ce, n)], work - {(blocks[b][k].id, ce)})
  {
    forall p | p in work - {(blocks[b][k].id, ce)} ensures Queued(blocks[b := Lowered(blocks[b], k, ce, n)], p) {
      assert p.0 != blocks[b][k].id;
      OthersStayQueued(blocks, b, k, ce, n, p);
    }
  }

  lemma CoveredLowered(blocks: Blocks, b: nat, k: nat, ce: Constant, n: nat, work: Work, more: Work)
    requires InBlocks(blocks, b, k) && ce.Expr? && Distinct(blocks) && Covered(blocks, work)
    requires work - {(blocks[b][k].id, ce)} <= more
    requires Settled(Made(ce, n)) || Waits(Made(ce, n), more)
    requires Settled(Using(blocks[b][k], ce, n)) || Waits(Using(blocks[b][k], ce, n), more)
    ensures Covered(blocks[b := Lowered(blocks[b], k, ce, n)], more)
  {
    var now := blocks[b := Lowered(blocks[b], k, ce, n)];
    forall c, l | InBlocks(now, c, l) ensures Settled(now[c][l]) || Waits(now[c][l], more) {
      if c == b && l == k {
        assert now[c][l] == Made(ce, n);
      } else {
        MovedBack(blocks, b, k, ce, n, c, l);
        if !(c == b && l == k + 1) {
          assert InBlocks(blocks, c, Before(b, k, c, l));
          assert now[c][l].id != blocks[b][k].id;
        }
      }
    }
  }

  lemma {:induction false} NothingAdded(code: seq<Inst>, known: set<nat>)
    ensures Erase(map[], code) == code && Ordered(map[], code, known)
    decreases |code|
  {
    if code != [] {
      assert Folded(map[], code[0].operands) == code[0].operands;
      NothingAdded(code[1..], known + {code[0].id});
    }
  }

  lemma NothingAddedAnywhere(blocks: Blocks)
    ensures EraseAll(map[], blocks) == blocks && AllOrdered(map[], blocks)
  {
    forall code | code in blocks ensures Erase(map[], code) == code && Ordered(map[], code, {}) {
      NothingAdded(code, {});
    }
  }

  lemma {:induction false} FirstIsExpr(os: seq<Operand>)
    requires FirstExpr(os).Some?
    ensures FirstExpr(os).value.Expr?
    decreases |os|
  {
    if !(os[0].Const? && os[0].c.Expr?) {
      FirstIsExpr(os[1..]);
    }
  }

  predicate IsExpr(o: Operand) {
    o.Const? && o.c.Expr?
  }

  lemma {:induction false} FirstExprAt(os: seq<Operand>, k: nat)
    requires k < |os| && IsExpr(os[k])
    ensures exists j :: 0 <= j <= k && IsExpr(os[j]) && FirstExpr(os) == Some(os[j].c)
    decreases |os|
  {
    if IsExpr(os[0]) {
      assert FirstExpr(os) == Some(os[0].c);
    } else {
      FirstExprAt(os[1..], k - 1);
      var j :| 0 <= j <= k - 1 && IsExpr(os[1..][j]) && FirstExpr(os[1..]) == Some(os[1..][j].c);
      assert IsExpr(os[j + 1]) && FirstExpr(os) == Some(os[j + 1].c);
    }
  }

  /**
   What the pass leaves alone, said of the operands one by one: an instruction that is not a call has no
   constant expression, and a call has one only if the first one is also the called function.
   */
  ghost predicate Stays(i: Inst) {
    forall k | 0 <= k < |i.operands| && IsExpr(i.operands[k]) ::
      && i.isCall && IsExpr(i.operands[|i.operands| - 1])
      && exists j :: 0 <= j <= k && i.operands[j] == i.operands[|i.operands| - 1]
  }

  lemma {:induction false} FirstExprFound(os: seq<Operand>) returns (k: nat)
    requires FirstExpr(os).Some?
    ensures k < |os| && IsExpr(os[k]) && FirstExpr(os) == Some(os[k].c)
    ensures forall j | 0 <= j < k :: !IsExpr(os[j])
    decreases |os|
  {
    if IsExpr(os[0]) {
      k := 0;
    } else {
      var rest := FirstExprFound(os[1..]);
      k := rest + 1;
      assert forall j | 1 <= j < k :: os[j] == os[1..][j - 1];
    }
  }

  /** Nothing is left to do in an instruction exactly if it stays as it is. */
  lemma LeftInCalls(i: Inst)
    ensures Settled(i) <==> Stays(i)
  {
    if Settled(i) {
      forall k | 0 <= k < |i.operands| && IsExpr(i.operands[k])
        ensures i.isCall && IsExpr(i.operands[|i.operands| - 1])
        ensures exists j :: 0 <= j <= k && i.operands[j] == i.operands[|i.operands| - 1]
      {
        FirstExprAt(i.operands, k);
      }
    }
    if Stays(i) && FirstExpr(i.operands).Some? {
      var k := FirstExprFound(i.operands);
    }
  }

  ghost predicate AllStay(blocks: Blocks) {
    forall b, k | InBlocks(blocks, b, k) :: Stays(blocks[b][k])
  }

  lemma AllSettledStay(blocks: Blocks)
    ensures AllSettled(blocks) <==> AllStay(blocks)
  {
    forall b, k | InBlocks(blocks, b, k) ensures Settled(blocks[b][k]) <==> Stays(blocks[b][k]) {
      LeftInCalls(blocks[b][k]);
    }
    if AllStay(blocks) {
      forall b, k | 0 <= b < |blocks| && 0 <= k < |blocks[b]| ensures Settled(blocks[b][k]) {
        assert InBlocks(blocks, b, k);
      }
    }
  }

  /** An instruction that stays is still there, in its block and with its operands. */
  ghost predicate StillThere(now: Blocks, b: int, i: Inst) {
    exists k :: InBlocks(now, b, k) && now[b][k] == i
  }

  ghost predicate Kept(was: Blocks, now: Blocks) {
    forall b, k {:trigger StillThere(now, b, was[b][k])} | InBlocks(was, b, k) && Stays(was[b][k]) ::
      StillThere(now, b, was[b][k])
  }

  /** Every added instruction is an operand of some instruction. */
  ghost predicate Used(blocks: Blocks, v: nat) {
    exists b, k :: InBlocks(blocks, b, k) && Value(v) in blocks[b][k].operands
  }

  ghost predicate AllUsed(m: Origin, blocks: Blocks) {
    forall v {:trigger Used(blocks, v)} | v in m :: Used(blocks, v)
  }

  lemma KeptLowered(was: Blocks, blocks: Blocks, b: nat, k: nat, ce: Constant, n: nat)
    requires InBlocks(blocks, b, k) && ce.Expr? && Kept(was, blocks) && !Stays(blocks[b][k])
    ensures Kept(was, blocks[b := Lowered(blocks[b], k, ce, n)])
  {
    var now := blocks[b := Lowered(blocks[b], k, ce, n)];
    forall c, l | InBlocks(was, c, l) && Stays(was[c][l]) ensures StillThere(now, c, was[c][l]) {
      assert StillThere(blocks, c, was[c][l]);
      var at :| InBlocks(blocks, c, at) && blocks[c][at] == was[c][l];
      assert InBlocks(now, c, After(b, k, c, at)) && now[c][After(b, k, c, at)] == was[c][l];
    }
  }

  lemma ReplacedKeepsValues(os: seq<Operand>, ce: Constant, n: nat, v: nat)
    requires Value(v) in os
    ensures Value(v) in Replaced(os, ce, n)
  {
    var j :| 0 <= j < |os| && os[j] == Value(v);
    assert Replaced(os, ce, n)[j] == Value(v);
  }

  lemma UsedLowered(blocks: Blocks, b: nat, k: nat, ce: Constant, n: nat, v: nat)
    requires InBlocks(blocks, b, k) && ce.Expr? && Used(blocks, v)
    ensures Used(blocks[b := Lowered(blocks[b], k, ce, n)], v)
  {
    var now := blocks[b := Lowered(blocks[b], k, ce, n)];
    var c, l :| InBlocks(blocks, c, l) && Value(v) in blocks[c][l].operands;
    if c == b && l == k {
      ReplacedKeepsValues(blocks[b][k].operands, ce, n, v);
      assert InBlocks(now, b, k + 1) && now[b][k + 1] == Using(blocks[b][k], ce, n);
    } else {
      assert InBlocks(now, c, After(b, k, c, l)) && now[c][After(b, k, c, l)] == blocks[c][l];
    }
  }

  lemma AllUsedLowered(m: Origin, blocks: Blocks, b: nat, k: nat, ce: Constant, n: nat)
    requires InBlocks(blocks, b, k) && ce.Expr? && AllUsed(m, blocks) && Const(ce) in blocks[b][k].operands
    ensures AllUsed(m[n := ce], blocks[b := Lowered(blocks[b], k, ce, n)])
  {
    var now := blocks[b := Lowered(blocks[b], k, ce, n)];
    forall v | v in m[n := ce] ensures Used(now, v) {
      if v == n {
        var os := blocks[b][k].operands;
        var j :| 0 <= j < |os| && os[j] == Const(ce);
        assert Replaced(os, ce, n)[j] == Value(n);
        assert InBlocks(now, b, k + 1) && now[b][k + 1] == Using(blocks[b][k], ce, n);
      } else {
        UsedLowered(blocks, b, k, ce, n, v);
      }
    }
  }

  /** With an empty worklist the pass is done. */
  lemma NothingWaits(blocks: Blocks)
    requires Covered(blocks, {})
    ensures AllSettled(blocks) && AllStay(blocks)
  {
    forall b, k | 0 <= b < |blocks| && 0 <= k < |blocks[b]| ensures Settled(blocks[b][k]) {
      assert InBlocks(blocks, b, k);
    }
    AllSettledStay(blocks);
  }

  ghost predicate AllOf(code: seq<Inst>) {
    forall k | 0 <= k < |code| :: Stays(code[k])
  }

  /** The pass touches only what it has to: blocks where everything stays are as before. */
  ghost predicate OnlyNeeded(m: Origin, now: Blocks, was: Blocks) {
    && Kept(was, now) && AllUsed(m, now) && |now| == |was|
    && forall b {:trigger AllOf(was[b])} | 0 <= b < |was| && AllOf(was[b]) :: now[b] == was[b]
  }

  /** The original function can be recovered, and no more than needed has been done. */
  ghost predicate Accounted(m: Origin, now: Blocks, was: Blocks) {
    Undoes(m, now, was) && OnlyNeeded(m, now, was)
  }

  lemma NothingDone(blocks: Blocks)
    ensures Accounted(map[], blocks, blocks)
  {
    NothingAddedAnywhere(blocks);
    forall b, k | InBlocks(blocks, b, k) ensures StillThere(blocks, b, blocks[b][k]) {
    }
  }

  lemma OnlyNeededLowered(m: Origin, was: Blocks, blocks: Blocks, b: nat, k: nat, ce: Constant, n: nat)
    requires InBlocks(blocks, b, k) && FirstExpr(blocks[b][k].operands) == Some(ce) && ce.Expr?
    requires !Stays(blocks[b][k]) && OnlyNeeded(m, blocks, was)
    ensures OnlyNeeded(m[n := ce], blocks[b := Lowered(blocks[b], k, ce, n)], was)
  {
    var j := FirstExprFound(blocks[b][k].operands);
    assert blocks[b][k].operands[j] == Const(ce);
    KeptLowered(was, blocks, b, k, ce, n);
    AllUsedLowered(m, blocks, b, k, ce, n);
  }

  lemma Skipped(blocks: Blocks, b: nat, k: nat, work: Work)
    requires InBlocks(blocks, b, k) && Distinct(blocks) && Settled(blocks[b][k])
    requires FirstExpr(blocks[b][k].operands).Some?
    requires Covered(blocks, work)
    ensures Covered(blocks, work - {(blocks[b][k].id, FirstExpr(blocks[b][k].operands).value)})
  {
  }

  lemma LowerFacts(blocks: Blocks, b: nat, k: nat, ce: Constant, n: nat, m: Origin)
    requires Distinct(blocks) && AllBelow(blocks, n) && AllOrdered(m, blocks)
    requires InBlocks(blocks, b, k) && FirstExpr(blocks[b][k].operands) == Some(ce) && ce.Expr?
    ensures var now := blocks[b := Lowered(blocks[b], k, ce, n)];
            && Distinct(now) && AllBelow(now, n + 1) && AllOrdered(m[n := ce], now)
            && EraseAll(m[n := ce], now) == EraseAll(m, blocks)
            && AllNodes(now) < AllNodes(blocks)
  {
    var now := blocks[b := Lowered(blocks[b], k, ce, n)];
    DistinctLowered(blocks, b, k, ce, n);
    forall c | 0 <= c < |now|
      ensures CodeBelow(now[c], n + 1) && Ordered(m[n := ce], now[c], {})
      ensures Erase(m[n := ce], now[c]) == Erase(m, blocks[c])
    {
      assert blocks[c] in blocks;
      if c == b {
        BelowLowered(blocks[b], k, ce, n);
        OrderedLowered(m, blocks[b], k, ce, n);
        EraseLowered(m, blocks[b], k, ce, n);
      } else {
        OrderedUntouched(m, blocks[c], {}, {}, ce, n);
        EraseUntouched(m, blocks[c], ce, n);
      }
    }
    LoweredNodes(blocks[b], k, ce, n);
    AllNodesUpdate(blocks, b, Lowered(blocks[b], k, ce, n));
  }

  lemma {:induction false} FirstIsFirst(os: seq<Operand>, k: nat)
    requires forall j | 0 <= j < k <= |os| :: !(os[j].Const? && os[j].c.Expr?)
    requires k <= |os|
    ensures FirstExpr(os) == FirstExpr(os[k..])
    decreases k
  {
    if k == 0 {
      assert os[0..] == os;
    } else {
      FirstIsFirst(os[1..], k - 1);
      assert os[1..][k - 1..] == os[k..];
    }
  }

  method GetExprOperand(i: Inst) returns (r: Option<Constant>)
    ensures r == FirstExpr(i.operands)
    ensures r.Some? ==> r.value.Expr? && Const(r.value) in i.operands
  {
    for k := 0 to |i.operands|
      invariant forall j | 0 <= j < k :: !(i.operands[j].Const? && i.operands[j].c.Expr?)
    {
      FirstIsFirst(i.operands, k);
      if i.operands[k].Const? && i.operands[k].c.Expr? {
        return Some(i.operands[k].c);
      }
    }
    FirstIsFirst(i.operands, |i.operands|);
    return None;
  }

  method QueueInst(work: Work, i: Inst) returns (more: Work)
    ensures FirstExpr(i.operands).None? ==> more == work
    ensures FirstExpr(i.operands).Some? ==> more == work + {(i.id, FirstExpr(i.operands).value)}
  {
    var first := GetExprOperand(i);
    more := work;
    if first.Some? {
      more := more + {(i.id, first.value)};
    }
  }

  class Function {
    var blocks: Blocks
    var next: nat    // the identity of the next instruction created

    ghost predicate Valid()
      reads this
    {
      Distinct(blocks) && AllBelow(blocks, next)
    }

    method QueueAll() returns (work: Work)
      ensures Waiting(blocks, work)
    {
      work := {};
      for b := 0 to |blocks|
        invariant Pending(blocks, work)
        invariant forall c, l | InBlocks(blocks, c, l) && c < b :: Settled(blocks[c][l]) || Waits(blocks[c][l], work)
      {
        for k := 0 to |blocks[b]|
          invariant Pending(blocks, work)
          invariant forall c, l | InBlocks(blocks, c, l) && (c < b || (c == b && l < k)) ::
                      Settled(blocks[c][l]) || Waits(blocks[c][l], work)
        {
          assert InBlocks(blocks, b, k);
          work := QueueInst(work, blocks[b][k]);
        }
      }
    }

    /** Replaces one constant expression, and queues what may contain another one. */
    method Lower(work: Work, b: nat, k: nat, ce: Constant, ghost m: Origin, ghost was: Blocks) returns (more: Work)
      requires Valid() && InBlocks(blocks, b, k) && FirstExpr(blocks[b][k].operands) == Some(ce) && ce.Expr?
      requires !Stays(blocks[b][k]) && Waiting(blocks, work) && Accounted(m, blocks, was)
      modifies this
      ensures next == old(next) + 1
      ensures Valid() && Waiting(blocks, more) && Accounted(m[old(next) := ce], blocks, was)
      ensures InBlocks(blocks, b, k + 1) && blocks[b][k].id == old(next) && blocks[b][k + 1].id == old(blocks)[b][k].id
      ensures Const(ce) !in blocks[b][k + 1].operands
      ensures AllNodes(blocks) < old(AllNodes(blocks))
    {
      var i, made := blocks[b][k], Made(ce, next);
      var used := Using(i, ce, next);
      ghost var before := blocks;
      LowerFacts(before, b, k, ce, next, m);
      OnlyNeededLowered(m, was, before, b, k, ce, next);
      PendingLowered(before, b, k, ce, next, work);
      blocks := blocks[b := blocks[b][..k] + [made, used] + blocks[b][k + 1..]];
      assert InBlocks(blocks, b, k) && blocks[b][k] == made;
      assert InBlocks(blocks, b, k + 1) && blocks[b][k + 1] == used;
      more := QueueInst(work - {(i.id, ce)}, used);
      more := QueueInst(more, made);
      CoveredLowered(before, b, k, ce, next, work, more);
      next := next + 1;
    }

    /** Where a queued instruction is. */
    method Locate(p: (nat, Constant)) returns (b: nat, k: nat)
      requires Queued(blocks, p)
      ensures InBlocks(blocks, b, k) && blocks[b][k].id == p.0
      ensures Distinct(blocks) ==> FirstExpr(blocks[b][k].operands) == Some(p.1)
    {
      var c, l :| 0 <= c < |blocks| && 0 <= l < |blocks[c]| && blocks[c][l].id == p.0;
      b, k := c, l;
    }

    /** One turn of the worklist loop. */
    method Turn(work: Work, ghost m: Origin, ghost was: Blocks) returns (more: Work, changed: bool, ghost now: Origin)
      requires Valid() && Waiting(blocks, work) && Accounted(m, blocks, was) && work != {}
      modifies this
      ensures Valid() && Waiting(blocks, more) && Accounted(now, blocks, was)
      ensures changed ==> !AllSettled(old(blocks)) && AllNodes(blocks) < old(AllNodes(blocks))
      ensures changed ==> next == old(next) + 1 && now.Keys == m.Keys + {old(next)}
      ensures !changed ==> blocks == old(blocks) && next == old(next) && now == m && |more| < |work|
    {
      var p :| p in work;
      var ce := p.1;
      var b, k := Locate(p);
      var i := blocks[b][k];
      if CallsConstant(i, ce) {
        Skipped(blocks, b, k, work);
        more, changed, now := work - {p}, false, m;
      } else {
        FirstIsExpr(i.operands);
        assert !Settled(i);
        assert !Stays(i) by { LeftInCalls(i); }
        now, changed := m[next := ce], true;
        more := Lower(work, b, k, ce, m, was);
      }
    }

    /** The worklist loop. */
    method Drain(work: Work) returns (changed: bool, ghost m: Origin)
      requires Valid() && Waiting(blocks, work)
      modifies this
      ensures Valid() && Accounted(m, blocks, old(blocks)) && Waiting(blocks, {})
      ensures forall v | v in m :: old(next) <= v < next
      ensures changed ==> !AllSettled(old(blocks))
      ensures !changed ==> blocks == old(blocks)
    {
      changed, m := false, map[];
      ghost var was, first := blocks, next;
      NothingDone(was);
      var todo := work;
      while todo != {}
        invariant Valid() && Waiting(blocks, todo) && Accounted(m, blocks, was)
        invariant first <= next && forall v | v in m :: first <= v < next
        invariant changed ==> !AllSettled(was)
        invariant !changed ==> blocks == was
        decreases AllNodes(blocks), |todo|
      {
        var replaced;
        todo, replaced, m := Turn(todo, m, was);
        changed := changed || replaced;
      }
    }

    /**
     Every constant expression is replaced, except in calls of a constant expression, which stay as they
     are; nothing is added that is not used, and no block is touched without need.
     */
    method RunOnFunction() returns (changed: bool, ghost m: Origin)
      requires Valid()
      modifies this
      ensures Valid()
      ensures Undoes(m, blocks, old(blocks)) && OnlyNeeded(m, blocks, old(blocks))
      ensures forall v | v in m :: old(next) <= v < next
      ensures AllStay(blocks)
      ensures changed <==> !AllStay(old(blocks))
      ensures !changed ==> blocks == old(blocks)
    {
      var work := QueueAll();
      changed, m := Drain(work);
      NothingWaits(blocks);
      AllSettledStay(old(blocks));
    }
  }
}
