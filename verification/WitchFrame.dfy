/**
 What code built only from named locations can depend on and change. The lemmas compare two
 executions with the same inputs, in two programs that share the functions the code can reach, from
 memories that agree on a set of cells containing every location the code names.
 */
module WitchFrame {
  import opened Common
  import opened Ir

  predicate PointerNamed(slots: set<nat>, globals: set<nat>, p: Pointer) {
    match p
    case Alloca(s) => s in slots
    case Global(g) => g in globals
    case ConstAddress(b) => b.Some? ==> b.value in globals
    case Computed(_) => false
  }

  /** An instruction that names only the given slots and globals, and calls only functions in `fns`. */
  ghost predicate InstrNamed(P: Program, fns: iset<string>, slots: set<nat>, globals: set<nat>, i: Instr) {
    match i
    case Compute(_, _, _) => true
    case OtherMemory(_) => false
    case Load(_, p) => PointerNamed(slots, globals, p)
    case Store(p, _) => PointerNamed(slots, globals, p)
    case Call(_, callee, _) =>
      callee.Some? && !IsMonitorCall(callee.value) && (IsDefined(P, callee.value) ==> callee.value in fns)
  }

  ghost predicate CodeNamed(P: Program, fns: iset<string>, slots: set<nat>, globals: set<nat>, code: seq<Instr>) {
    forall i | i in code :: InstrNamed(P, fns, slots, globals, i)
  }

  /** The functions in `fns` are closed under calls and name only `globals` and their own slots. */
  ghost predicate Closed(P: Program, fns: iset<string>, globals: set<nat>) {
    forall n | n in fns :: IsDefined(P, n) &&
                           forall l | l in P[n].blocks ::
                             CodeNamed(P, fns, P[n].allocas, globals, P[n].blocks[l].instrs)
  }

  ghost predicate SameFunctions(P: Program, Q: Program, fns: iset<string>) {
    && (forall n :: IsDefined(P, n) <==> IsDefined(Q, n))
    && (forall n | n in fns :: n in P && n in Q && P[n] == Q[n])
  }

  ghost predicate AgreeAt(m1: Memory, m2: Memory, a: Addr) {
    (a in m1 <==> a in m2) && (a in m1 ==> m1[a] == m2[a])
  }

  ghost predicate Agree(cells: iset<Addr>, m1: Memory, m2: Memory) {
    forall a | a in cells :: AgreeAt(m1, m2, a)
  }

  /** The cells an activation at depth `d` may write: the named ones and those of deeper activations. */
  ghost predicate MayWrite(d: nat, slots: set<nat>, globals: set<nat>, a: Addr) {
    match a
    case Local(e, s) => e > d || (e == d && s in slots)
    case Glob(g) => g in globals
    case _ => false
  }

  ghost predicate Untouched(d: nat, slots: set<nat>, globals: set<nat>, m1: Memory, m2: Memory) {
    forall a | !MayWrite(d, slots, globals, a) :: AgreeAt(m1, m2, a)
  }

  ghost predicate Covers(cells: iset<Addr>, d: nat, slots: set<nat>, globals: set<nat>) {
    && (forall s | s in slots :: Local(d, s) in cells)
    && (forall g | g in globals :: Glob(g) in cells)
  }

  /** Two outcomes that agree on everything but the memory outside `cells`. */
  ghost predicate SameOutcome(cells: iset<Addr>, r1: Outcome, r2: Outcome) {
    match r1
    case Ok(regs, mem, rest) => r2.Ok? && r2.regs == regs && r2.rest == rest && Agree(cells, mem, r2.mem)
    case _ => r1 == r2
  }

  ghost predicate Framed(cells: iset<Addr>, d: nat, slots: set<nat>, globals: set<nat>, m1: Memory, r1: Outcome,
                         r2: Outcome) {
    && SameOutcome(cells, r1, r2)
    && !r1.Alarm?
    && (r1.Ok? ==> Untouched(d, slots, globals, m1, r1.mem) && m1.Keys <= r1.mem.Keys)
  }

  lemma {:induction false} InstrFrame(env: Env, P: Program, Q: Program, fns: iset<string>, cells: iset<Addr>, d: nat,
                                      slots: set<nat>, globals: set<nat>, i: Instr, regs: map<Reg, int>,
                                      m1: Memory, m2: Memory, ins: seq<int>)
    requires Closed(P, fns, globals) && SameFunctions(P, Q, fns) && Covers(cells, d, slots, globals)
    requires InstrNamed(P, fns, slots, globals, i) && Agree(cells, m1, m2)
    ensures Framed(cells, d, slots, globals, m1, ExecInstr(env, P, d, i, regs, m1, ins),
                   ExecInstr(env, Q, d, i, regs, m2, ins))
    decreases |ins|, 1, 0
  {
    if i.Call? && ins != [] && IsDefined(P, i.callee.value) {
      var f := P[i.callee.value];
      FunctionFrame(env, P, Q, fns, cells, d + 1, globals, i.callee.value, ReadAll(regs, i.args), m1, m2, ins);
      var r1 := ExecFunction(env, P, d + 1, f, ReadAll(regs, i.args), m1, ins);
      if r1.Ok? {
        forall a | !MayWrite(d, slots, globals, a) ensures AgreeAt(m1, r1.mem, a) {
          assert !MayWrite(d + 1, f.allocas, globals, a);
        }
      }
    }
  }

  lemma {:induction false} CodeFrame(env: Env, P: Program, Q: Program, fns: iset<string>, cells: iset<Addr>, d: nat,
                                     slots: set<nat>, globals: set<nat>, code: seq<Instr>, regs: map<Reg, int>,
                                     m1: Memory, m2: Memory, ins: seq<int>)
    requires Closed(P, fns, globals) && SameFunctions(P, Q, fns) && Covers(cells, d, slots, globals)
    requires CodeNamed(P, fns, slots, globals, code) && Agree(cells, m1, m2)
    ensures Framed(cells, d, slots, globals, m1, ExecInstrs(env, P, d, code, regs, m1, ins),
                   ExecInstrs(env, Q, d, code, regs, m2, ins))
    decreases |ins|, 1, |code|
  {
    if code != [] {
      InstrFrame(env, P, Q, fns, cells, d, slots, globals, code[0], regs, m1, m2, ins);
      var r1 := ExecInstr(env, P, d, code[0], regs, m1, ins);
      var r2 := ExecInstr(env, Q, d, code[0], regs, m2, ins);
      if r1.Ok? {
        CodeFrame(env, P, Q, fns, cells, d, slots, globals, code[1..], r1.regs, r1.mem, r2.mem, r1.rest);
      }
    }
  }

  lemma {:induction false} FunctionFrame(env: Env, P: Program, Q: Program, fns: iset<string>, cells: iset<Addr>,
                                         d: nat,
                                         globals: set<nat>, name: string, vals: seq<int>,
                                         m1: Memory, m2: Memory, ins: seq<int>)
    requires Closed(P, fns, globals) && SameFunctions(P, Q, fns) && Covers(cells, d, {}, globals)
    requires name in fns && Agree(cells, m1, m2) && ins != []
    ensures Framed(cells, d, P[name].allocas, globals, m1,
                   ExecFunction(env, P, d, P[name], vals, m1, ins), ExecFunction(env, Q, d, Q[name], vals, m2, ins))
    decreases |ins|, 0, 0
  {
    var f := P[name];
    var wider := cells + iset s | s in f.allocas :: Local(d, s);
    var n1, n2 := Entered(env, d, f.allocas, m1, ins[0]), Entered(env, d, f.allocas, m2, ins[0]);
    assert Agree(wider, n1, n2);
    assert Untouched(d, f.allocas, globals, m1, n1);
    FromFrame(env, P, Q, fns, wider, d, globals, name, f.entry, Params(vals), n1, n2, ins[1..]);
  }

  lemma {:induction false} FromFrame(env: Env, P: Program, Q: Program, fns: iset<string>, cells: iset<Addr>, d: nat,
                                     globals: set<nat>, name: string, l: Label, regs: map<Reg, int>,
                                     m1: Memory, m2: Memory, ins: seq<int>)
    requires Closed(P, fns, globals) && SameFunctions(P, Q, fns)
    requires name in fns && Covers(cells, d, P[name].allocas, globals) && Agree(cells, m1, m2)
    ensures Framed(cells, d, P[name].allocas, globals, m1,
                   ExecFrom(env, P, d, P[name], l, regs, m1, ins), ExecFrom(env, Q, d, Q[name], l, regs, m2, ins))
    decreases |ins|, 2, 0
  {
    var f := P[name];
    if l in f.blocks {
      var b := f.blocks[l];
      CodeFrame(env, P, Q, fns, cells, d, f.allocas, globals, b.instrs, regs, m1, m2, ins);
      var r1 := ExecInstrs(env, P, d, b.instrs, regs, m1, ins);
      var r2 := ExecInstrs(env, Q, d, b.instrs, regs, m2, ins);
      if r1.Ok? && b.term.Branch? && b.term.succs != [] && r1.rest != [] {
        var t := b.term.succs[Pick(Reading(r1.regs, b.term.cond), |b.term.succs|)];
        FromFrame(env, P, Q, fns, cells, d, globals, name, t, map[], r1.mem, r2.mem, r1.rest[1..]);
      }
    }
  }

  /** Executing with some cells removed that the code cannot write: the same, minus those cells. */
  ghost predicate SameWithout(hidden: set<Addr>, m: Memory, r: Outcome, e: Outcome) {
    && !e.Alarm?
    && (!r.Ok? ==> e == r)
    && (r.Ok? ==>
          && e == Ok(r.regs, r.mem - hidden, r.rest)
          && (m - hidden).Keys <= (r.mem - hidden).Keys
          && forall a | a in hidden :: AgreeAt(m, r.mem, a))
  }

  lemma SameInBoth(env: Env, P: Program, Q: Program, fns: iset<string>, d: nat, slots: set<nat>, globals: set<nat>,
                   code: seq<Instr>, m: Memory, ins: seq<int>)
    requires Closed(P, fns, globals) && SameFunctions(P, Q, fns) && CodeNamed(P, fns, slots, globals, code)
    ensures ExecInstrs(env, P, d, code, map[], m, ins) == ExecInstrs(env, Q, d, code, map[], m, ins)
  {
    var all := iset a | a in m || a !in m;
    CodeFrame(env, P, Q, fns, all, d, slots, globals, code, map[], m, m, ins);
    var p := ExecInstrs(env, P, d, code, map[], m, ins);
    var q := ExecInstrs(env, Q, d, code, map[], m, ins);
    if p.Ok? {
      forall a | a in p.mem || a in q.mem ensures a in p.mem && a in q.mem && p.mem[a] == q.mem[a] {
        assert a in all && AgreeAt(p.mem, q.mem, a);
      }
      assert p.mem == q.mem;
    }
  }

  lemma HiddenFrame(env: Env, P: Program, fns: iset<string>, d: nat, slots: set<nat>, globals: set<nat>,
                    hidden: set<Addr>, code: seq<Instr>, m: Memory, ins: seq<int>)
    requires Closed(P, fns, globals) && CodeNamed(P, fns, slots, globals, code)
    requires forall a | MayWrite(d, slots, globals, a) :: a !in hidden
    requires Covers((iset a: Addr | a !in hidden), d, slots, globals)
    ensures SameWithout(hidden, m, ExecInstrs(env, P, d, code, map[], m, ins),
                        ExecInstrs(env, P, d, code, map[], m - hidden, ins))
  {
    var outside := iset a: Addr | a !in hidden;
    assert SameFunctions(P, P, fns);
    CodeFrame(env, P, P, fns, outside, d, slots, globals, code, map[], m, m - hidden, ins);
    CodeFrame(env, P, P, fns, outside, d, slots, globals, code, map[], m - hidden, m, ins);
    var r := ExecInstrs(env, P, d, code, map[], m, ins);
    var e := ExecInstrs(env, P, d, code, map[], m - hidden, ins);
    if r.Ok? {
      forall a | a in hidden ensures a !in e.mem && AgreeAt(m, r.mem, a) {
        assert AgreeAt(m - hidden, e.mem, a);
      }
      forall a | a !in hidden ensures AgreeAt(e.mem, r.mem, a) {
        assert a in outside;
      }
      assert e.mem == r.mem - hidden;
    }
  }
}
