/**
 The part of the LLVM intermediate representation that the nontermination instrumentation looks at:
 functions made of basic blocks, loads and stores with a classified pointer operand, calls by name or
 through a pointer, and computations on registers. Values flow between blocks only through memory, so
 registers live inside one block.
 */
module Ir {

  import opened Common

  type Reg = nat
  type Label = nat

  /** How the pointer operand of a load or store is written. */
  datatype Pointer =
    | Alloca(slot: nat)                   // a stack slot of the enclosing function
    | Global(id: nat)                     // a global variable
    | ConstAddress(base: Option<nat>)     // another constant: null, or an expression over a global's address
    | Computed(reg: Reg)                  // an address computed at run time

  datatype Op = CmpEq | And | Other(code: nat)

  datatype Instr =
    | Call(dst: Reg, callee: Option<string>, args: seq<Reg>)
    | Load(dst: Reg, ptr: Pointer)
    | Store(ptr: Pointer, src: Reg)
    | Compute(dst: Reg, op: Op, operands: seq<Reg>)
    | OtherMemory(code: nat)              // anything else that may read or write memory

  datatype Terminator = Branch(cond: Reg, succs: seq<Label>) | Ret(value: Reg) | Unreachable

  datatype Block = Block(instrs: seq<Instr>, term: Terminator)

  datatype Function = Declared | Defined(blocks: map<Label, Block>, entry: Label, allocas: set<nat>)

  type Program = map<string, Function>

  predicate IsDefined(P: Program, name: string) {
    name in P && P[name].Defined?
  }

  /** A memory cell. Slots belong to an activation, identified by its call depth. */
  datatype Addr = Local(depth: nat, slot: nat) | Glob(id: nat) | Heap(address: int) | Monitor

  type Memory = map<Addr, int>

  function Get(m: Memory, a: Addr): int {
    if a in m then m[a] else 0
  }

  function Reading(regs: map<Reg, int>, r: Reg): int {
    if r in regs then regs[r] else 0
  }

  function ReadAll(regs: map<Reg, int>, rs: seq<Reg>): seq<int> {
    seq(|rs|, k requires 0 <= k < |rs| => Reading(regs, rs[k]))
  }

  /** Everything the program text does not fix. */
  datatype Env = Env(
    compute: (nat, seq<int>) -> int,                  // an arithmetic instruction
    extern: (string, seq<int>, int) -> Option<int>,   // a function without a body: its answer, or the program ends
    fill: (int, nat) -> int,                          // the junk a fresh stack slot starts with
    address: int -> Addr,                             // the cell a computed address denotes
    other: (nat, Memory, int) -> Memory)              // the remaining memory instructions

  // The monitor's entry points, as the instrumentation names them.
  const STORE := "__INSTR_store"
  const NONDET_STORE := "__INSTR_nondet_store"
  const CHECK := "__INSTR_check_nontermination"
  const CHECK_HEADER := "__INSTR_check_nontermination_header"
  const INFINITE_LOOP := "__INSTR_infinite_loop"

  predicate IsMonitorCall(name: string) {
    name == STORE || name == NONDET_STORE || name == CHECK || name == CHECK_HEADER || name == INFINITE_LOOP
  }

  /** The cell a pointer denotes at call depth `d`; null and the like denote none. */
  function CellOf(env: Env, d: nat, regs: map<Reg, int>, p: Pointer): Option<Addr> {
    match p
    case Alloca(s) => Some(Local(d, s))
    case Global(g) => Some(Glob(g))
    case ConstAddress(None) => None
    case ConstAddress(Some(g)) => Some(Glob(g))
    case Computed(r) => Some(env.address(Reading(regs, r)))
  }

  /** The outcome of executing some instructions. `Starved` means the inputs did not suffice. */
  datatype Outcome =
    | Ok(regs: map<Reg, int>, mem: Memory, rest: seq<int>)
    | Halted
    | Alarm(rest: seq<int>)               // the nontermination check received true, or an infinite loop was marked
    | Starved

  function BinaryValue(env: Env, op: Op, vals: seq<int>): int {
    match op
    case CmpEq => if |vals| == 2 && vals[0] == vals[1] then 1 else 0
    case And => if |vals| == 2 && vals[0] != 0 && vals[1] != 0 then 1 else 0
    case Other(c) => env.compute(c, vals)
  }

  /** Which successor a branch takes. */
  function Pick(v: int, n: nat): (k: nat)
    requires n > 0
    ensures k < n
  {
    if n == 1 then 0 else if n == 2 then (if v != 0 then 0 else 1) else v % n
  }

  /** The monitor's own calls: marking a stored state, the choice to store, the check, marking an infinite loop. */
  function ExecMonitor(name: string, dst: Reg, vals: seq<int>, regs: map<Reg, int>, mem: Memory,
                       ins: seq<int>): (r: Outcome)
    ensures r.Ok? ==> |r.rest| <= |ins|
  {
    if name == STORE then
      Ok(regs, mem[Monitor := 1], ins)
    else if name == NONDET_STORE then
      if ins == [] then Starved else Ok(regs[dst := ins[0]], mem, ins[1..])
    else if name == CHECK && |vals| == 1 && vals[0] != 0 && Get(mem, Monitor) != 0 then
      Alarm(ins)
    else if name == INFINITE_LOOP then
      Alarm(ins)
    else
      Ok(regs, mem, ins)
  }

  function ExecInstr(env: Env, P: Program, d: nat, i: Instr, regs: map<Reg, int>, mem: Memory,
                     ins: seq<int>): (r: Outcome)
    ensures r.Ok? ==> |r.rest| <= |ins|
    decreases |ins|, 1, 0
  {
    match i
    case Compute(dst, op, rs) => Ok(regs[dst := BinaryValue(env, op, ReadAll(regs, rs))], mem, ins)
    case Load(dst, p) =>
      var c := CellOf(env, d, regs, p);
      if c.None? then Halted else Ok(regs[dst := Get(mem, c.value)], mem, ins)
    case Store(p, src) =>
      var c := CellOf(env, d, regs, p);
      if c.None? then Halted else Ok(regs, mem[c.value := Reading(regs, src)], ins)
    case OtherMemory(c) =>
      if ins == [] then Starved else Ok(regs, env.other(c, mem, ins[0]), ins[1..])
    case Call(dst, callee, rs) =>
      var vals := ReadAll(regs, rs);
      if callee.None? then Halted
      else if IsMonitorCall(callee.value) then ExecMonitor(callee.value, dst, vals, regs, mem, ins)
      else if ins == [] then Starved
      else if IsDefined(P, callee.value) then
        var r := ExecFunction(env, P, d + 1, P[callee.value], vals, mem, ins);
        if r.Ok? then Ok(regs[dst := Reading(r.regs, 0)], r.mem, r.rest) else r
      else
        var v := env.extern(callee.value, vals, ins[0]);
        if v.None? then Halted else Ok(regs[dst := v.value], mem, ins[1..])
  }

  function ExecInstrs(env: Env, P: Program, d: nat, code: seq<Instr>, regs: map<Reg, int>, mem: Memory,
                      ins: seq<int>): (r: Outcome)
    ensures r.Ok? ==> |r.rest| <= |ins|
    decreases |ins|, 1, |code|
  {
    if code == [] then Ok(regs, mem, ins)
    else
      var r := ExecInstr(env, P, d, code[0], regs, mem, ins);
      if r.Ok? then ExecInstrs(env, P, d, code[1..], r.regs, r.mem, r.rest) else r
  }

  /** The memory a fresh activation starts in. */
  function Entered(env: Env, d: nat, allocas: set<nat>, mem: Memory, junk: int): Memory {
    mem + (map a | a in (set s | s in allocas :: Local(d, s)) :: env.fill(junk, a.slot))
  }

  /** Arguments arrive in the first registers. */
  function Params(vals: seq<int>): map<Reg, int> {
    map k | 0 <= k < |vals| :: vals[k]
  }

  /** A call; the value returned is left in register 0. Each block entered consumes one input. */
  function ExecFunction(env: Env, P: Program, d: nat, f: Function, vals: seq<int>, mem: Memory,
                        ins: seq<int>): (r: Outcome)
    requires f.Defined? && ins != []
    ensures r.Ok? ==> |r.rest| <= |ins|
    decreases |ins|, 0, 0
  {
    ExecFrom(env, P, d, f, f.entry, Params(vals), Entered(env, d, f.allocas, mem, ins[0]), ins[1..])
  }

  function ExecFrom(env: Env, P: Program, d: nat, f: Function, l: Label, regs: map<Reg, int>, mem: Memory,
                    ins: seq<int>): (r: Outcome)
    requires f.Defined?
    ensures r.Ok? ==> |r.rest| <= |ins|
    decreases |ins|, 2, 0
  {
    if l !in f.blocks then Halted
    else
      var r := ExecInstrs(env, P, d, f.blocks[l].instrs, regs, mem, ins);
      if !r.Ok? then r
      else
        match f.blocks[l].term
        case Ret(v) => Ok(map[0 := Reading(r.regs, v)], r.mem, r.rest)
        case Unreachable => Halted
        case Branch(c, succs) =>
          if succs == [] then Halted
          else if r.rest == [] then Starved
          else ExecFrom(env, P, d, f, succs[Pick(Reading(r.regs, c), |succs|)], map[], r.mem, r.rest[1..])
  }

  lemma {:induction false} ExecAppend(env: Env, P: Program, d: nat, a: seq<Instr>, b: seq<Instr>, regs: map<Reg, int>,
                                      mem: Memory, ins: seq<int>)
    ensures ExecInstrs(env, P, d, a + b, regs, mem, ins) ==
            var r := ExecInstrs(env, P, d, a, regs, mem, ins);
            if r.Ok? then ExecInstrs(env, P, d, b, r.regs, r.mem, r.rest) else r
    decreases |a|
  {
    if a == [] {
      assert a + b == b;
    } else {
      assert (a + b)[0] == a[0] && (a + b)[1..] == a[1..] + b;
      var r := ExecInstr(env, P, d, a[0], regs, mem, ins);
      if r.Ok? {
        ExecAppend(env, P, d, a[1..], b, r.regs, r.mem, r.rest);
      }
    }
  }

  // ---------------------------------------------------------------------------------------------
  // The loop of one function, observed at block boundaries.

  /** Where a run of a loop stands. */
  datatype LoopState =
    | At(block: Label, mem: Memory)          // about to execute a block of the loop
    | Left(target: Label, mem: Memory)       // the loop was left
    | Returned(value: int, mem: Memory)
    | Over                                   // the program ended inside the loop
    | Reported                               // the nontermination check failed: a cycle was reported
    | Misfed                                 // the inputs did not fit the block executed

  /** Where control goes once the instructions of a block are done. */
  function Finish(t: Terminator, r: Outcome, body: set<Label>): LoopState {
    match r
    case Halted => Over
    case Alarm(rest) => if rest != [] then Misfed else Reported
    case Starved => Misfed
    case Ok(regs, mem, rest) =>
      if rest != [] then Misfed
      else
        match t
        case Ret(v) => Returned(Reading(regs, v), mem)
        case Unreachable => Over
        case Branch(c, succs) =>
          if succs == [] then Over
          else
            var next := succs[Pick(Reading(regs, c), |succs|)];
            if next in body then At(next, mem) else Left(next, mem)
  }

  /** Executes one block at call depth `d`; `chunk` holds exactly the inputs it reads. */
  function LoopStep(env: Env, P: Program, d: nat, blocks: map<Label, Block>, body: set<Label>, s: LoopState,
                    chunk: seq<int>): LoopState {
    if !s.At? then s
    else if s.block !in blocks then Over
    else Finish(blocks[s.block].term, ExecInstrs(env, P, d, blocks[s.block].instrs, map[], s.mem, chunk), body)
  }

  function LoopStepper(env: Env, P: Program, d: nat, blocks: map<Label, Block>,
                       body: set<Label>): (LoopState, seq<int>) -> LoopState {
    (s: LoopState, chunk: seq<int>) => LoopStep(env, P, d, blocks, body, s, chunk)
  }
}
