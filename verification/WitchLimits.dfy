/**
 Where the nontermination check promises more than it keeps: one concrete program for each
 assumption of the results in WitchTheorems.
 */
module WitchLimits {
  import opened Common
  import opened Ir
  import opened Runs
  import opened WitchFrame
  import opened WitchCheck
  import opened WitchInstrument
  import opened WitchMonitor
  import opened WitchTheorems

  /** `while (g) {}` written with the test at the end: the header is its own, conditional, latch. */
  const DO_WHILE: map<Label, Block> := map[0 := Block([Load(0, Global(0))], Branch(0, [0, 1]))]
  const DO_WHILE_PROGRAM: Program := map["main" := Defined(DO_WHILE, 0, {})]
  const DO_WHILE_SITE := Site(DO_WHILE, {0}, 0, [Copy(Global(0), 0)], 1, 3, 2, false)

  lemma DoWhileUses()
    ensures LoopAccepted(DO_WHILE_PROGRAM, DO_WHILE, {0})
    ensures LoopUses(DO_WHILE_PROGRAM, DO_WHILE, {0}) == {Global(0)}
  {
    var P, code := DO_WHILE_PROGRAM, DO_WHILE[0].instrs;
    assert code == [Load(0, Global(0))] && code[0] in code;
    forall i | i in code ensures InstrAccepted(P, i, []) && InstrUses(P, i, []) == {Global(0)} {
    }
    assert CodeUses(P, code, []) == {Global(0)};
  }

  /** A loop without calls reaches no function. */
  lemma NothingReached(P: Program, blocks: map<Label, Block>, body: set<Label>)
    requires body <= blocks.Keys
    requires forall l | l in body :: forall i | i in blocks[l].instrs :: !i.Call?
    ensures forall n :: n !in Reached(P, blocks, body) && n !in Scanned(P, blocks, body)
  {
    assert forall p :: !LoopChain(P, blocks, body, p) && !LoopPath(P, blocks, body, p);
  }

  lemma DoWhileAssumed()
    ensures Assumed(DO_WHILE_PROGRAM, DO_WHILE, {0})
    ensures forall n :: n !in Reached(DO_WHILE_PROGRAM, DO_WHILE, {0})
  {
    var P, code := DO_WHILE_PROGRAM, DO_WHILE[0].instrs;
    DoWhileUses();
    assert code == [Load(0, Global(0))];
    NothingReached(P, DO_WHILE, {0});
    assert forall c | CodeScanned(P, DO_WHILE, {0}, c) :: c == code;
    assert WellFormed(P) by {
      forall n, l, i | n in P && l in P[n].blocks && i in P[n].blocks[l].instrs ensures OwnSlots(P[n].allocas, i) {
        assert i == code[0];
      }
    }
  }

  lemma DoWhileReady()
    ensures Ready(DO_WHILE_PROGRAM, "main", DO_WHILE_SITE)
  {
    DoWhileUses();
    DoWhileAssumed();
    assert Tracks(DO_WHILE_SITE.mapping, Global(0)) by {
      assert DO_WHILE_SITE.mapping[0].original == Global(0);
    }
    assert LabelsOf(DO_WHILE) == {0, 1} by {
      assert 1 in Succs(DO_WHILE[0].term) && 0 in Succs(DO_WHILE[0].term);
    }
  }

  /** From `g == 0` the loop is left at once. */
  lemma DoWhileEnds(env: Env, m: Memory, ins: seq<seq<int>>)
    requires Get(m, Glob(0)) == 0 && ins != []
    ensures !Run(Original(env, DO_WHILE_PROGRAM, 0, DO_WHILE_SITE), At(0, m), ins).At?
  {
    var P, site := DO_WHILE_PROGRAM, DO_WHILE_SITE;
    OriginalStep(env, P, 0, site, 0, m, ins[0]);
    ExecOne(env, P, 0, Load(0, Global(0)), map[], m, ins[0]);
    var next := Original(env, P, 0, site)(At(0, m), ins[0]);
    assert !next.At?;
    Stuck(env, P, 0, site.blocks, site.body, next, ins[1..]);
  }

  lemma DoWhileCheckFires(env: Env, m: Memory)
    requires Stored(m) && m - Hidden(0, DO_WHILE_SITE) == map[Glob(0) := 0]
    requires CopiesHold(0, DO_WHILE_SITE.mapping, map[Glob(0) := 0], m)
    ensures CheckFires(env, DO_WHILE_PROGRAM, 0, DO_WHILE_SITE, 0, m, [])
  {
    ExecOne(env, DO_WHILE_PROGRAM, 0, Load(0, Global(0)), map[], map[Glob(0) := 0], []);
    EdgeCounted([0, 1], 0, 0);
  }

  lemma ThreeSteps(env: Env, P: Program, d: nat, blocks: map<Label, Block>, body: set<Label>, s: LoopState,
                   a: seq<int>, b: seq<int>, c: seq<int>)
    ensures var step := LoopStepper(env, P, d, blocks, body);
            Run(step, s, [a, b, c]) == step(step(step(s, a), b), c)
  {
    var step := LoopStepper(env, P, d, blocks, body);
    RunSnoc(step, s, [a, b], c);
    RunSnoc(step, s, [a], b);
    RunSnoc(step, s, [], a);
    assert [] + [a] == [a] && [a] + [b] == [a, b] && [a, b] + [c] == [a, b, c];
  }

  lemma DoWhileStored(env: Env, m: Memory) returns (s: LoopState)
    requires m == map[Glob(0) := 0]
    ensures var mon := Monitored(env, DO_WHILE_PROGRAM, "main", 0, DO_WHILE_SITE);
            s == mon(mon(At(3, m), [1]), [])
    ensures s.At? && s.block == 0 && Stored(s.mem) && s.mem - Hidden(0, DO_WHILE_SITE) == m
    ensures CopiesHold(0, DO_WHILE_SITE.mapping, m, s.mem)
  {
    DoWhileReady();
    ReadyIsShaped(DO_WHILE_PROGRAM, "main", DO_WHILE_SITE);
    assert m - Hidden(0, DO_WHILE_SITE) == m;
    s := StoredAfter(env, DO_WHILE_PROGRAM, "main", 0, DO_WHILE_SITE, m);
  }

  lemma StoredAfter(env: Env, P: Program, name: string, d: nat, site: Site, m: Memory) returns (s: LoopState)
    requires Ready(P, name, site) && Shaped(site)
    ensures var mon := Monitored(env, P, name, d, site);
            s == mon(mon(At(site.decide, m), [1]), [])
    ensures s.At? && s.block == site.header && Stored(s.mem) && s.mem - Hidden(d, site) == m - Hidden(d, site)
    ensures CopiesHold(d, site.mapping, m - Hidden(d, site), s.mem)
  {
    DecideStep(env, P, name, d, site, m, [1]);
    StoreStep(env, P, name, d, site, m, []);
    s := Monitored(env, P, name, d, site)(At(site.store, m), []);
  }

  /** From `g == 0` storing and checking once is enough for a report. */
  lemma DoWhileReports(env: Env, m: Memory)
    requires m == map[Glob(0) := 0]
    ensures Run(Monitored(env, DO_WHILE_PROGRAM, "main", 0, DO_WHILE_SITE), At(3, m), [[1], [], []]).Reported?
  {
    var P, site := DO_WHILE_PROGRAM, DO_WHILE_SITE;
    DoWhileReady();
    var s := DoWhileStored(env, m);
    DoWhileCheckFires(env, s.mem);
    BodyStep(env, P, "main", 0, site, 0, s.mem, []);
    ThreeSteps(env, Rewritten(P, "main", site), 0, site.NewBlocks(), site.NewBody(), At(3, m), [1], [], []);
  }

  /**
   A check in front of a conditional back edge can report a loop that ends: it sees the stored values
   again although the branch behind it leaves the loop.
   */
  lemma ConditionalLatchFalseReport(env: Env)
    ensures var P, site, m0 := DO_WHILE_PROGRAM, DO_WHILE_SITE, map[Glob(0) := 0];
            && Ready(P, "main", site) && !Stored(m0) && CanReport(env, P, "main", 0, site, m0)
            && forall ins | ins != [] ::
                !Run(Original(env, P, 0, site), At(site.header, m0 - Hidden(0, site)), ins).At?
  {
    var m0: Memory := map[Glob(0) := 0];
    DoWhileReady();
    DoWhileReports(env, m0);
    assert m0 - Hidden(0, DO_WHILE_SITE) == m0;
    forall ins: seq<seq<int>> | ins != []
      ensures !Run(Original(env, DO_WHILE_PROGRAM, 0, DO_WHILE_SITE), At(0, m0), ins).At?
    {
      DoWhileEnds(env, m0, ins);
    }
  }

  // ---------------------------------------------------------------------------------------------

  /** `while (*(&g + 0)) {}`: the address is a constant expression over a global. */
  const CONST_ADDRESS: map<Label, Block> := map[0 := Block([Load(0, ConstAddress(Some(0)))], Branch(0, [0, 1]))]

  /**
   A global read only through a constant address expression is not tracked, and two memories that
   agree on everything tracked lead different ways.
   */
  lemma ConstantAddressUntracked(env: Env, P: Program)
    ensures LoopAccepted(P, CONST_ADDRESS, {0}) && LoopUses(P, CONST_ADDRESS, {0}) == {}
    ensures var step := LoopStepper(env, P, 0, CONST_ADDRESS, {0});
            step(At(0, map[Glob(0) := 0]), []).Left? && step(At(0, map[Glob(0) := 1]), []).At?
  {
    var i := Load(0, ConstAddress(Some(0)));
    assert CONST_ADDRESS[0].instrs == [i];
    assert InstrAccepted(P, i, []) && InstrUses(P, i, []) == {};
    assert CodeUses(P, [i], []) == {};
    var m0, m1: Memory := map[Glob(0) := 0], map[Glob(0) := 1];
    ExecOne(env, P, 0, i, map[], m0, []);
    ExecOne(env, P, 0, i, map[], m1, []);
  }

  /** A function of the program whose name starts like `exit`, reading a global. */
  const EXEMPT_BODY := Defined(map[0 := Block([Load(0, Global(0))], Ret(0))], 0, {})
  const EXEMPT_CALL: map<Label, Block> := map[0 := Block([Call(0, Some("exit_requested"), [])], Branch(0, [0, 1]))]

  lemma ExemptName()
    ensures IsExempt("exit_requested") && !IsMonitorCall("exit_requested")
  {
    assert "exit" == "exit_requested"[..4];
    assert "exit_requested"[0] == 'e';
  }

  /** The body runs like any other and returns the global. */
  lemma ExemptRun(env: Env, v: int)
    ensures ExecInstrs(env, map["exit_requested" := EXEMPT_BODY], 0, [Call(0, Some("exit_requested"), [])],
                       map[], map[Glob(0) := v], [0]) == Ok(map[0 := v], map[Glob(0) := v], [])
  {
    var P: Program := map["exit_requested" := EXEMPT_BODY];
    var i, load := Call(0, Some("exit_requested"), []), Load(0, Global(0));
    var m: Memory := map[Glob(0) := v];
    ExemptName();
    ExecOne(env, P, 0, i, map[], m, [0]);
    ExecOne(env, P, 1, load, map[], m, []);
    assert Entered(env, 1, {}, m, 0) == m;
    assert EXEMPT_BODY.blocks[0].instrs == [load];
    assert Params([]) == map[] && ReadAll(map[], []) == [];
    assert ExecFrom(env, P, 1, EXEMPT_BODY, 0, map[], m, []) == Ok(map[0 := v], m, []);
    assert ExecFunction(env, P, 1, EXEMPT_BODY, [], m, [0]) == Ok(map[0 := v], m, []);
  }

  /** A function with an exempt name is never looked into, so what it reads is not tracked either. */
  lemma ExemptNameUntracked(env: Env)
    ensures var P := map["exit_requested" := EXEMPT_BODY];
            && LoopAccepted(P, EXEMPT_CALL, {0}) && LoopUses(P, EXEMPT_CALL, {0}) == {}
            && var step := LoopStepper(env, P, 0, EXEMPT_CALL, {0});
               step(At(0, map[Glob(0) := 0]), [0]).Left? && step(At(0, map[Glob(0) := 1]), [0]).At?
  {
    var P: Program := map["exit_requested" := EXEMPT_BODY];
    var i := Call(0, Some("exit_requested"), []);
    ExemptName();
    assert EXEMPT_CALL[0].instrs == [i];
    ExemptCall(P, 0, "exit_requested", [], []);
    assert CodeUses(P, [i], []) == {};
    ExemptRun(env, 0);
    ExemptRun(env, 1);
  }

  // ---------------------------------------------------------------------------------------------

  /** `while (g) g = 0;` with its test at the header and an unconditional back edge. */
  const CLEARING: map<Label, Block> := map[
    0 := Block([Load(0, Global(0))], Branch(0, [1, 2])),
    1 := Block([Compute(0, Other(0), []), Store(Global(0), 0)], Branch(0, [0]))]
  const CLEARING_PROGRAM: Program := map["main" := Defined(CLEARING, 0, {})]
  const CLEARING_SITE := Site(CLEARING, {0, 1}, 0, [Copy(Global(0), 0)], 1, 4, 3, false)

  lemma ClearingUses()
    ensures LoopAccepted(CLEARING_PROGRAM, CLEARING, {0, 1})
    ensures LoopUses(CLEARING_PROGRAM, CLEARING, {0, 1}) == {Global(0)}
  {
    var P, load, clear := CLEARING_PROGRAM, CLEARING[0].instrs, CLEARING[1].instrs;
    assert load == [Load(0, Global(0))] && load[0] in load;
    assert clear == [Compute(0, Other(0), []), Store(Global(0), 0)] && clear[1] in clear;
    assert forall i | i in load :: InstrAccepted(P, i, []) && InstrUses(P, i, []) == {Global(0)};
    assert forall i | i in clear :: InstrAccepted(P, i, []) && InstrUses(P, i, []) <= {Global(0)};
    assert InstrUses(P, clear[1], []) == {Global(0)};
    assert CodeUses(P, load, []) == {Global(0)} && CodeUses(P, clear, []) == {Global(0)};
  }

  lemma ClearingAssumed()
    ensures Assumed(CLEARING_PROGRAM, CLEARING, {0, 1})
    ensures forall n :: n !in Reached(CLEARING_PROGRAM, CLEARING, {0, 1})
  {
    var P := CLEARING_PROGRAM;
    ClearingUses();
    NothingReached(P, CLEARING, {0, 1});
    assert forall c | CodeScanned(P, CLEARING, {0, 1}, c) :: c == CLEARING[0].instrs || c == CLEARING[1].instrs;
    assert WellFormed(P) by {
      forall n, l, i | n in P && l in P[n].blocks && i in P[n].blocks[l].instrs ensures OwnSlots(P[n].allocas, i) {
        assert i in CLEARING[0].instrs || i in CLEARING[1].instrs;
      }
    }
  }

  lemma ClearingReady()
    ensures Ready(CLEARING_PROGRAM, "main", CLEARING_SITE) && UnconditionalLatches(CLEARING_SITE)
  {
    ClearingUses();
    ClearingAssumed();
    assert Tracks(CLEARING_SITE.mapping, Global(0)) by {
      assert CLEARING_SITE.mapping[0].original == Global(0);
    }
    assert LabelsOf(CLEARING) <= {0, 1, 2} by {
      forall l, t | l in CLEARING && t in Succs(CLEARING[l].term) ensures t in {0, 1, 2} {
      }
    }
    assert !IsLatch(CLEARING_SITE, 0) by {
      assert [1, 2][..1] == [1] && [1][..0] == [];
      assert CountEdges([1], 0) == 0;
    }
  }

  /** From a set global the body clears it, and the loop is left at the next test. */
  lemma ClearingSteps(env: Env, m: Memory)
    requires env.compute(0, []) == 0 && Get(m, Glob(0)) == 1
    ensures var orig := Original(env, CLEARING_PROGRAM, 0, CLEARING_SITE);
            && orig(At(0, m), []) == At(1, m)
            && orig(At(1, m), []) == At(0, m[Glob(0) := 0])
            && !orig(At(0, m[Glob(0) := 0]), []).At?
    ensures ExecInstrs(env, CLEARING_PROGRAM, 0, CLEARING[1].instrs, map[], m, [])
            == Ok(map[0 := 0], m[Glob(0) := 0], [])
  {
    var P, site := CLEARING_PROGRAM, CLEARING_SITE;
    var load, compute, store := Load(0, Global(0)), Compute(0, Other(0), []), Store(Global(0), 0);
    ExecOne(env, P, 0, load, map[], m, []);
    ExecOne(env, P, 0, load, map[], m[Glob(0) := 0], []);
    ExecAppend(env, P, 0, [compute], [store], map[], m, []);
    ExecOne(env, P, 0, compute, map[], m, []);
    ExecOne(env, P, 0, store, map[0 := 0], m, []);
    assert [compute] + [store] == [compute, store] && ReadAll(map[], []) == [];
    OriginalStep(env, P, 0, site, 0, m, []);
    OriginalStep(env, P, 0, site, 1, m, []);
    OriginalStep(env, P, 0, site, 0, m[Glob(0) := 0], []);
  }

  /** The check behind the first round sees the copy that was there before. */
  lemma ClearingMatches(env: Env, m0: Memory)
    requires env.compute(0, []) == 0 && m0 == map[Glob(0) := 1, Local(0, 0) := 0, Monitor := 1]
    ensures Matched(env, CLEARING_PROGRAM, 0, CLEARING_SITE, At(0, map[Glob(0) := 1]), m0, [[], []], None)
  {
    var P, site, e0 := CLEARING_PROGRAM, CLEARING_SITE, map[Glob(0) := 1];
    var orig, start := Original(env, P, 0, site), At(0, e0);
    var hist: seq<seq<int>> := [[], []];
    var first: seq<seq<int>> := [[]];
    ClearingSteps(env, e0);
    assert hist[..1] == first && first[1..] == [];
    assert Run(orig, start, first) == Run(orig, orig(start, []), first[1..]);
    assert BeforeLast(env, P, 0, site, start, hist) == At(1, e0);
    assert IsLatch(site, 1) by {
      EdgeCounted([0], 0, 0);
    }
  }

  /**
   One mark says for the whole program that something has been stored. A loop entered later compares with
   copies it has not made, and here reports although it ends after one round.
   */
  lemma StaleStoreFalseReport(env: Env)
    requires env.compute(0, []) == 0
    ensures var P, site, m0 := CLEARING_PROGRAM, CLEARING_SITE, map[Glob(0) := 1, Local(0, 0) := 0, Monitor := 1];
            && Ready(P, "main", site) && UnconditionalLatches(site)
            && CanReport(env, P, "main", 0, site, m0)
            && !Run(Original(env, P, 0, site), At(site.header, m0 - Hidden(0, site)), [[], [], []]).At?
  {
    var P, site := CLEARING_PROGRAM, CLEARING_SITE;
    var m0: Memory := map[Glob(0) := 1, Local(0, 0) := 0, Monitor := 1];
    ClearingReady();
    assert Copy(Global(0), 0) in site.mapping;
    assert m0 - Hidden(0, site) == map[Glob(0) := 1];
    ClearingSteps(env, map[Glob(0) := 1]);
    ThreeSteps(env, P, 0, site.blocks, site.body, At(0, map[Glob(0) := 1]), [], [], []);
    ClearingMatches(env, m0);
    ReportsIffMatches(env, P, "main", 0, site, m0);
  }

  // ---------------------------------------------------------------------------------------------
  // A function with an exempt name and a body that the results do cover.

  const ASSERT := "__VERIFIER_assert"
  const ERROR := "__VERIFIER_error"

  /** `if (!c) __VERIFIER_error();` with the argument kept in a stack slot. */
  const ASSERT_BODY: map<Label, Block> := map[
    0 := Block([Store(Alloca(0), 0), Load(1, Alloca(0))], Branch(1, [2, 1])),
    1 := Block([Call(2, Some(ERROR), [])], Unreachable),
    2 := Block([], Ret(0))]

  /** `while (1) __VERIFIER_assert(g);` */
  const ASSERTING: map<Label, Block> := map[
    0 := Block([Load(0, Global(0)), Call(1, Some(ASSERT), [0])], Branch(0, [0]))]
  const ASSERTING_PROGRAM: Program := map["main" := Defined(ASSERTING, 0, {}), ASSERT := Defined(ASSERT_BODY, 0, {0})]
  const ASSERTING_SITE := Site(ASSERTING, {0}, 0, [Copy(Global(0), 0)], 1, 3, 2, false)

  lemma AssertNames()
    ensures IsExempt(ASSERT) && !IsMonitorCall(ASSERT) && !IsMonitorCall(ERROR)
    ensures ERROR !in ASSERTING_PROGRAM && ASSERT != "main" && ERROR != "main"
  {
    assert ASSERT[2] == 'V' && ERROR[2] == 'V' && ASSERT[11] == 'a' && ERROR[11] == 'e';
    assert "main"[0] == 'm';
    assert STORE[2] == 'I' && NONDET_STORE[2] == 'I' && CHECK[2] == 'I' && CHECK_HEADER[2] == 'I'
           && INFINITE_LOOP[2] == 'I';
  }

  lemma AssertingUses()
    ensures LoopAccepted(ASSERTING_PROGRAM, ASSERTING, {0})
    ensures LoopUses(ASSERTING_PROGRAM, ASSERTING, {0}) == {Global(0)}
  {
    var P, code := ASSERTING_PROGRAM, ASSERTING[0].instrs;
    AssertNames();
    assert code == [Load(0, Global(0)), Call(1, Some(ASSERT), [0])] && code[0] in code;
    ExemptCall(P, 1, ASSERT, [0], []);
    assert InstrAccepted(P, code[0], []) && InstrUses(P, code[0], []) == {Global(0)};
    assert code[1] == Call(1, Some(ASSERT), [0]) && code[1] in code;
    assert CodeUses(P, code, []) == {Global(0)};
  }

  /** The only calls are those of the assertion and of the error. */
  lemma AssertingCalls(caller: string, callee: string)
    requires Calls(ASSERTING_PROGRAM, caller, callee)
    ensures callee == ASSERT || callee == ERROR
  {
    var P := ASSERTING_PROGRAM;
    var l :| l in P[caller].blocks && CallsFrom(P[caller].blocks[l].instrs, callee);
    var i :| i in P[caller].blocks[l].instrs && i.Call? && i.callee == Some(callee);
  }

  lemma AssertingReaches(p: seq<string>)
    requires LoopChain(ASSERTING_PROGRAM, ASSERTING, {0}, p)
    ensures p[0] == ASSERT && (Last(p) == ASSERT || Last(p) == ERROR)
  {
    var l :| l in {0} && CallsFrom(ASSERTING[l].instrs, p[0]);
    var i :| i in ASSERTING[l].instrs && i.Call? && i.callee == Some(p[0]);
    if |p| > 1 {
      assert Calls(ASSERTING_PROGRAM, p[|p| - 2], p[|p| - 2 + 1]);
      AssertingCalls(p[|p| - 2], Last(p));
    }
  }

  lemma AssertingWellFormed()
    ensures WellFormed(ASSERTING_PROGRAM)
  {
    var P := ASSERTING_PROGRAM;
    AssertNames();
    forall n, l, i | n in P && l in P[n].blocks && i in P[n].blocks[l].instrs ensures OwnSlots(P[n].allocas, i) {
      assert n == "main" || n == ASSERT;
      if n == "main" {
        assert i in ASSERTING[0].instrs;
      } else {
        assert i in ASSERT_BODY[l].instrs;
      }
    }
  }

  /** Nothing is scanned, and only the assertion is reached. */
  lemma AssertingReached(n: string)
    requires n in Reached(ASSERTING_PROGRAM, ASSERTING, {0})
    ensures n == ASSERT
  {
    var P := ASSERTING_PROGRAM;
    AssertNames();
    var p :| LoopChain(P, ASSERTING, {0}, p) && IsDefined(P, Last(p)) && Last(p) == n;
    AssertingReaches(p);
  }

  lemma AssertingScanned(n: string)
    ensures n !in Scanned(ASSERTING_PROGRAM, ASSERTING, {0})
  {
    AssertNames();
    forall p ensures !LoopPath(ASSERTING_PROGRAM, ASSERTING, {0}, p) {
      if LoopChain(ASSERTING_PROGRAM, ASSERTING, {0}, p) {
        AssertingReaches(p);
      }
    }
  }

  /** The body of the assertion names its own slot, and calls what has no body. */
  lemma AssertBodyNamed(fns: iset<string>, l: Label)
    requires l in ASSERT_BODY
    ensures CodeNamed(ASSERTING_PROGRAM, fns, {0}, {0}, ASSERT_BODY[l].instrs)
  {
    AssertNames();
  }

  lemma AssertingAssumed()
    ensures Assumed(ASSERTING_PROGRAM, ASSERTING, {0}) && !Unscanned(ASSERTING_PROGRAM, ASSERTING, {0}, "main")
  {
    var P := ASSERTING_PROGRAM;
    AssertingUses();
    AssertNames();
    AssertingWellFormed();
    assert Globals({Global(0)}) == {0} by {
      assert Global(0) in {Global(0)};
    }
    forall c | CodeScanned(P, ASSERTING, {0}, c) ensures c == ASSERTING[0].instrs {
      forall n ensures n !in Scanned(P, ASSERTING, {0}) {
        AssertingScanned(n);
      }
    }
    forall n | n in Reached(P, ASSERTING, {0}) ensures n == ASSERT {
      AssertingReached(n);
    }
    forall l | l in ASSERT_BODY ensures CodeNamed(P, Reached(P, ASSERTING, {0}), {0}, {0}, ASSERT_BODY[l].instrs) {
      AssertBodyNamed(Reached(P, ASSERTING, {0}), l);
    }
  }

  /** The assumptions of the results hold where a linked `__VERIFIER_assert` is called. */
  lemma AssertingReady()
    ensures Ready(ASSERTING_PROGRAM, "main", ASSERTING_SITE) && UnconditionalLatches(ASSERTING_SITE)
  {
    AssertingUses();
    AssertingAssumed();
    AssertNames();
    assert Tracks(ASSERTING_SITE.mapping, Global(0)) by {
      assert ASSERTING_SITE.mapping[0].original == Global(0);
    }
    assert LabelsOf(ASSERTING) == {0};
  }
}
