/**
 The main results about the nontermination instrumentation: the frame of an accepted loop, and the
 correspondence between reports and repeated states.
 */
module WitchTheorems {
  import opened Common
  import opened Ir
  import opened Runs
  import opened WitchFrame
  import opened WitchCheck
  import opened WitchInstrument
  import opened WitchMonitor

  // ---------------------------------------------------------------------------------------------
  // The frame of an accepted loop.

  /** The same place, with memories that agree on the given cells. */
  ghost predicate Alike(cells: iset<Addr>, s1: LoopState, s2: LoopState) {
    match s1
    case At(l, m) => s2.At? && s2.block == l && Agree(cells, m, s2.mem)
    case Left(t, m) => s2.Left? && s2.target == t && Agree(cells, m, s2.mem)
    case Returned(v, m) => s2.Returned? && s2.value == v && Agree(cells, m, s2.mem)
    case _ => s1 == s2
  }

  /** Cells that existed before the loop and are not tracked. */
  ghost predicate Foreign(d: nat, tracked: iset<Addr>, a: Addr) {
    a !in tracked && (a.Local? ==> a.depth <= d)
  }

  /**
   One block of an accepted loop, with the same inputs, from memories that agree on the tracked
   variables: the same way out, memories that agree on them again, and nothing else touched.
   */
  lemma AcceptedStepFrame(env: Env, P: Program, d: nat, blocks: map<Label, Block>, body: set<Label>,
                          l: Label, m1: Memory, m2: Memory, chunk: seq<int>)
    requires body <= blocks.Keys && LoopAccepted(P, blocks, body) && Assumed(P, blocks, body)
    requires l in body && Agree(TrackedCells(P, d, blocks, body), m1, m2)
    ensures var step := LoopStepper(env, P, d, blocks, body);
            var tracked := TrackedCells(P, d, blocks, body);
            var s1, s2 := step(At(l, m1), chunk), step(At(l, m2), chunk);
            && Alike(tracked, s1, s2) && !s1.Reported?
            && (s1.At? ==> s1.block in body)
            && (s1.At? || s1.Left? || s1.Returned? ==>
                  && m1.Keys <= MemoryOf(s1).Keys
                  && forall a | Foreign(d, tracked, a) :: AgreeAt(m1, MemoryOf(s1), a))
  {
    var fns, used := Reached(P, blocks, body), LoopUses(P, blocks, body);
    var tracked := TrackedCells(P, d, blocks, body);
    AcceptedIsNamed(P, blocks, body);
    assert Covers(tracked, d, Slots(used), Globals(used)) by {
      forall s | s in Slots(used) ensures Local(d, s) in tracked {
        assert Cell(d, Alloca(s)) == Local(d, s);
      }
      forall g | g in Globals(used) ensures Glob(g) in tracked {
        assert Cell(d, Global(g)) == Glob(g);
      }
    }
    assert SameFunctions(P, P, fns);
    CodeFrame(env, P, P, fns, tracked, d, Slots(used), Globals(used), blocks[l].instrs, map[], m1, m2, chunk);
    var r := ExecInstrs(env, P, d, blocks[l].instrs, map[], m1, chunk);
    if r.Ok? {
      forall a | Foreign(d, tracked, a) ensures AgreeAt(m1, r.mem, a) {
        assert !MayWrite(d, Slots(used), Globals(used), a);
      }
    }
  }

  /** The same for whole runs. */
  lemma {:induction false} AcceptedRunFrame(env: Env, P: Program, d: nat, blocks: map<Label, Block>, body: set<Label>,
                                            l: Label, m1: Memory, m2: Memory, ins: seq<seq<int>>)
    requires body <= blocks.Keys && LoopAccepted(P, blocks, body) && Assumed(P, blocks, body)
    requires l in body && Agree(TrackedCells(P, d, blocks, body), m1, m2)
    ensures var step := LoopStepper(env, P, d, blocks, body);
            var tracked := TrackedCells(P, d, blocks, body);
            var s1, s2 := Run(step, At(l, m1), ins), Run(step, At(l, m2), ins);
            && Alike(tracked, s1, s2)
            && (s1.At? ==> s1.block in body)
            && (s1.At? || s1.Left? || s1.Returned? ==>
                  && m1.Keys <= MemoryOf(s1).Keys
                  && forall a | Foreign(d, tracked, a) :: AgreeAt(m1, MemoryOf(s1), a))
    decreases |ins|
  {
    if ins != [] {
      var step := LoopStepper(env, P, d, blocks, body);
      AcceptedStepFrame(env, P, d, blocks, body, l, m1, m2, ins[0]);
      var s1, s2 := step(At(l, m1), ins[0]), step(At(l, m2), ins[0]);
      if s1.At? {
        AcceptedRunFrame(env, P, d, blocks, body, s1.block, s1.mem, s2.mem, ins[1..]);
      } else {
        Stuck(env, P, d, blocks, body, s1, ins[1..]);
        Stuck(env, P, d, blocks, body, s2, ins[1..]);
      }
    }
  }

  /** Once the loop is left, reported or over, nothing moves. */
  lemma {:induction false} Stuck(env: Env, P: Program, d: nat, blocks: map<Label, Block>, body: set<Label>,
                                 s: LoopState, ins: seq<seq<int>>)
    requires !s.At?
    ensures Run(LoopStepper(env, P, d, blocks, body), s, ins) == s
    decreases |ins|
  {
    if ins != [] {
      Stuck(env, P, d, blocks, body, s, ins[1..]);
    }
  }

  // ---------------------------------------------------------------------------------------------
  // Running forever.

  /** The first `n` inputs of `seg` repeated without end. */
  function Cycle(seg: seq<seq<int>>, n: nat): seq<seq<int>>
    requires seg != []
    decreases n
  {
    if n <= |seg| then seg[..n] else seg + Cycle(seg, n - |seg|)
  }

  /** An accepted loop that comes back to the same tracked values can go on forever. */
  lemma {:induction false} RepeatedStateRunsForever(env: Env, P: Program, d: nat, blocks: map<Label, Block>,
                                                    body: set<Label>,
                                                    h: Label, snap: Memory, seg: seq<seq<int>>, m: Memory, n: nat)
    requires body <= blocks.Keys && LoopAccepted(P, blocks, body) && Assumed(P, blocks, body) && h in body
    requires seg != [] && Run(LoopStepper(env, P, d, blocks, body), At(h, snap), seg) == At(h, m)
    requires Agree(TrackedCells(P, d, blocks, body), snap, m)
    ensures Run(LoopStepper(env, P, d, blocks, body), At(h, snap), Cycle(seg, n)).At?
    decreases n
  {
    var step := LoopStepper(env, P, d, blocks, body);
    if n <= |seg| {
      assert seg == seg[..n] + seg[n..];
      RunAppend(step, At(h, snap), seg[..n], seg[n..]);
      if !Run(step, At(h, snap), seg[..n]).At? {
        Stuck(env, P, d, blocks, body, Run(step, At(h, snap), seg[..n]), seg[n..]);
      }
    } else {
      var rest := Cycle(seg, n - |seg|);
      RunAppend(step, At(h, snap), seg, rest);
      RepeatedStateRunsForever(env, P, d, blocks, body, h, snap, seg, m, n - |seg|);
      AcceptedRunFrame(env, P, d, blocks, body, h, snap, m, rest);
    }
  }

  // ---------------------------------------------------------------------------------------------
  // Transparency.

  predicate Inside(site: Site, s: LoopState) {
    s.At? ==> s.block in site.NewBody()
  }

  function SilentIn(site: Site): LoopState -> bool {
    (s: LoopState) => Silent(site, s)
  }

  /** A run of the instrumented loop that neither reports nor is fed wrongly erases to an original run. */
  lemma {:induction false} InstrumentedRunErases(env: Env, P: Program, name: string, d: nat, site: Site, s: LoopState,
                                                 ins: seq<seq<int>>)
    requires Ready(P, name, site) && Inside(site, s)
    ensures var mon, orig := Monitored(env, P, name, d, site), Original(env, P, d, site);
            var e := Run(mon, s, ins);
            e.Reported? || e.Misfed?
                || Erase(d, site, e) == Run(orig, Erase(d, site, s), Keep(mon, SilentIn(site), s, ins))
    decreases |ins|
  {
    var mon, orig := Monitored(env, P, name, d, site), Original(env, P, d, site);
    if ins != [] {
      var s' := mon(s, ins[0]);
      InsideStep(env, P, name, d, site, s, ins[0]);
      if s'.Reported? || s'.Misfed? {
        Stuck(env, Rewritten(P, name, site), d, site.NewBlocks(), site.NewBody(), s', ins[1..]);
      } else {
        InstrumentedRunErases(env, P, name, d, site, s', ins[1..]);
        var rest := Keep(mon, SilentIn(site), s', ins[1..]);
        assert [] + rest == rest && ([ins[0]] + rest)[1..] == rest;
        assert Run(mon, s, ins) == Run(mon, s', ins[1..]);
      }
    }
  }

  lemma InsideStep(env: Env, P: Program, name: string, d: nat, site: Site, s: LoopState, chunk: seq<int>)
    requires Ready(P, name, site) && Inside(site, s)
    ensures var big := Monitored(env, P, name, d, site)(s, chunk);
            && Inside(site, big)
            && (!big.Reported? && !big.Misfed? ==>
                  Erase(d, site, big) ==
                      if Silent(site, s) then Erase(d, site, s)
                          else Original(env, P, d, site)(Erase(d, site, s), chunk))
  {
    ReadyIsShaped(P, name, site);
    if !s.At? {
    } else if s.block == site.decide {
      DecideStep(env, P, name, d, site, s.mem, chunk);
    } else if s.block == site.store {
      StoreStep(env, P, name, d, site, s.mem, chunk);
    } else {
      BodyStep(env, P, name, d, site, s.block, s.mem, chunk);
    }
  }

  // ---------------------------------------------------------------------------------------------
  // What a check sees.

  ghost predicate SameValues(d: nat, site: Site, m1: Memory, m2: Memory) {
    forall c | c in site.mapping :: Get(m1, Cell(d, c.original)) == Get(m2, Cell(d, c.original))
  }

  /** Where the original run stands before its last input. */
  function BeforeLast(env: Env, P: Program, d: nat, site: Site, start: LoopState, hist: seq<seq<int>>): LoopState
    requires hist != []
  {
    Run(Original(env, P, d, site), start, hist[..|hist| - 1])
  }

  /** What the code of the last block makes of its input, up to the terminator. */
  function LastOutcome(env: Env, P: Program, d: nat, site: Site, start: LoopState, hist: seq<seq<int>>): Outcome
    requires hist != []
  {
    var last := BeforeLast(env, P, d, site, start, hist);
    if last.At? && last.block in site.blocks
    then ExecInstrs(env, P, d, site.blocks[last.block].instrs, map[], last.mem, hist[|hist| - 1])
    else Starved
  }

  /** The original run gets to the terminator of a block with an edge to the header. */
  ghost predicate AtCheck(env: Env, P: Program, d: nat, site: Site, start: LoopState, hist: seq<seq<int>>)
    requires site.body <= site.blocks.Keys
  {
    && hist != []
    && var last, e := BeforeLast(env, P, d, site, start, hist), LastOutcome(env, P, d, site, start, hist);
       last.At? && last.block in site.body && IsLatch(site, last.block) && e.Ok? && e.rest == []
  }

  /**
   There, the tracked variables have the values they had at the header after `cut` inputs or, without a
   cut, the values that were stored when the loop was entered.
   */
  ghost predicate Matched(env: Env, P: Program, d: nat, site: Site, start: LoopState, copies: Memory,
                          hist: seq<seq<int>>, cut: Option<nat>)
    requires site.body <= site.blocks.Keys
  {
    && AtCheck(env, P, d, site, start, hist)
    && var now := LastOutcome(env, P, d, site, start, hist).mem;
       match cut
       case None => Stored(copies) && CopiesHold(d, site.mapping, now, copies)
       case Some(c) =>
         && c < |hist|
         && var seen := Run(Original(env, P, d, site), start, hist[..c]);
            seen.At? && seen.block == site.header && SameValues(d, site, seen.mem, now)
  }

  lemma InitOfAppend<T>(a: seq<T>, b: seq<T>)
    requires b != []
    ensures a + b != [] && (a + b)[..|a + b| - 1] == a + b[..|b| - 1] && (a + b)[|a + b| - 1] == b[|b| - 1]
  {
  }

  /** What a check sees depends only on where the run is counted from. */
  lemma AtCheckLater(env: Env, P: Program, d: nat, site: Site, start: LoopState, pre: seq<seq<int>>,
                     hist: seq<seq<int>>)
    requires hist != [] && site.body <= site.blocks.Keys
    ensures var there := Run(Original(env, P, d, site), start, pre);
            && (AtCheck(env, P, d, site, start, pre + hist) <==> AtCheck(env, P, d, site, there, hist))
            && LastOutcome(env, P, d, site, start, pre + hist) == LastOutcome(env, P, d, site, there, hist)
  {
    InitOfAppend(pre, hist);
    RunAppend(Original(env, P, d, site), start, pre, hist[..|hist| - 1]);
  }

  lemma SameHiddenCopies(d: nat, site: Site, m: Memory, a: Memory, b: Memory)
    requires SameHidden(d, site, a, b)
    ensures CopiesHold(d, site.mapping, m, a) <==> CopiesHold(d, site.mapping, m, b)
    ensures Stored(a) <==> Stored(b)
  {
    assert Monitor in Hidden(d, site) && AgreeAt(a, b, Monitor);
    forall c | c in site.mapping ensures Get(a, Local(d, c.slot)) == Get(b, Local(d, c.slot)) {
      assert Local(d, c.slot) in Hidden(d, site) && AgreeAt(a, b, Local(d, c.slot));
    }
  }

  lemma SameHiddenTrans(d: nat, site: Site, a: Memory, b: Memory, c: Memory)
    requires SameHidden(d, site, a, b) && SameHidden(d, site, b, c)
    ensures SameHidden(d, site, a, c)
  {
    forall x | x in Hidden(d, site) ensures AgreeAt(a, c, x) {
      assert AgreeAt(a, b, x) && AgreeAt(b, c, x);
    }
  }

  // ---------------------------------------------------------------------------------------------
  // Every original run survives.

  /** Some check on the way sees the values that were stored when the loop was entered. */
  ghost predicate MeetsStale(env: Env, P: Program, d: nat, site: Site, start: LoopState, copies: Memory,
                             ins: seq<seq<int>>)
    requires site.body <= site.blocks.Keys
  {
    exists k :: 0 < k <= |ins| && Matched(env, P, d, site, start, copies, ins[..k], None)
  }

  /** The instrumented run goes the same way, unreported and without storing. */
  ghost predicate Survives(env: Env, P: Program, name: string, d: nat, site: Site, s: LoopState,
                           ins: seq<seq<int>>, padded: seq<seq<int>>)
    requires IsDefined(P, name)
  {
    var mon := Monitored(env, P, name, d, site);
    var e := Run(mon, s, padded);
    && Keep(mon, SilentIn(site), s, padded) == ins
    && Erase(d, site, e) == Run(Original(env, P, d, site), Erase(d, site, s), ins) && !e.Reported?
    && (e.At? ==> Inside(site, e) && e.block != site.store && SameHidden(d, site, MemoryOf(s), e.mem))
    && (ins == [] ==> padded == [])
    && (ins != [] ==> e.At? ==> e.block != site.header)
  }

  lemma MetLater(env: Env, P: Program, d: nat, site: Site, s: LoopState, chunk: seq<int>, s': LoopState,
                 copies: Memory, copies': Memory, ins: seq<seq<int>>)
    requires site.body <= site.blocks.Keys && SameHidden(d, site, copies, copies')
    requires Original(env, P, d, site)(s, chunk) == s' && MeetsStale(env, P, d, site, s', copies', ins)
    ensures MeetsStale(env, P, d, site, s, copies, [chunk] + ins)
  {
    var k :| 0 < k <= |ins| && Matched(env, P, d, site, s', copies', ins[..k], None);
    var orig := Original(env, P, d, site);
    assert [chunk][1..] == [] && Run(orig, s, [chunk]) == Run(orig, s', [chunk][1..]);
    AtCheckLater(env, P, d, site, s, [chunk], ins[..k]);
    assert ([chunk] + ins)[..k + 1] == [chunk] + ins[..k];
    SameHiddenCopies(d, site, LastOutcome(env, P, d, site, s', ins[..k]).mem, copies, copies');
    assert Matched(env, P, d, site, s, copies, ([chunk] + ins)[..k + 1], None);
  }

  /** A check that receives true at the first block. */
  lemma FiresIsMatched(env: Env, P: Program, d: nat, site: Site, s: LoopState, chunk: seq<int>)
    requires site.body <= site.blocks.Keys && s.At? && s.block in site.body && !Silent(site, s)
    ensures CheckFires(env, P, d, site, s.block, s.mem, chunk)
            <==> Matched(env, P, d, site, Erase(d, site, s), s.mem, [chunk], None)
  {
    assert [chunk][..0] == [];
  }

  /** The run survives, or a check on the way sees what was stored before and reports. */
  ghost predicate GoesThrough(env: Env, P: Program, name: string, d: nat, site: Site, s: LoopState,
                              ins: seq<seq<int>>, padded: seq<seq<int>>)
    requires IsDefined(P, name) && site.body <= site.blocks.Keys
  {
    || Survives(env, P, name, d, site, s, ins, padded)
    || (Run(Monitored(env, P, name, d, site), s, padded).Reported?
        && MeetsStale(env, P, d, site, Erase(d, site, s), MemoryOf(s), ins))
  }

  lemma ThroughDecide(env: Env, P: Program, name: string, d: nat, site: Site, s: LoopState,
                      ins: seq<seq<int>>, rest: seq<seq<int>>)
    requires IsDefined(P, name) && Shaped(site) && s.At? && s.block == site.decide && ins != []
    requires GoesThrough(env, P, name, d, site, At(site.header, s.mem), ins, rest)
    ensures GoesThrough(env, P, name, d, site, s, ins, [[0]] + rest)
  {
    DecideStep(env, P, name, d, site, s.mem, [0]);
    var padded := [[0]] + rest;
    assert padded[1..] == rest && [] + ins == ins;
  }

  /** A block of the loop that leads on inside the loop, unreported. */
  ghost predicate StepsOn(env: Env, P: Program, name: string, d: nat, site: Site, s: LoopState, chunk: seq<int>)
    requires IsDefined(P, name)
  {
    var s' := Monitored(env, P, name, d, site)(s, chunk);
    && s'.At? && Inside(site, s') && s'.block != site.store && s'.block != site.header
    && SameHidden(d, site, MemoryOf(s), s'.mem)
    && Erase(d, site, s') == Original(env, P, d, site)(Erase(d, site, s), chunk)
  }

  lemma NothingToDo(env: Env, P: Program, name: string, d: nat, site: Site, s: LoopState)
    requires IsDefined(P, name) && site.body <= site.blocks.Keys
    requires Inside(site, s) && s.At? && s.block != site.store
    ensures GoesThrough(env, P, name, d, site, s, [], [])
  {
  }

  lemma ThroughStep(env: Env, P: Program, name: string, d: nat, site: Site, s: LoopState, chunk: seq<int>,
                    ins: seq<seq<int>>, rest: seq<seq<int>>)
    requires IsDefined(P, name) && site.body <= site.blocks.Keys && s.At? && !Silent(site, s)
    requires StepsOn(env, P, name, d, site, s, chunk)
    requires GoesThrough(env, P, name, d, site, Monitored(env, P, name, d, site)(s, chunk), ins, rest)
    ensures GoesThrough(env, P, name, d, site, s, [chunk] + ins, [chunk] + rest)
  {
    var s' := Monitored(env, P, name, d, site)(s, chunk);
    if Survives(env, P, name, d, site, s', ins, rest) {
      SurvivesStep(env, P, name, d, site, s, chunk, ins, rest);
    } else {
      ReportedStep(env, P, name, d, site, s, chunk, rest);
      MetLater(env, P, d, site, Erase(d, site, s), chunk, Erase(d, site, s'), s.mem, s'.mem, ins);
    }
  }

  lemma SurvivesStep(env: Env, P: Program, name: string, d: nat, site: Site, s: LoopState, chunk: seq<int>,
                     ins: seq<seq<int>>, rest: seq<seq<int>>)
    requires IsDefined(P, name) && s.At? && !Silent(site, s)
    requires StepsOn(env, P, name, d, site, s, chunk)
    requires Survives(env, P, name, d, site, Monitored(env, P, name, d, site)(s, chunk), ins, rest)
    ensures Survives(env, P, name, d, site, s, [chunk] + ins, [chunk] + rest)
  {
    var mon := Monitored(env, P, name, d, site);
    var s' := mon(s, chunk);
    var e := Run(mon, s', rest);
    assert ([chunk] + rest)[1..] == rest && ([chunk] + ins)[1..] == ins;
    if e.At? {
      SameHiddenTrans(d, site, s.mem, s'.mem, e.mem);
    }
  }

  lemma SurvivesEnd(env: Env, P: Program, name: string, d: nat, site: Site, s: LoopState, chunk: seq<int>,
                    ins: seq<seq<int>>)
    requires IsDefined(P, name) && s.At? && !Silent(site, s)
    requires var s' := Monitored(env, P, name, d, site)(s, chunk);
             && Erase(d, site, s') == Original(env, P, d, site)(Erase(d, site, s), chunk) && !s'.At? && !s'.Reported?
    ensures Survives(env, P, name, d, site, s, [chunk] + ins, [chunk] + ins)
  {
    var s' := Monitored(env, P, name, d, site)(s, chunk);
    EndedRun(env, P, name, d, site, s', ins);
    assert ([chunk] + ins)[1..] == ins;
  }

  lemma EndedRun(env: Env, P: Program, name: string, d: nat, site: Site, s: LoopState, ins: seq<seq<int>>)
    requires IsDefined(P, name) && !s.At?
    ensures Run(Monitored(env, P, name, d, site), s, ins) == s
    ensures Run(Original(env, P, d, site), Erase(d, site, s), ins) == Erase(d, site, s)
    ensures Keep(Monitored(env, P, name, d, site), SilentIn(site), s, ins) == ins
  {
    Stuck(env, Rewritten(P, name, site), d, site.NewBlocks(), site.NewBody(), s, ins);
    Stuck(env, P, d, site.blocks, site.body, Erase(d, site, s), ins);
    KeepAll(env, P, name, d, site, s, ins);
  }

  lemma {:induction false} KeepAll(env: Env, P: Program, name: string, d: nat, site: Site, s: LoopState,
                                   ins: seq<seq<int>>)
    requires IsDefined(P, name) && !s.At?
    ensures Keep(Monitored(env, P, name, d, site), SilentIn(site), s, ins) == ins
    decreases |ins|
  {
    if ins != [] {
      KeepAll(env, P, name, d, site, s, ins[1..]);
    }
  }

  lemma ReportedStep(env: Env, P: Program, name: string, d: nat, site: Site, s: LoopState, chunk: seq<int>,
                     rest: seq<seq<int>>)
    requires IsDefined(P, name)
    ensures Run(Monitored(env, P, name, d, site), s, [chunk] + rest) ==
            Run(Monitored(env, P, name, d, site), Monitored(env, P, name, d, site)(s, chunk), rest)
  {
    assert ([chunk] + rest)[1..] == rest;
  }

  /**
   Never storing, every original run goes through unreported, unless a check on the way sees what was
   stored before the loop was entered.
   */
  lemma {:induction false} EveryRunSurvives(env: Env, P: Program, name: string, d: nat, site: Site, s: LoopState,
                                            ins: seq<seq<int>>)
    returns (padded: seq<seq<int>>)
    requires Ready(P, name, site) && Inside(site, s) && s.At? && s.block != site.store
    ensures GoesThrough(env, P, name, d, site, s, ins, padded)
    decreases |ins|, 1
  {
    if ins == [] {
      padded := [];
      NothingToDo(env, P, name, d, site, s);
    } else {
      ReadyIsShaped(P, name, site);
      if s.block == site.decide {
        var rest := BodyRunSurvives(env, P, name, d, site, At(site.header, s.mem), ins);
        padded := [[0]] + rest;
        ThroughDecide(env, P, name, d, site, s, ins, rest);
      } else {
        padded := BodyRunSurvives(env, P, name, d, site, s, ins);
      }
    }
  }

  /** The same from a block of the original loop. */
  lemma {:induction false} BodyRunSurvives(env: Env, P: Program, name: string, d: nat, site: Site, s: LoopState,
                                           ins: seq<seq<int>>)
    returns (padded: seq<seq<int>>)
    requires Ready(P, name, site) && s.At? && s.block in site.body && ins != []
    ensures GoesThrough(env, P, name, d, site, s, ins, padded)
    decreases |ins|, 0
  {
    padded := StepSurvives(env, P, name, d, site, s, ins);
    if padded == [] {
      var rest := EveryRunSurvives(env, P, name, d, site, Monitored(env, P, name, d, site)(s, ins[0]), ins[1..]);
      padded := [ins[0]] + rest;
      BodyNotSilent(P, name, site, s);
      ThroughStep(env, P, name, d, site, s, ins[0], ins[1..], rest);
      assert [ins[0]] + ins[1..] == ins;
    }
  }

  lemma BodyNotSilent(P: Program, name: string, site: Site, s: LoopState)
    requires Ready(P, name, site) && s.At? && s.block in site.body
    ensures !Silent(site, s) && site.body <= site.blocks.Keys
  {
    ReadyIsShaped(P, name, site);
  }

  /** The next block either goes on inside the loop, and then nothing is returned, or settles the matter. */
  lemma StepSurvives(env: Env, P: Program, name: string, d: nat, site: Site, s: LoopState, ins: seq<seq<int>>)
    returns (padded: seq<seq<int>>)
    requires Ready(P, name, site) && s.At? && s.block in site.body && ins != []
    ensures padded == [] ==> StepsOn(env, P, name, d, site, s, ins[0])
    ensures padded != [] ==> GoesThrough(env, P, name, d, site, s, ins, padded)
  {
    BodyNotSilent(P, name, site, s);
    BodyStep(env, P, name, d, site, s.block, s.mem, ins[0]);
    var s' := Monitored(env, P, name, d, site)(s, ins[0]);
    assert [ins[0]] + ins[1..] == ins;
    padded := [];
    if s'.Reported? {
      padded := [ins[0]] + [];
      ReportedStep(env, P, name, d, site, s, ins[0], []);
      FirstCheckMet(env, P, d, site, s, ins);
    } else if !s'.At? {
      padded := ins;
      SurvivesEnd(env, P, name, d, site, s, ins[0], ins[1..]);
    }
  }

  lemma FirstCheckMet(env: Env, P: Program, d: nat, site: Site, s: LoopState, ins: seq<seq<int>>)
    requires site.body <= site.blocks.Keys && s.At? && s.block in site.body && !Silent(site, s) && ins != []
    requires CheckFires(env, P, d, site, s.block, s.mem, ins[0])
    ensures MeetsStale(env, P, d, site, Erase(d, site, s), s.mem, ins)
  {
    FiresIsMatched(env, P, d, site, s, ins[0]);
    assert ins[..1] == [ins[0]];
    assert Matched(env, P, d, site, Erase(d, site, s), s.mem, ins[..1], None);
  }

  // ---------------------------------------------------------------------------------------------
  // A report means a match.

  /** After `hist` the original run stands where `s` does; what `s` has stored was seen after `cut`, or on entry. */
  ghost predicate Remembers(env: Env, P: Program, d: nat, site: Site, start: LoopState, copies: Memory,
                            s: LoopState, hist: seq<seq<int>>, cut: Option<nat>) {
    var orig := Original(env, P, d, site);
    && s.At? && Run(orig, start, hist) == Erase(d, site, s)
    && match cut
       case None => SameHidden(d, site, copies, s.mem)
       case Some(c) =>
         && c <= |hist|
         && var seen := Run(orig, start, hist[..c]);
            seen.At? && seen.block == site.header && CopiesHold(d, site.mapping, seen.mem, s.mem)
  }

  /** A block of the loop that is not reported. */
  lemma RemembersBody(env: Env, P: Program, d: nat, site: Site, start: LoopState, copies: Memory, s: LoopState,
                      chunk: seq<int>, big: LoopState, hist: seq<seq<int>>, cut: Option<nat>)
    requires Remembers(env, P, d, site, start, copies, s, hist, cut) && big.At?
    requires SameHidden(d, site, s.mem, big.mem)
    requires Erase(d, site, big) == Original(env, P, d, site)(Erase(d, site, s), chunk)
    ensures Remembers(env, P, d, site, start, copies, big, hist + [chunk], cut)
  {
    RunSnoc(Original(env, P, d, site), start, hist, chunk);
    match cut {
      case None => SameHiddenTrans(d, site, copies, s.mem, big.mem);
      case Some(c) =>
        assert (hist + [chunk])[..c] == hist[..c];
        SameHiddenCopies(d, site, Run(Original(env, P, d, site), start, hist[..c]).mem, s.mem, big.mem);
    }
  }

  /** A block of the loop whose check receives true. */
  lemma RemembersReport(env: Env, P: Program, d: nat, site: Site, start: LoopState, copies: Memory, s: LoopState,
                        chunk: seq<int>, hist: seq<seq<int>>, cut: Option<nat>)
    requires Remembers(env, P, d, site, start, copies, s, hist, cut)
    requires site.body <= site.blocks.Keys && s.block in site.body && s.block != site.decide && s.block != site.store
    requires CheckFires(env, P, d, site, s.block, s.mem, chunk)
    ensures Matched(env, P, d, site, start, copies, hist + [chunk], cut)
  {
    var all := hist + [chunk];
    assert all[..|all| - 1] == hist;
    var now := LastOutcome(env, P, d, site, start, all).mem;
    match cut {
      case None => SameHiddenCopies(d, site, now, copies, s.mem);
      case Some(c) =>
        assert all[..c] == hist[..c];
    }
  }

  lemma RemembersStep(env: Env, P: Program, name: string, d: nat, site: Site, start: LoopState, copies: Memory,
                      s: LoopState,
                      chunk: seq<int>, hist: seq<seq<int>>, cut: Option<nat>)
    returns (hist': seq<seq<int>>, cut': Option<nat>)
    requires Ready(P, name, site) && Inside(site, s) && Remembers(env, P, d, site, start, copies, s, hist, cut)
    ensures var big := Monitored(env, P, name, d, site)(s, chunk);
            && (big.At? ==> Remembers(env, P, d, site, start, copies, big, hist', cut'))
            && (big.Reported? ==> Matched(env, P, d, site, start, copies, hist', cut'))
  {
    var big := Monitored(env, P, name, d, site)(s, chunk);
    hist', cut' := hist, cut;
    ReadyIsShaped(P, name, site);
    if s.block == site.decide {
      DecideStep(env, P, name, d, site, s.mem, chunk);
    } else if s.block == site.store {
      StoreStep(env, P, name, d, site, s.mem, chunk);
      assert hist[..|hist|] == hist;
      cut' := Some(|hist|);
    } else {
      BodyStep(env, P, name, d, site, s.block, s.mem, chunk);
      hist' := hist + [chunk];
      if big.At? {
        RemembersBody(env, P, d, site, start, copies, s, chunk, big, hist, cut);
      } else if big.Reported? {
        RemembersReport(env, P, d, site, start, copies, s, chunk, hist, cut);
      }
    }
  }

  /** A report means a match, whatever the back edges look like and whatever was stored before. */
  lemma {:induction false} ReportIsMatched(env: Env, P: Program, name: string, d: nat, site: Site, start: LoopState,
                                           copies: Memory,
                                           s: LoopState, ins: seq<seq<int>>, hist: seq<seq<int>>, cut: Option<nat>)
    returns (hist': seq<seq<int>>, cut': Option<nat>)
    requires Ready(P, name, site) && Inside(site, s) && Remembers(env, P, d, site, start, copies, s, hist, cut)
    requires Run(Monitored(env, P, name, d, site), s, ins).Reported?
    ensures Matched(env, P, d, site, start, copies, hist', cut')
    decreases |ins|
  {
    var mon := Monitored(env, P, name, d, site);
    var s' := mon(s, ins[0]);
    InsideStep(env, P, name, d, site, s, ins[0]);
    hist', cut' := RemembersStep(env, P, name, d, site, start, copies, s, ins[0], hist, cut);
    if s'.At? {
      hist', cut' := ReportIsMatched(env, P, name, d, site, start, copies, s', ins[1..], hist', cut');
    } else {
      Stuck(env, Rewritten(P, name, site), d, site.NewBlocks(), site.NewBody(), s', ins[1..]);
    }
  }

  // ---------------------------------------------------------------------------------------------
  // A match means a report.

  /** A run that stands in front of a block whose check receives true. */
  lemma LastStepReports(env: Env, P: Program, name: string, d: nat, site: Site, s: LoopState, chunk: seq<int>)
    returns (ins: seq<seq<int>>)
    requires Ready(P, name, site) && Inside(site, s) && s.At? && s.block != site.store
    requires Matched(env, P, d, site, Erase(d, site, s), s.mem, [chunk], None)
    ensures Run(Monitored(env, P, name, d, site), s, ins).Reported?
  {
    ReadyIsShaped(P, name, site);
    var here := if s.block == site.decide then At(site.header, s.mem) else s;
    FiresIsMatched(env, P, d, site, here, chunk);
    BodyStep(env, P, name, d, site, here.block, s.mem, chunk);
    ReportedStep(env, P, name, d, site, here, chunk, []);
    ins := [chunk] + [];
    if s.block == site.decide {
      DecideStep(env, P, name, d, site, s.mem, [0]);
      ReportedStep(env, P, name, d, site, s, [0], ins);
      ins := [[0]] + ins;
    }
  }

  /** What a survived run has yet to see: the rest of the match. */
  lemma SurvivedMatch(env: Env, P: Program, name: string, d: nat, site: Site, s: LoopState,
                      before: seq<seq<int>>, padded: seq<seq<int>>, chunk: seq<int>)
    requires IsDefined(P, name) && site.body <= site.blocks.Keys && s.At?
    requires Survives(env, P, name, d, site, s, before, padded)
    requires Matched(env, P, d, site, Erase(d, site, s), s.mem, before + [chunk], None)
    ensures var e := Run(Monitored(env, P, name, d, site), s, padded);
            && e.At? && Inside(site, e) && e.block != site.store
            && Matched(env, P, d, site, Erase(d, site, e), e.mem, [chunk], None)
  {
    AtCheckLater(env, P, d, site, Erase(d, site, s), before, [chunk]);
    var e := Run(Monitored(env, P, name, d, site), s, padded);
    assert e.At? by {
      assert Erase(d, site, e) == BeforeLast(env, P, d, site, Erase(d, site, e), [chunk]) by {
        assert [chunk][..0] == [];
      }
    }
    var now := LastOutcome(env, P, d, site, Erase(d, site, e), [chunk]).mem;
    SameHiddenCopies(d, site, now, s.mem, e.mem);
  }

  /** Without storing any more, a match with what is stored now is reported. */
  lemma StaleIsReported(env: Env, P: Program, name: string, d: nat, site: Site, s: LoopState, hist: seq<seq<int>>)
    returns (ins: seq<seq<int>>)
    requires Ready(P, name, site) && Inside(site, s) && s.At? && s.block != site.store
    requires Matched(env, P, d, site, Erase(d, site, s), s.mem, hist, None)
    ensures Run(Monitored(env, P, name, d, site), s, ins).Reported?
  {
    var before, chunk := hist[..|hist| - 1], hist[|hist| - 1];
    assert before + [chunk] == hist;
    ins := EveryRunSurvives(env, P, name, d, site, s, before);
    if Survives(env, P, name, d, site, s, before, ins) {
      SurvivedMatch(env, P, name, d, site, s, before, ins, chunk);
      var last := LastStepReports(env, P, name, d, site, Run(Monitored(env, P, name, d, site), s, ins), chunk);
      RunAppend(Monitored(env, P, name, d, site), s, ins, last);
      ins := ins + last;
    }
  }

  /** Storing at the deciding block, and then a match with the values there. */
  lemma StoreThenReport(env: Env, P: Program, name: string, d: nat, site: Site, now: Memory, hist: seq<seq<int>>)
    returns (ins: seq<seq<int>>)
    requires Ready(P, name, site)
    requires Matched(env, P, d, site, At(site.header, now - Hidden(d, site)), now, hist, Some(0))
    ensures Run(Monitored(env, P, name, d, site), At(site.decide, now), ins).Reported?
  {
    ReadyIsShaped(P, name, site);
    DecideStep(env, P, name, d, site, now, [1]);
    StoreStep(env, P, name, d, site, now, []);
    var stored := Monitored(env, P, name, d, site)(At(site.store, now), []);
    assert hist[..0] == [];
    assert Erase(d, site, stored) == At(site.header, now - Hidden(d, site));
    var rest := StaleIsReported(env, P, name, d, site, stored, hist);
    ReportedStep(env, P, name, d, site, At(site.store, now), [], rest);
    ReportedStep(env, P, name, d, site, At(site.decide, now), [1], [[]] + rest);
    ins := [[1]] + ([[]] + rest);
  }

  /** A match counted from its cut. */
  lemma CutMatch(env: Env, P: Program, d: nat, site: Site, start: LoopState, copies: Memory,
                 hist: seq<seq<int>>, c: nat, now: Memory)
    requires site.body <= site.blocks.Keys && Matched(env, P, d, site, start, copies, hist, Some(c))
    requires Run(Original(env, P, d, site), start, hist[..c]) == At(site.header, now - Hidden(d, site))
    ensures Matched(env, P, d, site, At(site.header, now - Hidden(d, site)), now, hist[c..], Some(0))
  {
    var pre, seg := hist[..c], hist[c..];
    assert pre + seg == hist && seg[..0] == [];
    AtCheckLater(env, P, d, site, start, pre, seg);
  }

  /** A run that has survived up to the header stands at the deciding block. */
  lemma SurvivedToHeader(env: Env, P: Program, name: string, d: nat, site: Site, m0: Memory,
                         pre: seq<seq<int>>, padded: seq<seq<int>>)
    requires IsDefined(P, name) && Shaped(site)
    requires Survives(env, P, name, d, site, At(site.decide, m0), pre, padded)
    requires var seen := Run(Original(env, P, d, site), At(site.header, m0 - Hidden(d, site)), pre);
             seen.At? && seen.block == site.header
    ensures var there := Run(Monitored(env, P, name, d, site), At(site.decide, m0), padded);
            && there.At? && there.block == site.decide
            && Run(Original(env, P, d, site), At(site.header, m0 - Hidden(d, site)), pre)
               == At(site.header, there.mem - Hidden(d, site))
  {
  }

  /** Every match of an original run can be reported: by storing at its cut, or not at all. */
  lemma MatchIsReported(env: Env, P: Program, name: string, d: nat, site: Site, m0: Memory,
                        hist: seq<seq<int>>, cut: Option<nat>) returns (ins: seq<seq<int>>)
    requires Ready(P, name, site)
    requires Matched(env, P, d, site, At(site.header, m0 - Hidden(d, site)), m0, hist, cut)
    ensures Run(Monitored(env, P, name, d, site), At(site.decide, m0), ins).Reported?
  {
    ReadyIsShaped(P, name, site);
    if cut.None? {
      ins := StaleIsReported(env, P, name, d, site, At(site.decide, m0), hist);
    } else {
      var pre := hist[..cut.value];
      ins := EveryRunSurvives(env, P, name, d, site, At(site.decide, m0), pre);
      if Survives(env, P, name, d, site, At(site.decide, m0), pre, ins) {
        SurvivedToHeader(env, P, name, d, site, m0, pre, ins);
        var there := Run(Monitored(env, P, name, d, site), At(site.decide, m0), ins);
        CutMatch(env, P, d, site, At(site.header, m0 - Hidden(d, site)), m0, hist, cut.value, there.mem);
        var tail := StoreThenReport(env, P, name, d, site, there.mem, hist[cut.value..]);
        RunAppend(Monitored(env, P, name, d, site), At(site.decide, m0), ins, tail);
        ins := ins + tail;
      }
    }
  }

  ghost predicate CanReport(env: Env, P: Program, name: string, d: nat, site: Site, m0: Memory)
    requires IsDefined(P, name)
  {
    exists ins :: Run(Monitored(env, P, name, d, site), At(site.decide, m0), ins).Reported?
  }

  ghost predicate CanMatch(env: Env, P: Program, d: nat, site: Site, m0: Memory)
    requires site.body <= site.blocks.Keys
  {
    exists hist, cut :: Matched(env, P, d, site, At(site.header, m0 - Hidden(d, site)), m0, hist, cut)
  }

  lemma StartRemembered(env: Env, P: Program, d: nat, site: Site, m0: Memory)
    requires site.decide !in site.body
    ensures Remembers(env, P, d, site, At(site.header, m0 - Hidden(d, site)), m0, At(site.decide, m0), [], None)
  {
    assert Erase(d, site, At(site.decide, m0)) == At(site.header, m0 - Hidden(d, site));
  }

  /** For every accepted loop and every state it is entered in, exactly the matches can be reported. */
  lemma ReportsIffMatches(env: Env, P: Program, name: string, d: nat, site: Site, m0: Memory)
    requires Ready(P, name, site)
    ensures CanReport(env, P, name, d, site, m0) <==> CanMatch(env, P, d, site, m0)
  {
    var start := At(site.header, m0 - Hidden(d, site));
    ReadyIsShaped(P, name, site);
    if CanReport(env, P, name, d, site, m0) {
      var ins :| Run(Monitored(env, P, name, d, site), At(site.decide, m0), ins).Reported?;
      StartRemembered(env, P, d, site, m0);
      var hist, cut := ReportIsMatched(env, P, name, d, site, start, m0, At(site.decide, m0), ins, [], None);
    }
    if CanMatch(env, P, d, site, m0) {
      var hist, cut :| Matched(env, P, d, site, start, m0, hist, cut);
      var ins := MatchIsReported(env, P, name, d, site, m0, hist, cut);
    }
  }

  // ---------------------------------------------------------------------------------------------
  // Which reports show that the loop can run forever.

  /** The tracked variables exist. */
  ghost predicate Allocated(P: Program, d: nat, site: Site, m: Memory)
    requires site.body <= site.blocks.Keys
  {
    forall a | a in TrackedCells(P, d, site.blocks, site.body) :: a in m
  }

  lemma SameValuesAgree(P: Program, name: string, d: nat, site: Site, m1: Memory, m2: Memory)
    requires Ready(P, name, site)
    ensures Agree(TrackedCells(P, d, site.blocks, site.body), m1, m2) ==> SameValues(d, site, m1, m2)
    ensures Allocated(P, d, site, m1) && Allocated(P, d, site, m2) && SameValues(d, site, m1, m2) ==>
              Agree(TrackedCells(P, d, site.blocks, site.body), m1, m2)
  {
    SiteFacts(P, name, d, site);
    if SameValues(d, site, m1, m2) && Allocated(P, d, site, m1) && Allocated(P, d, site, m2) {
      forall a | a in TrackedCells(P, d, site.blocks, site.body) ensures AgreeAt(m1, m2, a) {
        var v :| v in LoopUses(P, site.blocks, site.body) && a == Cell(d, v);
        var c :| c in site.mapping && c.original == v;
      }
    }
    if Agree(TrackedCells(P, d, site.blocks, site.body), m1, m2) {
      forall c | c in site.mapping ensures Get(m1, Cell(d, c.original)) == Get(m2, Cell(d, c.original)) {
        assert AgreeAt(m1, m2, Cell(d, c.original));
      }
    }
  }

  lemma StartAllocated(P: Program, name: string, d: nat, site: Site, m0: Memory)
    requires Ready(P, name, site) && Allocated(P, d, site, m0)
    ensures Allocated(P, d, site, m0 - Hidden(d, site))
  {
    SiteFacts(P, name, d, site);
    forall a | a in TrackedCells(P, d, site.blocks, site.body) ensures a in m0 - Hidden(d, site) {
      assert a !in Hidden(d, site);
    }
  }

  /** An original run that passes the header twice with the same tracked values. */
  ghost predicate Repeats(env: Env, P: Program, d: nat, site: Site, start: LoopState,
                          pre: seq<seq<int>>, snap: Memory, seg: seq<seq<int>>, m: Memory)
    requires site.body <= site.blocks.Keys
  {
    var orig := Original(env, P, d, site);
    && seg != []
    && Run(orig, start, pre) == At(site.header, snap)
    && Run(orig, At(site.header, snap), seg) == At(site.header, m)
    && Agree(TrackedCells(P, d, site.blocks, site.body), snap, m)
  }

  ghost predicate CanRepeat(env: Env, P: Program, d: nat, site: Site, m0: Memory)
    requires site.body <= site.blocks.Keys
  {
    exists pre, snap, seg, m :: Repeats(env, P, d, site, At(site.header, m0 - Hidden(d, site)), pre, snap, seg, m)
  }

  /** The edge taken behind the check leads back to the header. */
  ghost predicate GoesRound(env: Env, P: Program, d: nat, site: Site, start: LoopState, hist: seq<seq<int>>) {
    var r := Run(Original(env, P, d, site), start, hist);
    r.At? && r.block == site.header
  }

  /** A check sees a former state of this loop again, but the edge behind it does not lead back. */
  ghost predicate CanTurnAway(env: Env, P: Program, d: nat, site: Site, m0: Memory)
    requires site.body <= site.blocks.Keys
  {
    var start := At(site.header, m0 - Hidden(d, site));
    exists hist, c :: Matched(env, P, d, site, start, m0, hist, Some(c)) && !GoesRound(env, P, d, site, start, hist)
  }

  /** A check sees a state that was stored before this loop was entered. */
  ghost predicate CanMeetStale(env: Env, P: Program, d: nat, site: Site, m0: Memory)
    requires site.body <= site.blocks.Keys
  {
    exists hist :: Matched(env, P, d, site, At(site.header, m0 - Hidden(d, site)), m0, hist, None)
  }

  /** What the code of a block leaves in memory is there when the edge has been taken. */
  lemma MatchedMemory(env: Env, P: Program, d: nat, site: Site, start: LoopState, hist: seq<seq<int>>)
    requires site.body <= site.blocks.Keys && AtCheck(env, P, d, site, start, hist)
    ensures var r := Run(Original(env, P, d, site), start, hist);
            r.At? ==> r.mem == LastOutcome(env, P, d, site, start, hist).mem
  {
    var before, chunk := hist[..|hist| - 1], hist[|hist| - 1];
    assert before + [chunk] == hist;
    RunSnoc(Original(env, P, d, site), start, before, chunk);
    var last := BeforeLast(env, P, d, site, start, hist);
    OriginalStep(env, P, d, site, last.block, last.mem, chunk);
  }

  /** A match that goes round is a repeated state. */
  lemma RoundIsRepeat(env: Env, P: Program, name: string, d: nat, site: Site, e0: Memory, copies: Memory,
                      hist: seq<seq<int>>, c: nat)
    returns (pre: seq<seq<int>>, snap: Memory, seg: seq<seq<int>>, m: Memory)
    requires Ready(P, name, site) && Allocated(P, d, site, e0)
    requires Matched(env, P, d, site, At(site.header, e0), copies, hist, Some(c))
    requires GoesRound(env, P, d, site, At(site.header, e0), hist)
    ensures Repeats(env, P, d, site, At(site.header, e0), pre, snap, seg, m)
  {
    var orig, start := Original(env, P, d, site), At(site.header, e0);
    MatchedMemory(env, P, d, site, start, hist);
    pre, seg := hist[..c], hist[c..];
    snap, m := MemoryOf(Run(orig, start, pre)), MemoryOf(Run(orig, start, hist));
    assert pre + seg == hist;
    RunAppend(orig, start, pre, seg);
    AcceptedRunFrame(env, P, d, site.blocks, site.body, site.header, e0, e0, pre);
    AcceptedRunFrame(env, P, d, site.blocks, site.body, site.header, e0, e0, hist);
    SameValuesAgree(P, name, d, site, snap, m);
  }

  /** The step that comes back to the header gets past a check. */
  lemma LastStepChecked(env: Env, P: Program, d: nat, site: Site, start: LoopState, seg: seq<seq<int>>, m: Memory)
    requires site.body <= site.blocks.Keys && seg != []
    requires start.At? ==> start.block in site.body
    requires Run(Original(env, P, d, site), start, seg) == At(site.header, m)
    ensures AtCheck(env, P, d, site, start, seg) && LastOutcome(env, P, d, site, start, seg).mem == m
  {
    var orig := Original(env, P, d, site);
    var before, chunk := seg[..|seg| - 1], seg[|seg| - 1];
    assert before + [chunk] == seg;
    RunSnoc(orig, start, before, chunk);
    var last := Run(orig, start, before);
    StaysInside(env, P, d, site, start, before);
    OriginalStep(env, P, d, site, last.block, last.mem, chunk);
    var e, t := LastOutcome(env, P, d, site, start, seg), site.blocks[last.block].term;
    EdgeCounted(t.succs, site.header, Pick(Reading(e.regs, t.cond), |t.succs|));
  }

  lemma {:induction false} StaysInside(env: Env, P: Program, d: nat, site: Site, s: LoopState, ins: seq<seq<int>>)
    requires s.At? ==> s.block in site.body
    ensures var r := Run(Original(env, P, d, site), s, ins); r.At? ==> r.block in site.body
    decreases |ins|
  {
    if ins != [] {
      StaysInside(env, P, d, site, Original(env, P, d, site)(s, ins[0]), ins[1..]);
    }
  }

  /** A repeated state is a match. */
  lemma RepeatIsMatched(env: Env, P: Program, name: string, d: nat, site: Site, start: LoopState, copies: Memory,
                        pre: seq<seq<int>>, snap: Memory, seg: seq<seq<int>>, m: Memory)
    requires Ready(P, name, site) && Repeats(env, P, d, site, start, pre, snap, seg, m)
    ensures Matched(env, P, d, site, start, copies, pre + seg, Some(|pre|))
  {
    AtCheckLater(env, P, d, site, start, pre, seg);
    LastStepChecked(env, P, d, site, At(site.header, snap), seg, m);
    SameValuesAgree(P, name, d, site, snap, m);
    assert (pre + seg)[..|pre|] == pre;
  }

  /** Completeness: if an original run repeats a state, some choice of when to store makes a check report. */
  lemma RepeatMeansReport(env: Env, P: Program, name: string, d: nat, site: Site, m0: Memory,
                          pre: seq<seq<int>>, snap: Memory, seg: seq<seq<int>>, m: Memory) returns (ins: seq<seq<int>>)
    requires Ready(P, name, site)
    requires Repeats(env, P, d, site, At(site.header, m0 - Hidden(d, site)), pre, snap, seg, m)
    ensures Run(Monitored(env, P, name, d, site), At(site.decide, m0), ins).Reported?
  {
    RepeatIsMatched(env, P, name, d, site, At(site.header, m0 - Hidden(d, site)), m0, pre, snap, seg, m);
    ins := MatchIsReported(env, P, name, d, site, m0, pre + seg, Some(|pre|));
  }

  /**
   Exactly when there can be a report, for every accepted loop and every state it is entered in: the
   original loop can repeat a state at its header, or one of two things that may be false alarms.
   */
  lemma ReportsExactly(env: Env, P: Program, name: string, d: nat, site: Site, m0: Memory)
    requires Ready(P, name, site) && Allocated(P, d, site, m0)
    ensures CanReport(env, P, name, d, site, m0) <==>
            || CanRepeat(env, P, d, site, m0)
            || CanTurnAway(env, P, d, site, m0)
            || CanMeetStale(env, P, d, site, m0)
  {
    var e0 := m0 - Hidden(d, site);
    var start := At(site.header, e0);
    ReportsIffMatches(env, P, name, d, site, m0);
    if CanMatch(env, P, d, site, m0) {
      var hist, cut :| Matched(env, P, d, site, start, m0, hist, cut);
      if cut.Some? && GoesRound(env, P, d, site, start, hist) {
        StartAllocated(P, name, d, site, m0);
        var pre, snap, seg, m := RoundIsRepeat(env, P, name, d, site, e0, m0, hist, cut.value);
      }
    }
    if CanRepeat(env, P, d, site, m0) {
      var pre, snap, seg, m :| Repeats(env, P, d, site, start, pre, snap, seg, m);
      RepeatIsMatched(env, P, name, d, site, start, m0, pre, snap, seg, m);
    }
  }

  /** Every block that leads back to the header can go nowhere else. */
  ghost predicate UnconditionalLatches(site: Site) {
    forall l, t | l in site.body && l in site.blocks && IsLatch(site, l) && t in Succs(site.blocks[l].term) ::
        t == site.header
  }

  /** Behind an unconditional back edge nothing turns away. */
  lemma UnconditionalGoesRound(env: Env, P: Program, d: nat, site: Site, start: LoopState, hist: seq<seq<int>>)
    requires site.header in site.body && site.body <= site.blocks.Keys && UnconditionalLatches(site)
    requires AtCheck(env, P, d, site, start, hist)
    ensures GoesRound(env, P, d, site, start, hist)
  {
    var before, chunk := hist[..|hist| - 1], hist[|hist| - 1];
    assert before + [chunk] == hist;
    RunSnoc(Original(env, P, d, site), start, before, chunk);
    var last := BeforeLast(env, P, d, site, start, hist);
    OriginalStep(env, P, d, site, last.block, last.mem, chunk);
    var e, t := LastOutcome(env, P, d, site, start, hist), site.blocks[last.block].term;
    assert t.Branch? && t.succs != [];
    assert t.succs[Pick(Reading(e.regs, t.cond), |t.succs|)] in Succs(t);
  }

  /**
   With unconditional back edges and nothing stored on entry, the instrumented loop can report exactly
   when the original loop can pass its header twice with the same tracked values.
   */
  lemma ReportsIffRepeats(env: Env, P: Program, name: string, d: nat, site: Site, m0: Memory)
    requires Ready(P, name, site) && Allocated(P, d, site, m0)
    requires UnconditionalLatches(site) && !Stored(m0)
    ensures CanReport(env, P, name, d, site, m0) <==> CanRepeat(env, P, d, site, m0)
  {
    ReportsExactly(env, P, name, d, site, m0);
    if CanTurnAway(env, P, d, site, m0) {
      var start := At(site.header, m0 - Hidden(d, site));
      var hist, c :| Matched(env, P, d, site, start, m0, hist, Some(c)) && !GoesRound(env, P, d, site, start, hist);
      UnconditionalGoesRound(env, P, d, site, start, hist);
      assert false;
    }
  }

  /** The original loop, entered in the same state, can come back to its header and from there run forever. */
  ghost predicate CanRunForever(env: Env, P: Program, d: nat, site: Site, m0: Memory) {
    var orig := Original(env, P, d, site);
    exists pre, seg :: seg != []
        && RunsForever(env, P, d, site, Run(orig, At(site.header, m0 - Hidden(d, site)), pre), seg)
  }

  ghost predicate RunsForever(env: Env, P: Program, d: nat, site: Site, there: LoopState, seg: seq<seq<int>>)
    requires seg != []
  {
    there.At? && there.block == site.header
        && forall n: nat :: Run(Original(env, P, d, site), there, Cycle(seg, n)).At?
  }

  /** A state repeated once is repeated forever. */
  lemma RepeatMeansNontermination(env: Env, P: Program, name: string, d: nat, site: Site, m0: Memory)
    requires Ready(P, name, site) && CanRepeat(env, P, d, site, m0)
    ensures CanRunForever(env, P, d, site, m0)
  {
    var start := At(site.header, m0 - Hidden(d, site));
    var pre, snap, seg, m :| Repeats(env, P, d, site, start, pre, snap, seg, m);
    forall n: nat ensures Run(Original(env, P, d, site), At(site.header, snap), Cycle(seg, n)).At? {
      RepeatedStateRunsForever(env, P, d, site.blocks, site.body, site.header, snap, seg, m, n);
    }
    assert RunsForever(env, P, d, site, Run(Original(env, P, d, site), start, pre), seg);
  }

  /**
   Soundness: a report means that the original loop can run forever, if no check can see a state of this
   loop and turn away, or a state stored before it. Unconditional back edges and an entry with nothing
   stored are enough for that.
   */
  lemma ReportMeansNontermination(env: Env, P: Program, name: string, d: nat, site: Site, m0: Memory)
    requires Ready(P, name, site) && Allocated(P, d, site, m0) && CanReport(env, P, name, d, site, m0)
    ensures || CanRunForever(env, P, d, site, m0)
            || CanTurnAway(env, P, d, site, m0)
            || CanMeetStale(env, P, d, site, m0)
    ensures UnconditionalLatches(site) && !Stored(m0) ==> CanRunForever(env, P, d, site, m0)
  {
    ReportsExactly(env, P, name, d, site, m0);
    if UnconditionalLatches(site) && !Stored(m0) {
      ReportsIffRepeats(env, P, name, d, site, m0);
    }
    if CanRepeat(env, P, d, site, m0) {
      RepeatMeansNontermination(env, P, name, d, site, m0);
    }
  }
}
