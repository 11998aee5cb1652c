# Models of Symbiotic's transformations, calendar, location maps and parsers

Symbiotic rewrites a program before it is verified, validates witnesses against the rewritten text,
and brings its own C library functions. This project models the parts of it where a mistake would
silently change a verdict, and proves what they keep.

**Nontermination checks** (`Ir`, `WitchFrame`, `WitchCheck`, `WitchInstrument`, `WitchMonitor`,
`WitchTheorems`, `WitchEmptyLoop`, `WitchLimits`). A small imperative language with calls, stack slots, globals and
nondeterministic inputs. The pass scans a loop and everything it can call, copies the variables it
found, and compares them with their copies before every edge back to the header. Proved: the scan ends
on every call graph, accepts exactly the loops from which no recursion, no call through a pointer and
no unknown memory access can be reached, and records exactly the variables that such a loop uses; an accepted loop depends on and changes nothing but the tracked
variables; the instrumented loop erases to the original one; and for every accepted loop, whatever its back
edges and whatever was stored before, it can report exactly if a check can see values that the original run
had at the header before, or that were stored on entry. With unconditional back edges and nothing stored on
entry that is so if and only if the original loop can come back to its header with the same values, from
where it has an infinite run.

**Control-flow passes** (`Cfg`, `Runs`, `RemoveInfiniteLoops`, `BreakInfiniteLoops`, `Unrolling`,
`UnrollingNest`, `FlattenLoops`). Labelled blocks, a semantics of original instructions and branches given as a
parameter, one input per block executed. Each pass is a method that rewrites the graph in place, proved
to produce a graph described by a predicate; theorems about that predicate say how runs of the new
graph and of the old one correspond, for every semantics, state and sequence of inputs.

**Constant expressions** (`RemoveConstantExprs`). The worklist pass, its termination, and an inverse of
it from which the equality of all runs follows.

**Calendar** (`Calendar`, `MkTime`). `__time_to_tm` and `__tm_to_time` with C's rounding, the mixture of
signed and unsigned 32-bit arithmetic and the wrap-around written out, against a calendar that counts
years, months and weekdays one by one.

**Locations** (`SourceShift`). The requests for insertions, the text they make, the table that records
them, the way from original columns to new ones and the way back.

**Parsers** (`StrToUl`). `strtoul` and `strtoull` on NUL-terminated buffers in every base, against the
longest subject sequence of section 7.22.1.4 of ISO C11.

## What does not hold

Each of these is a theorem: the exact condition, or an input that shows it.

- The month table of `__tm_to_time` has 335 for December, where 334 days precede it. Every December
  date converts to a day too late, so the round trip is right exactly for the other months
  (`ConversionRightIff`, `RoundTrip`, `Mktime`, `MktimeTwice`).
- The product `year400*DAYS_PER_400Y` leaves an int for the lowest days of the range (`OverflowIff`); with
  wrap-around the reduced day is right all the same (`ReducedDay`).
- A nontermination check in front of a conditional back edge can report a loop that ends
  (`ConditionalLatchFalseReport`). One mark for the whole program says that something is stored, and a loop
  entered later compares with copies it has not made (`StaleStoreFalseReport`). Every other report shows a
  repeated state (`ReportsExactly`).
- A loop without variables is marked as infinite even if it ends the program in its first round
  (`ExitingLoopMarked`). The mark is right exactly if some run from the header stays inside for as many steps
  as the loop has blocks (`EmptyLoopExactly`).
- A global read only through a constant address expression, and everything read by a function whose name
  starts like `exit`, is not tracked (`ConstantAddressUntracked`, `ExemptNameUntracked`).
- Flattening loses every edge to the parent header that is taken with the flag set, and nothing else
  (`PreservedIffNeverStrays`): an edge from inside the inner loop (`ContinueStrays`), a jump around it
  (`JumpAroundStrays`), and the way around by a block that does not reset the flag (`WayAroundStrays`).
- A limit on the unrolling of an outer loop is not kept if its inner loop was unrolled before: the copies of
  the inner loop are no part of the outer one for the pass, and lead back into its first copy
  (`OuterEnteredTwice`, `OuterLimitNotKept`). What a limit does keep and cut, for any loop, is
  `BoundedUnrollingExact`: it counts back edges in a row without a step outside the listed blocks.
- `shift_back` fails if there is no error location, which is so for a witness with a cycle; the
  locations of the calls have been moved by then (`Writer.ShiftBack`).
- `strtoul` finds no number in "0x" without a hexadecimal digit after it, and `strtoull` in base 0 finds
  none in a zero without an octal digit after it, "0" included (`LongMeetsIff`, `LongLongMeetsIff`).
  Everywhere else they agree (`ParsersAgreeIff`).

## Model

| member | source | states |
|---|---|---|
| WitchCheck.CheckOperand | transforms/WitchInstrumentNontermination.cpp:42-59 | known operands are stack slots, globals and constants; only globals and the loop's own slots are recorded |
| WitchCheck.CheckInstruction | transforms/WitchInstrumentNontermination.cpp:195-221 | accepts calls, loads, stores and instructions without memory access as their parts are accepted, and records what they use |
| WitchCheck.CheckFunction | transforms/WitchInstrumentNontermination.cpp:137-174 | ends on every call graph; refuses a missing callee and a function that is already active; records what the body uses |
| WitchCheck.CheckLoop | transforms/WitchInstrumentNontermination.cpp:176-193 | accepts exactly the accepted loops, and records exactly the variables they use |
| WitchCheck.LoopUsesExactly | transforms/WitchInstrumentNontermination.cpp:42-59 | a variable is recorded if and only if a load or store of the loop itself names it, a slot or a global, or it is a global that one of a function looked into names; slots of those functions never are |
| WitchCheck.ExemptFamilies | transforms/WitchInstrumentNontermination.cpp:143-155 | nine of the exempt names stand for everything that starts like them; assume and assert for themselves only |
| WitchCheck.PathAccepted | transforms/WitchInstrumentNontermination.cpp:137-174 | along every call path from an accepted function no function is active twice and all code is known |
| WitchCheck.AcceptedIfPathsEndWell | transforms/WitchInstrumentNontermination.cpp:137-174 | a function is accepted if that is so on every call path |
| WitchCheck.AcceptedIffNoBadPath | transforms/WitchInstrumentNontermination.cpp:137-221 | a loop is accepted if and only if no call path from it reaches recursion, a call through a pointer or an unknown memory access |
| WitchCheck.AcceptedIsNamed | transforms/WitchInstrumentNontermination.cpp:143-221 | all code an accepted loop can reach, by way of exempt functions with a body too, names only the tracked globals and its own slots; what is assumed of unscanned functions is that their own code does |
| WitchCheck.OwnFunctionNotReached | transforms/WitchInstrumentNontermination.cpp:137-174 | an accepted loop cannot reach the function it is in by calls that the scan follows |
| WitchInstrument.FunctionBody.CreateCopies | transforms/WitchInstrumentNontermination.cpp:240-269 | every tracked variable gets a stack slot of its own, new to the function |
| WitchInstrument.FunctionBody.InsertChecks | transforms/WitchInstrumentNontermination.cpp:322-377 | in front of each terminator of the loop one comparison with a check for each edge to the header, and nothing else |
| WitchInstrument.FunctionBody.RedirectEdges | transforms/WitchInstrumentNontermination.cpp:230-238 | the remembered edges, all those to the header, now lead to the deciding block |
| WitchInstrument.FunctionBody.InstrumentEmptyLoop | transforms/WitchInstrumentNontermination.cpp:395-420 | the mark is put in front of the header's code, and nothing else changes |
| WitchInstrument.FunctionBody.Instrument | transforms/WitchInstrumentNontermination.cpp:224-393 | rejects exactly the loops the scan rejects, marks exactly the accepted loops that name no slot and no global, and otherwise produces the described blocks with fresh labels, slots and registers, and a copy for each variable the loop uses and no other |
| WitchInstrument.SiteInPlace | transforms/WitchInstrumentNontermination.cpp:230-383 | code is added only behind that of loop blocks with an edge to the header, every edge to the header leads to the deciding block, and the header call is there exactly if asked for |
| WitchMonitor.CompareExec | transforms/WitchInstrumentNontermination.cpp:335-366 | the comparison code computes 1 exactly if all tracked variables equal their copies, and changes no memory |
| WitchMonitor.ChecksExec | transforms/WitchInstrumentNontermination.cpp:368-377 | the appended checks report exactly if a state is stored and equal to the present one, and otherwise do nothing |
| WitchMonitor.StoreExec | transforms/WitchInstrumentNontermination.cpp:293-310 | the store block copies every tracked variable and writes nothing else |
| WitchMonitor.BodyStep | transforms/WitchInstrumentNontermination.cpp:322-383 | an instrumented block reports exactly if its checks fire, and otherwise does what the original block does |
| WitchMonitor.DecideStep | transforms/WitchInstrumentNontermination.cpp:284-287 | the deciding block goes to the store block or to the header, as the monitor chooses, and changes nothing |
| WitchMonitor.StoreStep | transforms/WitchInstrumentNontermination.cpp:289-312 | after the store block the copies hold the present values and the original memory is unchanged |
| WitchTheorems.AcceptedStepFrame | transforms/WitchInstrumentNontermination.cpp:176-221 | one block of an accepted loop, from memories equal on the tracked variables and with the same inputs, goes the same way, leaves them equal, and changes no other cell that existed |
| WitchTheorems.AcceptedRunFrame | transforms/WitchInstrumentNontermination.cpp:176-221 | the same for runs of any length |
| WitchTheorems.RepeatedStateRunsForever | transforms/WitchInstrumentNontermination.cpp:332-334 | a loop that comes back to its header with the same tracked values stays inside for every number of repetitions of the inputs in between |
| WitchTheorems.InstrumentedRunErases | transforms/WitchInstrumentNontermination.cpp:224-393 | a run of the instrumented loop that does not report is an original run once the new blocks and the copies are erased |
| WitchTheorems.EveryRunSurvives | transforms/WitchInstrumentNontermination.cpp:284-287 | without storing, every original run is the erasure of an instrumented one without a report, unless a check on the way sees what was stored before the loop was entered |
| WitchTheorems.ReportIsMatched | transforms/WitchInstrumentNontermination.cpp:322-377 | a report means that a check saw the values the original run had at the header before, or those stored on entry, whatever the back edges look like |
| WitchTheorems.MatchIsReported | transforms/WitchInstrumentNontermination.cpp:277-377 | whenever an original run gets to a check with such values, some choice of when to store leads to a report |
| WitchTheorems.ReportsIffMatches | transforms/WitchInstrumentNontermination.cpp:224-393 | so, for every accepted loop and every state it is entered in, exactly the matches can be reported |
| WitchTheorems.ReportsExactly | transforms/WitchInstrumentNontermination.cpp:224-393 | a report is possible exactly if the original loop can repeat a state at its header, or a check can see a former state and the edge behind it not lead back, or a check can see what was stored before the loop was entered |
| WitchTheorems.UnconditionalGoesRound | transforms/WitchInstrumentNontermination.cpp:370-376 | behind a back edge all of whose successors are the header the second case cannot arise |
| WitchTheorems.RepeatMeansNontermination | transforms/WitchInstrumentNontermination.cpp:332-334 | a state repeated once can be repeated forever |
| WitchTheorems.ReportMeansNontermination | transforms/WitchInstrumentNontermination.cpp:332-334 | soundness: a report means that the original loop can run forever, but for the two cases; with unconditional back edges and nothing stored on entry without exception |
| WitchTheorems.RepeatMeansReport | transforms/WitchInstrumentNontermination.cpp:277-312 | completeness: if an original run repeats a state at the header, some choice of when to store leads to a report, whatever the back edges and whatever was stored before |
| WitchTheorems.ReportsIffRepeats | transforms/WitchInstrumentNontermination.cpp:224-393 | with unconditional back edges and nothing stored on entry, a report is possible if and only if the original loop can repeat a state at its header |
| WitchEmptyLoop.EmptyLoopReports | transforms/WitchInstrumentNontermination.cpp:395-420 | a marked loop reports when its header is entered |
| WitchEmptyLoop.EmptyLoopExactly | transforms/WitchInstrumentNontermination.cpp:398-402 | an accepted loop without variables can run forever, from every memory, if and only if some run from its header, from any one memory, stays inside for as many steps as it has blocks |
| WitchEmptyLoop.EmptyLoopRunsForever | transforms/WitchInstrumentNontermination.cpp:398-402 | in particular it can if it can come back to its header once |
| WitchEmptyLoop.ExitingLoopMarked | transforms/WitchInstrumentNontermination.cpp:398-420 | a loop that calls `exit` in its first round is accepted without variables and marked |
| WitchLimits.ConditionalLatchFalseReport | transforms/WitchInstrumentNontermination.cpp:370-376 | behind a conditional back edge a loop that always ends can be reported |
| WitchLimits.StaleStoreFalseReport | transforms/WitchInstrumentNontermination.cpp:289-291 | a loop with an unconditional back edge that ends after one round can be reported, if something was stored before it was entered |
| WitchLimits.AssertingReady | transforms/WitchInstrumentNontermination.cpp:143-155 | the premises of all these results hold of a loop that calls a linked `__VERIFIER_assert` with the body `if (!c) __VERIFIER_error();` |
| WitchLimits.ConstantAddressUntracked | transforms/WitchInstrumentNontermination.cpp:54-56 | a loop reading a global through a constant address is accepted with nothing tracked, and two memories lead different ways |
| WitchLimits.ExemptNameUntracked | transforms/WitchInstrumentNontermination.cpp:143-155 | the same for a global read in a function named `exit_requested` |
| RemoveInfiniteLoops.IsLoop | transforms/RemoveInfiniteLoops.cpp:29-57 | ends on every graph and answers true exactly if no way from the block leads to a block that writes, calls, returns or has a choice |
| RemoveInfiniteLoops.EndlessIff | transforms/RemoveInfiniteLoops.cpp:34-53 | following unique successors never ends in silence if and only if only idle blocks, with one block to go to, can be reached at all |
| RemoveInfiniteLoops.RunOnFunction | transforms/RemoveInfiniteLoops.cpp:74-118 | exactly the endless blocks are rewritten, all judged before the first is changed; the answer says whether there are any; every block from which a write, call or return can be reached is as before |
| RemoveInfiniteLoops.EndlessRun | transforms/RemoveInfiniteLoops.cpp:34-53 | every run from such a block goes on forever and leaves memory alone |
| RemoveInfiniteLoops.RewrittenRun | transforms/RemoveInfiniteLoops.cpp:104-114 | with the same inputs both functions do the same, except that a run caught in an endless loop is cut |
| RemoveInfiniteLoops.RemovalUnobservable | transforms/RemoveInfiniteLoops.cpp:74-118 | outcomes and all states outside endless loops are reached by exactly the same inputs before and after |
| RemoveInfiniteLoops.EffectsSurvive | transforms/RemoveInfiniteLoops.cpp:35-42 | a block that writes, calls or returns is never taken for one, nor is any block from which it can be reached |
| BreakInfiniteLoops.Breaker.GetExitBB | transforms/BreakInfiniteLoops.cpp:45-56 | one exit block for the function, made when first asked for |
| BreakInfiniteLoops.Breaker.RunOnLoop | transforms/BreakInfiniteLoops.cpp:63-129 | a loop with an exit is left alone; any other gets the new block in front of its header, once for all edges |
| BreakInfiniteLoops.AppliedKeepsGuard | transforms/BreakInfiniteLoops.cpp:91-114 | the loop now has an exit, its header is entered through the new block only, and only constant branches lead to the exit block, on the side not taken |
| BreakInfiniteLoops.AppliedRefines | transforms/BreakInfiniteLoops.cpp:69-128 | erasing the new block gives exactly the original runs, one extra step at most |
| BreakInfiniteLoops.ExitNeverReached | transforms/BreakInfiniteLoops.cpp:71-72 | no run reaches the exit block |
| BreakInfiniteLoops.BreakingUnobservable | transforms/BreakInfiniteLoops.cpp:63-129 | after any number of applications to any loops exactly the same original states are reached, and never the exit block |
| Unrolling.CloneBlocks | transforms/Unrolling.cpp:143-151 | every block has a copy under a fresh label and nothing else has changed |
| Unrolling.RedirectEdges | transforms/Unrolling.cpp:80-100 | edges of a clone to cloned blocks lead to their clones, others stay |
| Unrolling.CloneLoopBody | transforms/Unrolling.cpp:137-165 | the old blocks' back edges lead to the new header and the new ones' to their own |
| Unrolling.CreateTerminatingBlock | transforms/Unrolling.cpp:47-77 | a fresh block that fails an assumption |
| Unrolling.RunOnLoop | transforms/Unrolling.cpp:168-192 | with a count of at least 2, copy k leads back to the header of copy k+1 and the last one to its own or to the terminating block; the graph stays well formed |
| Unrolling.OneMoreUnrolled | transforms/Unrolling.cpp:182-183 | the invariant of the cloning loop |
| Unrolling.Terminated | transforms/Unrolling.cpp:186-189 | only the last copy's back edges change |
| Unrolling.UnrolledStep | transforms/Unrolling.cpp:168-192 | one step of the unrolled function is the original step, in the copy given by the back edges taken since the loop was entered, wherever it is entered |
| Unrolling.UnrollingKeepsRuns | transforms/Unrolling.cpp:137-183 | without termination every run stays in step, in that copy, for every well-formed graph and every starting block |
| Unrolling.UnrollingIsLockstep | transforms/Unrolling.cpp:137-183 | mapping every clone to its original gives exactly the original runs, for every count, every well-formed graph and every starting block |
| Unrolling.UnrollingsAreLockstep | transforms/Unrolling.cpp:168-192 | the same after any number of applications to any loops, nested or not |
| Unrolling.BoundedUnrollingExact | transforms/Unrolling.cpp:185-189 | with termination exactly the runs that never take as many back edges in a row as there are copies are kept, and any other is cut at the last of them, wherever the loop is entered |
| Unrolling.EntriesAreRounds | transforms/Unrolling.cpp:177-183 | in a loop entered only at its header, the header has been entered once more often than back edges were taken |
| UnrollingNest.InnerUnrolled | transforms/Unrolling.cpp:168-192 | what the pass makes of the inner loop of a nest |
| UnrollingNest.OuterEnteredTwice | transforms/Unrolling.cpp:173-174 | afterwards the listed blocks of the outer loop are entered in their middle |
| UnrollingNest.OuterLimitNotKept | transforms/Unrolling.cpp:185-189 | after that, whatever the count, the terminated outer loop can be gone round any number of times |
| FlattenLoops.ZeroExitsOf | transforms/FlattenLoops.cpp:73-79 | the exits of a block get a store of 0 in front |
| FlattenLoops.InsertZeros | transforms/FlattenLoops.cpp:64-79 | the flag is set to 0 at the function's entry and in exactly the exit blocks of the inner loop |
| FlattenLoops.RedirectInner | transforms/FlattenLoops.cpp:81-100 | every edge to the inner header leads to the new one, and sets the flag if it comes from outside |
| FlattenLoops.RedirectOuter | transforms/FlattenLoops.cpp:102-130 | back edges of the parent lead to the new header, jumps into it to the block before that |
| FlattenLoops.RunOnLoop | transforms/FlattenLoops.cpp:35-140 | all of this together, with fresh labels and a fresh flag |
| FlattenLoops.BlockByBlock | transforms/FlattenLoops.cpp:64-130 | which blocks now begin with a store of 0, which end with a store of 1, and where every single edge leads |
| FlattenLoops.FlattenedStep | transforms/FlattenLoops.cpp:73-130 | a step from an original block is the original step with its edge rerouted, and leaves the flag set exactly as the protocol says |
| FlattenLoops.NewBlockStep | transforms/FlattenLoops.cpp:132-140 | the new header and the block before it lead to the header that the flag says, and change nothing |
| FlattenLoops.OriginalBlockStep | transforms/FlattenLoops.cpp:81-140 | for every natural inner loop, the step erases to the original one and the flag is what the protocol says, unless an edge to the parent header is taken with the flag set; that edge goes to the inner header instead |
| FlattenLoops.FlattenedRefines | transforms/FlattenLoops.cpp:35-140 | if no edge to the parent header can be taken with the flag set, erasing the flag and the two blocks gives exactly the original runs, at most two extra steps an edge |
| FlattenLoops.PreheaderKept | transforms/FlattenLoops.cpp:46-140 | that is so if the blocks in front of the inner loop lead nowhere else and its exits are blocks of their own |
| FlattenLoops.FlatteningUnobservable | transforms/FlattenLoops.cpp:35-140 | after any number of such applications the original blocks are met with the same memories and the function ends in the same ways |
| FlattenLoops.StrayIsLost | transforms/FlattenLoops.cpp:102-140 | whenever an original run takes such an edge, the flattened function has a run that does not erase to the original one |
| FlattenLoops.PreservedIffNeverStrays | transforms/FlattenLoops.cpp:35-140 | from its entry, the function is preserved if and only if no original run takes an edge to the parent header with the flag set |
| FlattenLoops.PreservedIfNoPathStrays | transforms/FlattenLoops.cpp:35-140 | it is preserved whatever its code does if no way through the graph takes such an edge |
| FlattenLoops.PreservedIffNoPathStrays | transforms/FlattenLoops.cpp:35-140 | and if branches are free, only then |
| FlattenLoops.ContinueStrays | transforms/FlattenLoops.cpp:122-130 | every edge taken from inside the inner loop straight to the parent header is such an edge |
| FlattenLoops.StrayEdgeTaken | transforms/FlattenLoops.cpp:102-130 | if branches are free, an edge to the parent header from inside the inner loop or from a block in front of it, in a block that can be reached, is taken by some run and lost |
| FlattenLoops.JumpAroundStrays | transforms/FlattenLoops.cpp:92-96 | a block that could enter the inner loop sets the flag whichever way it goes, so its jump to the parent header is lost |
| FlattenLoops.WayAroundStrays | transforms/FlattenLoops.cpp:92-96 | and so is the jump of a later block that does not reset the flag |
| RemoveConstantExprs.GetExprOperand | transforms/RemoveConstantExprs.cpp:41-48 | the first operand that is a constant expression |
| RemoveConstantExprs.QueueInst | transforms/RemoveConstantExprs.cpp:50-55 | queues an instruction with that operand, if there is one |
| RemoveConstantExprs.Function.QueueAll | transforms/RemoveConstantExprs.cpp:60-64 | everything queued is to be done, and everything to be done is queued |
| RemoveConstantExprs.Function.Lower | transforms/RemoveConstantExprs.cpp:85-91 | one replacement takes every use of the expression out of the instruction, keeps the worklist complete and the function recoverable, and leaves fewer constant expressions |
| RemoveConstantExprs.Function.Turn | transforms/RemoveConstantExprs.cpp:67-94 | a turn of the loop replaces one expression, or drops one entry and changes nothing |
| RemoveConstantExprs.Function.RunOnFunction | transforms/RemoveConstantExprs.cpp:57-106 | ends whatever the order of the worklist; dropping what was added gives back the original function; whatever stays is still there with its operands, every instruction added is used, and blocks where all stays are untouched; reports a change exactly if something did not stay |
| RemoveConstantExprs.LoweredNodes | transforms/RemoveConstantExprs.cpp:85-87 | the measure: a replacement lowers the number of constant-expression nodes in operands |
| RemoveConstantExprs.AddedValue | transforms/RemoveConstantExprs.cpp:85-86 | the instruction made from an expression computes the value of the expression |
| RemoveConstantExprs.BlockErased | transforms/RemoveConstantExprs.cpp:85-87 | a block and its erasure do the same to memory, control and every original value |
| RemoveConstantExprs.RemovalUnobservable | transforms/RemoveConstantExprs.cpp:57-106 | so do whole runs of the function, before and after |
| RemoveConstantExprs.LeftInCalls | transforms/RemoveConstantExprs.cpp:74-84 | an instruction is left alone if and only if it has no constant expression, or is a call and the first one it has is the called function |
| MkTime.SizesOfCycles | lib/libc/witch-klee/mktime.c:10-12 | the three constants are the lengths of their cycles in the calendar |
| MkTime.MonthTable | lib/libc/witch-klee/mktime.c:110-111 | the table gives the days before each month, except that December is a day late |
| MkTime.LeapTerm | lib/libc/witch-klee/mktime.c:107-110 | z4 - z100 + z400 counts leap days as a count year by year does, for years before and after 2000 |
| MkTime.NormalizeMonth | lib/libc/witch-klee/mktime.c:95-106 | truncating division with its correction is the floor normalization |
| MkTime.InstantCarries | lib/libc/witch-klee/mktime.c:95-114 | for months and other fields in range or out of it: twelve months more denote what a year more does, a month more is its length, and a day, hour, minute or second more is 86400, 3600, 60 or 1 second |
| MkTime.TmToTime | lib/libc/witch-klee/mktime.c:88-115 | the time computed from any bounded fields, with the one narrowing conversion |
| MkTime.ConversionRightIff | lib/libc/witch-klee/mktime.c:88-115 | it is the time denoted exactly if the month is not December and the day count fits an int |
| MkTime.DecemberIsLate | lib/libc/witch-klee/mktime.c:111 | a December date converts to the day after it |
| MkTime.WeekdayIs | lib/libc/witch-klee/mktime.c:39-41 | the weekday is that of counting days one by one, forwards or backwards |
| MkTime.ReducedDay | lib/libc/witch-klee/mktime.c:45-46 | for every 48-bit day number the 400-year cycle and the day in it (0 to 146096) are the floor quotient and remainder, wrap-around included |
| MkTime.OverflowIff | lib/libc/witch-klee/mktime.c:46 | the product stays an int exactly down to day -2147479803 |
| MkTime.YearSumWraps | lib/libc/witch-klee/mktime.c:64 | the half unsigned year sum is right modulo 2^32 and right as an int |
| MkTime.SplitTime | lib/libc/witch-klee/mktime.c:28-41 | day, time of day and weekday of a time |
| MkTime.SplitCycles | lib/libc/witch-klee/mktime.c:48-58 | the position in the cycle adds up to the day, and the day of the year is the 366th only in leap years |
| MkTime.FindMonth | lib/libc/witch-klee/mktime.c:66-67 | the month loop stays in its table and finds the month of the day |
| MkTime.MarchStart | lib/libc/witch-klee/mktime.c:28-58 | the first of March of every year, counted by cycles, is the calendar's |
| MkTime.DateFound | lib/libc/witch-klee/mktime.c:60-74 | the date read off the cycle position is a valid date with the right day number and day of the year |
| MkTime.TimeToTm | lib/libc/witch-klee/mktime.c:16-86 | normal fields, all in range, that denote the time, for every time whose day count fits an int |
| MkTime.RoundTrip | lib/libc/witch-klee/mktime.c:16-115 | the time comes back exactly if its day count fits an int and it is not in December, and a day later in December |
| MkTime.Mktime | lib/libc/witch-klee/mktime.c:117-132 | for all fields that do not overflow an int, the fields are normalized to the time returned; that is the instant denoted exactly outside December and if the day fits an int; then a valid date and time is kept whatever its wday and yday said, and with days 1 to 28 twelve times the year plus the month is kept whatever the month |
| MkTime.ValidIsKept | lib/libc/witch-klee/mktime.c:117-132 | a valid date and time is the only one that its instant is normalized to |
| MkTime.MktimeTwice | lib/libc/witch-klee/mktime.c:117-132 | of two calls one after the other the second returns the same time and changes nothing but the flag, exactly if the first result is not in December and its day fits an int |
| MkTime.NormalUnique | lib/libc/witch-klee/mktime.c:76-83 | normal fields are determined by their time |
| MkTime.NormalConverts | lib/libc/witch-klee/mktime.c:88-115 | normal fields convert back to their time exactly outside December and if the day fits an int |
| MkTime.PosixFormula | lib/libc/witch-klee/mktime.c:76-83 | from the Epoch on they satisfy the formula of section 4.16 of the Base Definitions of POSIX.1-2017 |
| SourceShift.SortedInOrder | lib/symbioticpy/symbiotic/witnesses/witchtransformer.py:341-343 | the three stable sorts order by line and column from the back, and by text |
| SourceShift.CarriedOutFirst | lib/symbioticpy/symbiotic/witnesses/witchtransformer.py:341-343 | of two requests the one carried out first is on a later line, or at a later column, or has the smaller character where the texts first differ |
| SourceShift.OrderOfRequestsIrrelevant | lib/symbioticpy/symbiotic/witnesses/witchtransformer.py:341-343 | the order in which the requests were made does not matter |
| SourceShift.CharactersMove | lib/symbioticpy/symbiotic/witnesses/witchtransformer.py:345-346 | every original character moves by what was inserted up to its column |
| SourceShift.TextStands | lib/symbioticpy/symbiotic/witnesses/witchtransformer.py:345-346 | every inserted text stands in the line unbroken, at its column moved by what is inserted later |
| SourceShift.DeletingInsertedRestores | lib/symbioticpy/symbiotic/witnesses/witchtransformer.py:346 | deleting the inserted characters restores the line |
| SourceShift.Transformer.AddShift | lib/symbioticpy/symbiotic/witnesses/witchtransformer.py:349-355 | the table stays right with one more insertion |
| SourceShift.Transformer.InsertCalls | lib/symbioticpy/symbiotic/witnesses/witchtransformer.py:340-347 | the lines are those edited by the sorted requests, and the table is right for them |
| SourceShift.Transformer.ShiftWitness | lib/symbioticpy/symbiotic/witnesses/witchtransformer.py:359-375 | assumptions and branchings keep line and column, and every other waypoint moves forward by the table and by the lines added |
| SourceShift.TableAgreesWithText | lib/symbioticpy/symbiotic/witnesses/witchtransformer.py:340-375 | the column the table gives is where the character now is |
| SourceShift.LineGrowsByTable | lib/symbioticpy/symbiotic/witnesses/witchtransformer.py:340-355 | the table tells how much longer the line is |
| SourceShift.ForwardStrictlyIncreasing | lib/symbioticpy/symbiotic/witnesses/witchtransformer.py:369-374 | columns keep their order on the line |
| SourceShift.BreakMakesNoDifference | lib/symbioticpy/symbiotic/witnesses/YAMLwitnesswriter.py:213-232 | the loop with the break and the loop without it compute the same, on every column and whatever the lengths |
| SourceShift.WithBreak | lib/symbioticpy/symbiotic/witnesses/YAMLwitnesswriter.py:213-217 | a column is taken back by the entries it is strictly past, one after the other, up to the first it is not |
| SourceShift.BackUndoesForward | lib/symbioticpy/symbiotic/witnesses/YAMLwitnesswriter.py:205-234 | the way back undoes the way forward on every line and column |
| SourceShift.ForwardUndoesBackIff | lib/symbioticpy/symbiotic/witnesses/YAMLwitnesswriter.py:205-234 | the way forward undoes the way back exactly on the columns of original characters |
| SourceShift.LocationsSurvive | lib/symbioticpy/symbiotic/witnesses/YAMLwitnesswriter.py:205-234 | with the table of any requests that have a text, locations of the program survive the way forward and back |
| SourceShift.CallSurvives | lib/symbioticpy/symbiotic/witnesses/YAMLwitnesswriter.py:205-220 | a call at the place a location was moved to, with the lines added, comes back to that location |
| SourceShift.WitnessSurvives | lib/symbioticpy/symbiotic/witnesses/YAMLwitnesswriter.py:205-234 | after editing, moving the waypoints and moving the calls and the error location back, all are where the witness had them |
| SourceShift.Writer.ShiftBack | lib/symbioticpy/symbiotic/witnesses/YAMLwitnesswriter.py:205-234 | every call location and the error location are moved back; without an error location it fails |
| StrToUl.ParseLong | lib/libc/legacy/strtoul.c:55-122 | value, end and errno for every buffer and base, without reading past the NUL |
| StrToUl.AccumulateLong | lib/libc/legacy/strtoul.c:90-110 | the loop ends at the first character that is no digit, with the value, or negative `any` exactly on overflow |
| StrToUl.CutoffIsOverflow | lib/libc/legacy/strtoul.c:90-104 | the cutoff test tells exactly whether the next digit overflows |
| StrToUl.ParseLongLong | lib/libc/legacy/strtoull.c:36-141 | value, end and errno for every buffer and base, without reading past the NUL |
| StrToUl.AccumulateLongLong | lib/libc/legacy/strtoull.c:103-118 | the loop ends at the first character that is no digit, with the value, or out of range exactly on overflow |
| StrToUl.TwoTestsAreOverflow | lib/libc/legacy/strtoull.c:110-113 | the two tests together tell exactly whether the next digit overflows |
| StrToUl.LongMeetsIff | lib/libc/legacy/strtoul.c:66-121 | value and end are those of ISO C11 exactly if there is no dangling "0x" |
| StrToUl.LongLongMeetsIff | lib/libc/legacy/strtoull.c:45-140 | value and end are those of ISO C11 exactly if there is no lone zero in base 0 |
| StrToUl.ParsersAgreeIff | lib/libc/legacy/strtoull.c:45-140 | the two parsers return the same value and end exactly outside those two cases, for every buffer and base |
| StrToUl.ErrnosAgreeIff | lib/libc/legacy/strtoull.c:120-140 | and the same errno unless the text has neither a sign nor a number, where only strtoul says EINVAL |
| StrToUl.WhiteSpaceSkipped | lib/libc/legacy/strtoul.c:66-69 | white space in front moves the end pointer of both parsers and nothing else |
| StrToUl.SpaceIsWhite | lib/libc/legacy/strtoull.c:45-46 | white space is what section 7.4.1.10 of ISO C11 lists, and nothing else |
| StrToUl.SignsNegate | lib/libc/legacy/strtoul.c:70-121 | in both parsers a plus sign changes nothing, and the values with and without a minus sign add up to a multiple of 2^64 unless both are clamped |
| StrToUl.CaseIrrelevant | lib/libc/legacy/strtoull.c:47-140 | in both parsers letters of either case mean the same, as digits and in the prefix |
| StrToUl.DigitsInOrder | lib/libc/legacy/strtoul.c:93-100 | digits and letters of either case count up from 0 and from 10, and nothing else is a digit |
| StrToUl.ReadBack | lib/libc/legacy/strtoul.c:66-121 | both read back every number written in any base from 2 to 36, clamped if too large |

## Left out

- The monitor behind `__INSTR_store` and the check: that something has been stored, that a check has received
  true, and that a marked loop has been entered is all that is modelled of it. Its mark for a store is one cell
  for the whole program, as there is one function for it.
- `transforms/InstrumentNontermination.cpp`: the older variant of the pass, with its snapshot inside the header.
- AcceptedIsNamed, AcceptedStepFrame, AcceptedRunFrame, RepeatedStateRunsForever, BodyStep, StoreStep,
  InstrumentedRunErases, EveryRunSurvives, ReportIsMatched, MatchIsReported, ReportsIffMatches, ReportsExactly,
  RepeatMeansNontermination, ReportMeansNontermination, RepeatMeansReport, ReportsIffRepeats, EmptyLoopExactly:
  no code that the loop reaches calls the monitor yet, be it the loop's own or that of a function with a loop
  that was instrumented earlier. Such a function could store, or report, in the middle of a round.
- Values in registers across blocks, PHI nodes, LLVM types, alignment, debug metadata and the bookkeeping of
  LoopInfo: programs keep their values in memory, and a loop is given by its header and its blocks.
- The premises of the scan (`Assumed`): constant addresses point to tracked or no memory; functions that the
  loop reaches only through exempt ones name only tracked globals and their own slots, and do not call the
  function the loop is in; functions without a body do not touch program memory.
- FlattenLoops on a function with `switch` terminators, on which its cast fails.
- The flag of FlattenLoops as a byte on the stack: a slot made by a pass is a cell that no program pointer reaches.
- RemoveConstantExprs in invoke instructions and in front of PHI nodes, and constant operations that trap.
- Constant expressions inside constant vectors and structures, which the pass does not look into either.
- Time zones and daylight saving, which mktime.c ignores; C leaves the signed overflow at the very bottom of
  the range undefined, and here it wraps.
- `lib/libc/klee/mktime.c`, which is a copy of the file modelled.
- The line in front of which the prologue of an `.i` file goes: its text has a newline in it, but counts as columns.
- `location2` of a target waypoint: it is moved by a running total, not by the map used for locations.
- Reading and writing of YAML, clang's syntax tree, and all command lines and processes.
- 32-bit longs in strtoul.c, locales other than "C", and the other parsers of the library, `strtod` among them.
- `ConstraintToTarget`: its backward search does not follow returns from callees, so little can be said of it.
