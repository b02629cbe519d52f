# Fasel compiler: a verified model

This project models the compiler for the Fasel language and proves what its passes promise.
It follows the program's own structure, from characters to machine steps:

* **Front end.** `Scanner`, `Lexing`, `Literals` (lex.cpp, the literal decoding of parse.cpp);
  `TokenTexts`, what every token looks like; `Grammar`, `Parser`, `ParserCorrect` (the expression
  parser) and `OperatorLevels`, how tightly operators bind; and `SourceText`, which joins them:
  an expression written out as characters is lexed and parsed back into itself.
* **Type checker.** `Types`, `TypeChecker`, `TypeSoundness`, `TypeInference` give the
  expression checker as a function and prove it exact; `NodeTree` is the same checker on heap
  nodes that it rewrites in place, calls included. `OnDemand` is the depth-first search by
  which global procedures are checked (`DemandChecker`) and compiled (`DemandCompiler`) when
  first needed.
  `TypedTrees` turns a checked tree into the tree that code generation walks, and
  `CheckedMeaning` says what a checked tree means and follows that down to the blocks.
* **Desugaring and for loops.** `Desugaring`; `ForLoops`, the fragment on which loops do what
  they are meant to; `CounterWords` and `ForRange`, how often range loops run, with which
  counters and calls. What happens outside the fragment: `SplicedSteps`, what any loop does, with
  its steps written out; `LoopExits`, loops that take one step a round; `StepCount`,
  `FirstEmission` and `SameEmissions`, how often the step of a loop runs and on what that depends;
  `OutsideFragment`, what it does to a round and a loop; `LoopTrips`, when a whole range loop is
  right; `WrittenRanges`, `GuardedLoops`, `LoopExamples` and `LateUse`, families of loops that
  are right or not.
* **Structured code to basic blocks** (compile_ir.cpp). `Words` has the machine words, the
  operators and the selected opcodes, and `NumberLaws` what division and bitwise operators are; `Tree` and `Source` the typed tree and its meaning; `Ir`
  the block machine; `Lowering` the code generator as a function of the IR builder, and
  `Compiler` the object that walks the tree. `Growth`, `SimulateExpr`, `SimulateStmt` and
  `LoweringCorrect` hold the simulation; `EndToEnd` joins it with desugaring; `BlockLayout`,
  `BlockShape`, `DeadCode` and `LoopEntry` are about the form of the emitted blocks.
* **The retired byte-code back end** (attic). `Bytecode`, `Disassembler`, `Assembler`,
  `Writer`, `VirtualMachine`, `MachineArithmetic`, `VmObject`, `BytecodeRuns`, `BytecodeSafety`:
  one-pass code generation with backpatching, and the stack machine down to bytes.

## How things are modelled

* A call is an event with its argument values; what it returns is an arbitrary function of the
  history of calls. What an uninitialised cell holds and what an undefined LLVM operation
  (division by zero, an oversized shift) yields are likewise arbitrary, fixed per run.
* Runs that need not end are cut off after a number of loop rounds or machine steps; every
  statement about them is made for all such numbers, and divergence is stated separately.
* `Exec` in `Source` is what statements are meant to do. `Emitted` is what code generation
  does with loop prologues: the steps of *all* enclosing loops are emitted before every
  terminator and at the end of every non-empty block that falls through
  (compile_ir.cpp:384-411). The simulation is proved against `Emitted` for every accepted
  body; `ForLoops` proves that both meanings agree on for-free programs and on a fragment of
  for loops. Loops that take one step a round go wrong only on their way out, where a break or
  a return takes one step more (`LoopExits`). Others take as many steps in a round as `StepCount`
  counts. If their body is done with the counter when the first is taken, `OutsideFragment` says
  exactly when a round is right and what the whole loop does. If moreover the loop runs over a
  fixed range, is not left early, and steps and calls of a round depend on the counter, `LoopTrips`
  says exactly when its calls are right: if the rounds that it leaves out would make none.
  `EndToEnd` follows that down to the blocks. What any other loop does is said by `SplicedSteps`:
  what is meant by its desugared form in which the steps stand as assignments wherever they are
  emitted. For loops are gone before code generation, so `Lowering` has no case for them.
* A for loop knows three types: that of its counter, and those in which type checking makes it
  compare the counter with the end and add the step. `TypedTrees` proves that these are what
  the checker's conversions amount to.
* `IrCompiler` keeps the fields that compile_ir.cpp keeps (insert block, prologue stack,
  break and continue targets, the value of each declaration). Every method is proved to turn
  the builder into what `Lowering` says.
* `BytecodeWriter` keeps `bytecode` and `pos`, `Vm` keeps `memory`, `programLength`, `rip` and
  `rsp`; the two pointers are kept as the unsigned words that each comparison converts them
  to. Signed overflow wraps around. A fatal error of the machine, and an operation that C++
  leaves undefined, is a `Fault`.
* The parser works on comment-free token sequences. Its methods return the next position, and
  their starting position where the original returns its starting state.
* The code is followed where it does not do what its comments say or a reader would expect:
  booleans are ordered and divided as one-bit signed numbers (`Words.BooleanOrderIsInverted`,
  `Words.BooleanDivisionIsUndefinedOnTrue`), `=` is left-associative, a loop step can run more
  or less often than the for-loop comment in desugar.cpp says, and a loop behind a bare block
  that returns stops the compiler (`LoopEntry.GetsThroughExactly`).

## Model

| member | source | states |
|---|---|---|
| Words.SelectionRealisesMeaning | compile_ir.cpp:276-342 | for every operator and operand type that `Faithful` names, the selected opcode on bit patterns computes the operator on the numbers they stand for, for signed, unsigned and boolean operands, wrapping included |
| Words.FaithfulIsExact | compile_ir.cpp:276-342 | those are exactly the operators and types for which it does so on all words |
| Words.BooleanOrderIsInverted | compile_ir.cpp:308-311 | ordering two booleans gives the order of the swapped operands, and is right exactly if they are equal |
| Words.BooleanDivisionIsUndefinedOnTrue | compile_ir.cpp:297-298 | dividing two booleans, or taking the remainder, is right unless both are true, and then has no defined result although one is meant |
| Words.CastRealisesMeaning | compile_ir.cpp:751-760 | the signed integer cast keeps the number if it fits and wraps it otherwise, for every pair of widths |
| NumberLaws.TruncationIsDivision | compile_ir.cpp:294-298 | quotient and remainder are the only two numbers with a = q * b + r, r smaller than b and of the sign of a |
| NumberLaws.BitwiseIsBitByBit | compile_ir.cpp:299-301 | a bitwise operator does to each bit of its operands what its name says, and sets no other bit |
| CheckedMeaning.OperatorTranslates | compile_ir.cpp:276-342 | for each of the sixteen value operators and every integer or boolean type: the operator that code generation is given yields, on the numbers that the words stand for, what the operator of the source is (`==` whether they are equal, `*` their product wrapped to the width, and so on) |
| CheckedMeaning.TranslationMeans | compile_ir.cpp:172-375 | so a checked tree of integers and booleans is handed to code generation as one that yields its value, operator by operator, after its calls from left to right |
| CheckedMeaning.GeneratedCodeMeans | compile_ir.cpp:172-375 | an expression that checks without errors, and in which nothing orders or divides booleans or converts unsigned numbers: from any machine state in which its names are in their slots, its blocks deliver the word that is meant after exactly the calls that are meant |
| SimulateExpr.SimExpr | compile_ir.cpp:172-375 | from any machine state at the end of the code built so far, the blocks of an expression make exactly its calls in order, deliver its value, end at the new insert point, and keep every cell and value that existed |
| SimulateExpr.SimLogical | compile_ir.cpp:179-269 | the diamond of blocks of a short-circuit operator makes exactly the left-to-right sequence of calls and loads the truth value, whatever blocks its operands open |
| SimulateStmt.SimStmt | compile_ir.cpp:377-591 | every statement ends as its emitted meaning does: falling through, at the break or continue target of the innermost loop, halted with the returned value, or still running when the meaning is cut off |
| SimulateStmt.SimBlock | compile_ir.cpp:377-414 | a block runs its statements and the whole stack of pending loop steps, before a terminator or at its end, and ends as its meaning says |
| SimulateStmt.SimIf | compile_ir.cpp:488-528 | the three blocks of an if statement run exactly the chosen branch and meet again in the done block |
| SimulateStmt.SimWhile | compile_ir.cpp:530-573 | head, body and done block of a loop run rounds exactly as its emitted meaning does, break and continue included, for any number of rounds |
| LoweringCorrect.BlocksFollowBody | compile_ir.cpp:631-704 | for every accepted body and every cut-off, the emitted procedure halts with the body's value, calls and locals, or is still running with the same calls and at least as many steps |
| LoweringCorrect.BodyFollowsBlocks | compile_ir.cpp:631-704 | whenever the blocks have stopped, the body returns with the same value, calls and locals; the machine is never stuck |
| LoweringCorrect.DivergesTogether | compile_ir.cpp:530-573 | the blocks run forever if and only if the body does |
| LoweringCorrect.CallsAreThoseOfBody | compile_ir.cpp:654-690 | after any number of steps the calls made so far are a prefix of the body's calls |
| SplicedSteps.SplicedBlockDoes | compile_ir.cpp:384-411 | the prologues that code generation emits are assignments of all pending steps before every terminator and at the end of every non-empty block that falls through, and nothing else: for every nesting of loops, every step, every way out and every cut-off, the emitted meaning of a block is the intended meaning of the block with these assignments written out |
| SplicedSteps.ForLoopIsSpliced | desugar.cpp:17-102 | so what is emitted for any for loop, whatever its body, end and step, is what its desugared form with the steps written out means, a program without for loops and loop steps |
| EndToEnd.BlocksDoAsWrittenOut | compile_ir.cpp:377-414 | the blocks of every program whose desugared form is accepted, with for loops of any kind, make the calls, return the value and leave the locals of that program |
| EndToEnd.WrittenOutWhereBlocksStop | compile_ir.cpp:377-414 | the converse: wherever the blocks stop, that program returns with the same result |
| EndToEnd.BlocksDoAsIntended | desugar.cpp:17-102 | desugared and lowered, every program whose loops are in the fragment makes the calls, returns the value and leaves the locals of its intended meaning |
| EndToEnd.IntendedWhereBlocksStop | compile_ir.cpp:384-411 | the converse: wherever its blocks stop, the intended meaning returns with the same result |
| EndToEnd.DivergesAsIntended | compile_ir.cpp:530-573 | such a program's blocks run forever if and only if it is meant to |
| EndToEnd.CompiledRangeCalls | desugar.cpp:17-102 | the blocks of a procedure that is one range loop of the fragment halt after the calls of its begin and then those of its body for the value of begin, or 0 where none is written, that plus or minus the step, or 1 where none is written, and so on, for exactly the closed-form number of rounds |
| EndToEnd.CompiledStartsAndStepsAsWritten | desugar.cpp:35-95 | the blocks of `for i b:<limit:k { f(i) }`, and of the same without a step, call `f` for b, b + k, b + 2 * k and so on below limit |
| EndToEnd.CompiledMakesEmittedCalls | compile_ir.cpp:384-411 | the blocks of a procedure that is one for loop, in the fragment or not, make the calls of its emitted form |
| EndToEnd.CompiledRightUnlessSkipped | compile_ir.cpp:384-411 | down to the blocks: a range loop, in the fragment or not, whose rounds take as many steps as they like, depending on the counter, makes the calls that are meant if and only if the rounds it leaves out make none |
| EndToEnd.CompiledLoopIsRightExactly | compile_ir.cpp:384-411 | in particular, if all its rounds make calls and take n steps: if and only if n is 1 or at most one round is meant |
| EndToEnd.CompiledGuardedLoopIsRightExactly | compile_ir.cpp:404-410 | the blocks of `for i 0:<limit { if i c m { f(i) } }`, for each comparison c, make the calls that are meant if and only if no two numbers in a row below limit pass the test |
| EndToEnd.CompiledBranchLoopSkips | compile_ir.cpp:404-410 | the blocks of `for i 0:<limit { if true { f(i) } }` call `f` for 0, 2, 4 and so on, which is right if and only if limit is at most 1 |
| OutsideFragment.EmptyForBodyHangs | compile_ir.cpp:384-411 | a for loop with an empty body never steps: if its first comparison holds, its emitted form never ends (the end being evaluated without calls) |
| OutsideFragment.EmptyRangeHangs | compile_ir.cpp:384-411 | a range loop with an empty body is meant to end, and hangs if and only if any round is meant |
| LoopExits.OnlyTheExitStepsAgain | compile_ir.cpp:384-411 | for every for loop whose nested blocks are empty or never complete, every step, with calls or without, and every cut-off: the emitted loop ends in exactly the state that is meant, except that a break or a return takes one step before it |
| LoopExits.RightUnlessLeft | desugar.cpp:17-102 | so a loop that is not left has exactly the result that is meant, counter included |
| LoopExits.ReturnSeesTheStep | compile_ir.cpp:391-399 | whichever return such a loop reaches, in whichever round: its value is meant to be computed before the step and is computed after it, and the loop returns what is meant if and only if the two values are the same |
| LoopExits.BreakRunsTheStep | compile_ir.cpp:391-399 | a break makes the calls of one step too many, so the calls are those meant if and only if that step makes none |
| OutsideFragment.OneStepMorePerCompletedBlock | compile_ir.cpp:404-410 | a loop-free body that is not empty takes the step once, and once more for every non-empty branch or nested block that completes |
| OutsideFragment.RoundMovesPerEmission | compile_ir.cpp:384-411 | in a loop with a fixed step whose body uses the counter in any way until the first step of a round and not behind it, inner loops allowed, a round has the intended outcome, calls and other locals, and moves the counter once more per emission of the step |
| OutsideFragment.CounterIsRightExactly | compile_ir.cpp:404-410 | a counter that has moved n times instead of once is where it is meant to be if and only if n - 1 times the step is a multiple of the word size |
| OutsideFragment.RoundIsRightExactly | compile_ir.cpp:404-410 | so a round of such a loop is exactly right if and only if the steps taken too many add up to a multiple of the word size; without inner loops they are as many as non-empty blocks completed in it |
| OutsideFragment.LoopTakesEmittedSteps | compile_ir.cpp:384-411 | such a loop does, for every cut-off, what is meant, breaks and returns included, but that each round moves the counter as often as it emits the step, which may be differently often in each |
| OutsideFragment.LoopRunsWithMultipliedStep | compile_ir.cpp:384-411 | if that is n times in every round, whatever the state, it does what is meant by a loop whose step is n times as large |
| OutsideFragment.PlainBodyAlwaysEmits | compile_ir.cpp:384-411 | n can be read off a body without loops and `continue` if all ways through it that complete take equally many steps |
| LoopTrips.RightUnlessSkipped | compile_ir.cpp:384-411 | a range loop whose round of b takes n(b) steps of k and makes calls that depend on b: both meanings end; all rounds in steps of k are meant, those to which its own steps lead are made, and the calls are those meant if and only if the rounds left out between them make none |
| LoopTrips.SameCallsUnlessSkipped | compile_ir.cpp:404-410 | the arithmetic of it: the calls along the longer steps are all calls if and only if the calls of the rounds between them are none |
| LoopTrips.LoopIsRightExactly | compile_ir.cpp:384-411 | in particular, if every round makes calls and takes n steps: if and only if n is 1 or at most one round is meant |
| LoopTrips.SameCallsExactly | compile_ir.cpp:404-410 | the calls of all rounds in steps of n times k and in steps of k are the same under exactly that condition, if no round is silent |
| GuardedLoops.GuardedLoopIsRightExactly | compile_ir.cpp:404-410 | `for i 0:<limit { if i c m { f(i) } }` for each of the six comparisons c, every m and every limit with limit + 2 representable: its rounds take two steps or one, and its calls are those meant if and only if no two numbers in a row below limit pass the test |
| GuardedLoops.OneCallIsRight | compile_ir.cpp:404-410 | so `if i == m` is always right: `f` is called for m, once, if m is below limit |
| GuardedLoops.FirstCallsAreRightExactly | compile_ir.cpp:404-410 | and `if i < m` is right if and only if m or limit is at most 1 |
| LateUse.LateUseIsOneAhead | compile_ir.cpp:404-410 | `for i 0:<limit { if true { g() } f(i) }`, which uses its counter behind a step: meant to call `f` for 0, 1, 2 and so on, it does for 1, 3, 5 and so on, which is right if and only if limit is 0 |
| LoopExamples.NestedBlockStepsAgain | compile_ir.cpp:404-410 | `for i 0:<limit { if true { f(i) } }` is meant to call `f` for every number below limit and calls it for every other one: right if and only if limit is at most 1 |
| LoopExamples.InnerForEmitsTwiceMore | compile_ir.cpp:404-410 | an inner for loop that ends takes the outer step in each of its own emissions and twice more |
| LoopExamples.ForInForStepsAgain | compile_ir.cpp:384-411 | `for i 0:<limit { for j 0:<rounds { f() } }` counts i in steps of rounds + 2: right if and only if limit is at most 1 |
| SameEmissions.AllEmitAlike | compile_ir.cpp:384-411 | how often a body emits the step of its loop does not depend on what its inner loops left in their counters |
| StepCount.BlockSteps | compile_ir.cpp:377-414 | for every desugared block that leaves a counter alone: with the counter's step pending it ends as without it, with the same calls and other locals, and the counter has moved once for every emission |
| FirstEmission.EarlyBlock | compile_ir.cpp:377-414 | the same from one state for every block that leaves the counter alone from its first step on |
| ForLoops.AllSupportedAgree | compile_ir.cpp:384-411 | on the fragment the emitted meaning of the desugared statements makes the same calls with the same outcome as the intended meaning of the for loops, counters apart; a step that calls is in it where the body has no break and no return |
| ForRange.RangeRuns | desugar.cpp:35-95 | for all four operators, all types that type checking gives counter, end and step, and every fixed end and step, a loop whose body runs through and leaves the counter alone ends after exactly the closed-form number of rounds, in which the counter is the number that begin yields, or 0 where it is not written, plus or minus k times the step, or 1 where it is not written, if the value after the last step is representable |
| ForRange.RangeCalls | desugar.cpp:17-102 | such a loop, desugared or not, makes the calls of begin and then those that its body makes for these counters, in this order |
| WrittenRanges.StartsAndStepsAsWritten | desugar.cpp:35-95 | `for i b:<limit:k { f(i) }`, with or without the step, is meant to call `f` for b, b + k, b + 2 * k and so on below limit, and does as emitted |
| WrittenRanges.StartsAtThree | desugar.cpp:35-95 | so `for i 3:<5 { f(i) }` calls f(3) and f(4), and `for i 3:<10:4 { f(i) }` f(3) and f(7) |
| ForRange.FixedIsConstant | desugar.cpp:46-95 | every fixed end and step, whatever their widths, make such a range: that of the numbers they stand for |
| CounterWords.TestedNumber | typecheck.cpp:442-482 | comparing the widened counter compares the number it stands for |
| CounterWords.NextModulo | typecheck.cpp:442-482 | adding the step to the widened counter and narrowing the sum is addition modulo the size of the counter |
| Desugaring.DesugarRemovesFor | desugar.cpp:17-102 | although the for case recurses on a block it has just built, the rewriting ends, and no for loop is left at any depth |
| Desugaring.DesugarKeepsForFree | desugar.cpp:104-340 | trees without for loops come back unchanged |
| Desugaring.DesugarTwice | desugar.cpp:3-340 | desugaring twice is desugaring once |
| Desugaring.DesugarKeepsMeaning | desugar.cpp:19-95 | the intended meaning of every statement is that of its desugared form, for every cut-off |
| BlockLayout.ProcedureIsLaidOut | compile_ir.cpp:488-573 | every block is inserted in the function once, and every branch goes to an inserted block |
| DeadCode.BlocksClosedIffNoDeadCode | compile_ir.cpp:377-414 | for accepted procedures, every block ends in exactly one terminator with nothing behind it if and only if no bare block that ends in a terminator is followed by emitted code |
| LoopEntry.GetsThroughExactly | compile_ir.cpp:552 | the assertion that a loop is entered from a block without a terminator holds throughout an accepted body if and only if, by a condition on the tree alone, no loop stands directly behind a bare block that ended in a terminator |
| LoopEntry.NoDeadCodeGetsThrough | compile_ir.cpp:552 | bodies without dead code satisfy that condition |
| LoopEntry.LoopBehindReturnStops | compile_ir.cpp:552 | an accepted body on which the assertion fails |
| Compiler.IrCompiler.GenerateExpr | compile_ir.cpp:172-375 | moving the insert point, the object builds exactly the code that `Lowering` describes and hands back its value |
| Compiler.IrCompiler.GenerateLogical | compile_ir.cpp:179-269 | the same for the diamond of a short-circuit operator |
| Compiler.IrCompiler.GenerateBlock | compile_ir.cpp:377-414 | the same for a block with its prologues; the walk's targets and prologue stack are as before |
| Compiler.IrCompiler.GenerateIf | compile_ir.cpp:488-528 | the same for if statements |
| Compiler.IrCompiler.GenerateWhile | compile_ir.cpp:530-573 | the same for loops; prologue stack, break and continue target are restored |
| Compiler.IrCompiler.AllocateLocals | compile_ir.cpp:36-84 | every declaration of every nested block gets its own cell, in depth-first order |
| Compiler.CompileProcedure | compile_ir.cpp:416-455 | a new code generator turns an accepted body into the blocks about which the simulation speaks |
| Compiler.AcceptedJumps | compile_ir.cpp:575-591 | in accepted bodies break and continue only occur where both targets are set |
| Bytecode.WordRoundTrip | attic/compile_vm.cpp:99-106 | a 64-bit number read back from its eight bytes is itself |
| Bytecode.WordDetermined | attic/vm.cpp:27-33 | and any eight bytes are those of the number they read as |
| Disassembler.Disassemble | attic/disasm.cpp:13-49 | the decoding loop returns the listing, and fails exactly where the program ends inside an instruction |
| Disassembler.ListingRecoversCode | attic/disasm.cpp:20-49 | the disassembly of encoded instructions is those instructions with their addresses and arguments |
| Disassembler.ListingLosesNothing | attic/disasm.cpp:20-49 | whatever bytes are listed, encoding the listing gives them back |
| Assembler.SizeCounts | attic/compile_vm.cpp:131-241 | the labels that the two-pass assembler assumes are where it puts them |
| Assembler.EveryJumpLandsOnAnInstruction | attic/compile_vm.cpp:135-209 | every jump target of compiled code is the start of one of its instructions, or its end |
| Writer.PatchInside | attic/compile_vm.cpp:70-79 | overwriting a placeholder changes nothing else |
| Writer.BytecodeWriter.WriteData | attic/compile_vm.cpp:70-79 | the bytes are overwritten, and grown at the end, from the position on |
| Writer.BytecodeWriter.GenerateCode | attic/compile_vm.cpp:131-241 | one pass with backpatching leaves the bytes of the two-pass assembler from the old position on, with no placeholder and no earlier byte touched, and succeeds exactly on the supported trees |
| Writer.BytecodeWriter.Backpatch | attic/compile_vm.cpp:161-169 | the three jumps, and only they, are filled in, and the position is back at the end |
| BytecodeRuns.StepFetches | attic/vm.cpp:8-33 | the machine fetches exactly the instruction encoded at its address and stops fetching at the next one |
| MachineArithmetic.ArithmeticIsMeant | attic/vm.cpp:257-282 | on any two 64-bit numbers the machine's operators compute what the operators of the source mean at that type, wrapped, and stop exactly where those mean nothing |
| MachineArithmetic.MachineBitsAreBitwise | attic/vm.cpp:257-282 | and, or and exclusive or, on numbers of any sign, work on each of the 64 bits |
| MachineArithmetic.RightShiftKeepsSign | attic/vm.cpp:257-282 | `>>` divides by a power of two, rounded down, so the sign is kept |
| MachineArithmetic.StopsExactly | attic/vm.cpp:257-282 | an operator has no answer exactly for a division by zero, the least number divided by -1, and a shift by less than 0 or more than 63 |
| BytecodeRuns.ArgumentsAreExpected | attic/disasm.cpp:27-33 | the interpreter reads an argument for exactly the opcodes for which the disassembler expects one |
| BytecodeRuns.ExpressionRuns | attic/vm.cpp:123-289 | from any state at its first byte, compiled code overflows the stack if the evaluated part needs more slots than are free, stops at an operation without an answer if it meets one, and otherwise ends behind its last byte with the value pushed and all below unchanged |
| BytecodeSafety.StackFaultsExactlyWhenTooDeep | attic/vm.cpp:55-88 | up to the step at which a compiled expression has come to its outcome, some step ends in a stack fault if and only if the evaluated part needs more slots than are free, and that fault is an overflow; with room for the whole tree no step does |
| BytecodeSafety.SkippedOperandNeedsNoStack | attic/compile_vm.cpp:135-172 | the static need is not always used: a decided operator skips its right operand |
| BytecodeSafety.PeakIsNeed | attic/vm.cpp:123-289 | without short-circuit operators the static need is exactly what is used |
| BytecodeSafety.CallingACompiledExpression | attic/vm.cpp:95-122 | loaded, called and run, a compiled expression ends the program with its value alone on the stack, unless the evaluation needs more than 8191 slots or has no answer |
| BytecodeSafety.ExecuteKeeps | attic/vm.cpp:153-282 | no instruction but those that move the stack pointer directly leaves the stack bounds or writes to the program; only jumps leave the line |
| BytecodeSafety.EveryRunStaysOnInstructions | attic/vm.cpp:123-289 | every run of a well-laid-out program is between two of its instructions, keeps its bytes and the stack bounds, and only stops at its end or with a stack, memory or arithmetic fault |
| BytecodeSafety.EveryFetchIsInTheListing | attic/disasm.cpp:20-49 | such a run is at its end or else at an address for which the disassembly has a line |
| BytecodeSafety.LinesAreTheInstructions | attic/disasm.cpp:20-49 | the disassembly has a line for exactly the addresses at which instructions start |
| BytecodeSafety.CompiledExpressionsAreLaidOut | attic/compile_vm.cpp:131-241 | compiled expressions are such programs |
| VmObject.Vm.LoadProgram | attic/vm.cpp:95-103 | the program stands behind the padding, the pointers at their starts, and the rest of memory is what it was, or zero where it is new |
| VmObject.Vm.ReadProgram | attic/vm.cpp:8-17 | hands out the bytes and moves on, or faults outside the program |
| VmObject.Vm.Push64 | attic/vm.cpp:55-69 | in place, the new state is the old one with the word pushed, or a stack overflow |
| VmObject.Vm.Pop64 | attic/vm.cpp:71-88 | in place, the word on top and the lower stack pointer, or a stack underflow |
| VmObject.Vm.WriteMemoryAt | attic/vm.cpp:35-43 | only the stack can be written to |
| VmObject.Vm.ReadMemoryAt | attic/vm.cpp:45-53 | program and stack can be read |
| VmObject.Vm.StepOnce | attic/vm.cpp:151-282 | one fetched instruction does in place what the step function says, case by case, for every opcode and every fault |
| VmObject.Vm.RunProgram | attic/vm.cpp:123-289 | the interpreter loop reaches the state, or the fault, of the run function |
| VmObject.Vm.StartProcCall | attic/vm.cpp:117-121 | the end of the program is pushed as return address and the procedure is next |
| Parser.ParsePrimaryExpr | parse.cpp:537-748 | reads what the grammar function reads, and returns to its start exactly where that fails |
| Parser.ParseExpressionSuffix | parse.cpp:750-799 | the argument loop reads what the grammar function reads, trailing comma included |
| Parser.ParseBinaryExpr | parse.cpp:801-843 | the precedence-climbing loop reads what the grammar function reads |
| Parser.ParseExpr | parse.cpp:845-848 | a whole expression is what the grammar function reads without a bound, and the start is returned where that fails |
| ParserCorrect.ParserIsExact | parse.cpp:801-843 | a parse returns a tree if and only if its tokens start here, left operands bind at least as tightly and right operands strictly tighter than their operator, all outer operators are tighter than the bound, and it cannot be continued |
| OperatorLevels.TighterLevelIsInside | lex.h:106-142 | of two operators in a row, between names, literals, calls or anything in parentheses, that of the tighter of the eleven levels is parsed inside the other, and of two of one level, assignment included, the left one |
| OperatorLevels.LiteralsGroup | lex.h:106-142 | so `1 + 2 * 3` is 1 + (2 * 3), `1 - 2 - 3` is (1 - 2) - 3, and likewise for every pair of operators |
| ParserCorrect.ParserFailsExactly | parse.cpp:801-843 | a parse fails if and only if no such tree starts here |
| ParserCorrect.TokensDetermineTree | lex.h:106-142 | the expression grammar is unambiguous |
| ParserCorrect.ParseUndoesPrint | parse.cpp:719-848 | printing a tree and parsing the tokens gives the tree back and stops right behind it, in any surroundings that cannot continue it |
| ParserCorrect.PrintIsMinimal | lex.h:106-142 | no way to write the tree has fewer parentheses than the printed one |
| Lexing.Lexer.ConsumeSequence | lex.cpp:38-55 | moves behind the text if and only if the source continues with it |
| Lexing.Lexer.Next | lex.cpp:6-25 | the position moves on by the number of characters or to the end of the source, and line and column stay those of the position |
| Lexing.Lexer.NextToken | lex.cpp:85-276 | type, start and end of the next token are those of the scanning function, its line is the number of newlines before it, its column the characters since the last one |
| Lexing.LexingIsLossless | lex.cpp:85-276 | tokens and the whitespace between them rebuild the consumed source; only the last token is an end of file, and if that is empty the source ends there |
| Lexing.Tokenize | lex.cpp:85-276 | reading token after token yields exactly these tokens and fails exactly at an open string |
| TokenTexts.LongestSymbolIsRead | lex.cpp:195-235 | each of the 28 symbols is read where its characters stand, unless those of a longer one do or a comment starts |
| TokenTexts.WordsLexToOneToken | lex.cpp:237-264 | letters, digits and underscores, not starting with a digit, are one token wherever none of these follows: a keyword for the twelve reserved words, and an identifier otherwise |
| TokenTexts.CommentsNest | lex.cpp:102-128 | comments nest: however deep, a comment ends where it is closed, not where one inside it is |
| TokenTexts.OpenCommentsEndTheSource | lex.cpp:119-122 | a comment that is not closed ends with the source |
| TokenTexts.LineCommentsLexToOneToken | lex.cpp:93-100 | a line comment ends before the newline, or with the source |
| TokenTexts.PointNumbersLexToOneToken | lex.cpp:130-164 | digits, a point and digits are one token, which a second point ends |
| TokenTexts.PointMayComeFirst | lex.cpp:130-164 | a number may start with its point, unless another point follows |
| TokenTexts.BlanksAreSkipped | lex.cpp:62-89 | spaces, tabs and newlines are passed between tokens |
| Scanner.ScanAdvances | lex.cpp:27-36 | every token but the end of the file has a character, and none reaches past the source |
| Literals.DecodeStringLiteral | parse.cpp:641-690 | the decoding loop yields the decoded characters up to a NUL, and fails exactly on an unknown escape |
| Literals.QuotedStringsRoundTrip | lex.cpp:166-193 | every NUL-free string, once quoted, decodes to itself, and is lexed as one token if and only if it does not end in a backslash |
| Literals.EscapesAreLetters | parse.cpp:641-690 | exactly the eleven escape letters are known, each for its character code |
| Literals.EscapedStringsDecode | parse.cpp:641-690 | every NUL-free string written with all its control characters, quotes and backslashes as escapes decodes to itself; an escaped NUL cuts off what follows |
| Literals.IntegersDecode | parse.cpp:549-632 | a number in decimal or hexadecimal, with or without suffix, decodes to itself below 2^64 and is rejected from there on |
| Literals.UpperCaseIntegersDecode | parse.cpp:549-632 | a hexadecimal number in capital letters is the same number, and one token too |
| Literals.IntegersLexToOneToken | lex.cpp:130-164 | it is one number token wherever nothing that continues it follows |
| SourceText.SourceTextRoundTrips | lex.cpp:85-276 | every expression tree, written as characters with the fewest parentheses, is lexed and parsed back into itself |
| TypeSoundness.AcceptsExactlyTheTyped | typecheck.cpp:582-705 | the checker reports no error if and only if the typing rules, which list every operator by name, give the tree a type, and then infers that type |
| TypeSoundness.EveryNumberTypeAdds | typecheck.cpp:529-545 | the sum of two variables of a type is accepted, with that type, for exactly the eight integer and two floating-point types, booleans aside |
| TypeSoundness.CheckKeepsTree | typecheck.cpp:442-482 | erasing the inserted conversions and types gives the original tree, with or without errors |
| TypeSoundness.CleanTreesAreReady | compile_ir.cpp:172-175 | after a check without errors nothing is poisoned, both operands of every operator have equal types, arguments have their parameters' types, and conversions outside assignments never narrow, leave floating point or change signedness |
| TypeSoundness.CoercionCrashesExactly | typecheck.cpp:531-545 | coercion finds no type if and only if a bool stands left of a wider integer |
| TypeSoundness.CoercedCastsAreImplementedUnlessUnsigned | compile_ir.cpp:749-803 | coerced operands have a conversion that code generation implements unless both are unsigned and of different sizes |
| TypedTrees.CleanTreesAreAcceptedExactly | compile_ir.cpp:172-375 | a tree of integers and booleans that checks without errors becomes one for which code generation is proved if and only if nothing in it orders or divides booleans or converts unsigned numbers |
| TypedTrees.TestIsChecked | typecheck.cpp:490-558 | the test of a counter against an end of any integer type of its signedness is accepted, and checked into the test that the for loop of the model has, both operands converted to the wider type where that differs |
| TypedTrees.StepIsChecked | typecheck.cpp:442-482 | so is the assignment of the next counter, widened, summed and narrowed |
| TypedTrees.CheckedTypesFit | typecheck.cpp:529-545 | the types that checking gives a counter, signed or unsigned, whatever the widths of end and step, are ones for which the loop results hold |
| TypeInference.ArithmeticTypesFollowLeaves | typecheck.cpp:490-558 | one error per innermost operator that joins opposite signs, which with everything above it is poisoned; any other arithmetic tree has the type of its leaves |
| TypeInference.ShapeDoesNotMatter | typecheck.cpp:529-545 | two such trees with the same leaves have the same type, whatever their shape |
| TypeInference.ClashesAreCounted | typecheck.cpp:508-527 | an arithmetic tree is rejected if and only if some operator joins opposite signs |
| NodeTree.Checker.DoImplicitCastIfNecessary | typecheck.cpp:442-482 | the operand, or a new conversion node in front of it, or one more error |
| NodeTree.Checker.CheckCoercedOperator | typecheck.cpp:490-558 | in place, operand pointers, type and error count become what the functional checker says |
| NodeTree.Checker.Typecheck | typecheck.cpp:566-1040 | checking a tree in place, calls with any number of arguments included, gives the tree and the error count of the functional checker, and touches nothing outside the tree |
| NodeTree.Checker.CheckApplication | typecheck.cpp:971-1040 | a call whose callee is checked: in place, the arguments are counted, and checked only where the callee takes that many |
| OnDemand.VisitsOnce | typecheck.cpp:570-576 | no body is entered twice, whatever cycles the call graph has |
| OnDemand.DemandVisitsReachable | typecheck.cpp:793-823 | asking for one procedure checks exactly those it can reach |
| OnDemand.EveryProcedureOnce | typecheck.cpp:925-944 | checking the module enters every body exactly once |
| OnDemand.DemandChecker.TypecheckDeclaration | typecheck.cpp:793-823 | the type is set before the body is entered, the order is that of the search, and the caller's procedure and block are current again |
| OnDemand.DemandChecker.TypecheckModule | typecheck.cpp:1088-1096 | at the end every procedure has a type |
| OnDemand.DemandCompiler.GenerateDeclaration | compile_ir.cpp:416-455 | the function exists before its body is generated, functions are created in the order of the search, and only the insert point moves |
| OnDemand.DemandCompiler.GenerateCalls | compile_ir.cpp:654-665 | compiling a missing callee leaves the caller's insert point, break target, continue target and pending loop steps as they were |
| OnDemand.DemandCompiler.GenerateModule | compile_ir.cpp:377-455 | compiling the module creates every global procedure exactly once, in the order of the search |

## Left out

- Floating-point values and operators: library arithmetic; `float` appears as a type kind only.
- Pointers, string values, arrays, structs, labels and goto in code generation: unfinished or foreign calls in the original.
- LLVM itself, the JIT, symbol lookup, module printing, error texts, file reading: foreign calls and output.
- Declarations without initialiser, assignment to arguments, void procedures that return a value, local procedures: not carried through to valid IR by the original; accepted bodies exclude them.
- ForLoops.AllSupportedAgree: the fragment is sufficient, not necessary. Outside it `LoopExits` covers all loops that take one step a round, and `OutsideFragment` those with a fixed step whose body is done with the counter when the first step of a round is taken; for a body that uses the counter behind a step of the same round `SplicedSteps` says what it does, `LateUse` has one that fails, and there is no condition for when it is right.
- OutsideFragment.LoopTakesEmittedSteps: the step is fixed, built from literals and arguments.
- OutsideFragment.LoopRunsWithMultipliedStep: the same, and the step is taken equally often from every state, reached or not; where it is not, `OutsideFragment.LoopTakesEmittedSteps` says what the loop does.
- OutsideFragment.RoundMovesPerEmission: bodies that use the counter behind a step of the same round are outside it.
- OutsideFragment.RoundIsRightExactly: the same.
- OutsideFragment.PlainBodyAlwaysEmits: bodies with `continue` or an inner loop are not read off, although some take equally many steps.
- LoopTrips.RightUnlessSkipped: end and step are fixed, no round breaks or returns, the calls of a round depend on the counter only, and all counters on the way are representable.
- ForRange.RangeRuns: end and step are fixed, built from literals and arguments; so a range whose end moves has no closed form.
- ForRange.RangeCalls: the same; and the calls of a round depend on the counter only.
- Desugaring.DesugarRemovesFor: procedure literals inside expressions, into which the original descends, are outside the modelled tree; each procedure body is desugared on its own.
- Compiler.IrCompiler.GenerateExpr: compiling a missing callee on demand is modelled in `OnDemand`, apart from the blocks; a void call has a value in the model, which nothing may use.
- Compiler.CompileProcedure: the names of arguments and external procedures, which have no body.
- An empty else block and a missing one are the same tree in the model; they emit the same code.
- Statements, declarations and expected-error blocks of the type checker: expressions are checked in a given scope; declarations out of order are modelled between procedures only.
- NodeTree.Checker.Typecheck: the arguments of a call are a chain of heap cells, where the original has a vector of pointers.
- OnDemand.DemandChecker.TypecheckDeclaration: a body is the list of procedures that it mentions; what else is checked in it is the business of `TypeChecker`.
- OnDemand.DemandCompiler.GenerateDeclaration: likewise for the code in a body.
- Parser.ParsePrimaryExpr: procedure literals, whose bodies are statements.
- The parser's error messages, and comments between tokens: `peek_token` does not skip comments, so a stream with comments is outside the model.
- Constant folding by LLVM's instruction builder: an operator on constants is an instruction in the model.
- Statement and declaration parsing: recursive descent without precedence.
- The assignment operator in the byte-code generator: it trips an assertion in the original.
- `ADDRSP`, `LOADR` and `STORER` in the expression theorem: the generator never emits them; the machine and the disassembler model them.
- The debug mode of the machine and the commented-out parts of the byte-code generator, except literals.
- Floating-point literals in `SourceText`: their decoding is a library call.
