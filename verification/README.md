# zo backends: a verified model

zo compiles one intermediate representation (SIR) through three hand-written backends: ARM64 machine
code, Cranelift IR and in-page JavaScript. This project models the parts of those backends that must
preserve meaning for every input and proves that they do, or states exactly when they do.

**Shared language.** `Sir.dfy` is the intermediate representation with a small-step semantics: SSA values,
named locals (a parameter shares the cell of its name), unstructured labels and jumps, calls, and a heap of
aggregates. Value operators stay uninterpreted, so every claim about it is about control flow and the routing
of data. A read of something not computed yet is a fault; theorems about runs are about runs that do not
fault.

**Division by constants** (`Word`, `Magic`, `Arm`, `ConstDivide`). The two reciprocal searches, with 64-bit
wrapping arithmetic written out, are proved to stop with the least usable exponent, and the emitted
sequences, run on a register machine, to divide. The upper limit of the unsigned search is the code's own
`d * floor((2^64 - 1) / d)`.

**Control flow to JavaScript** (`Js`, `Transpile`, `JsSim`, `ParamCells`). A body becomes `for(;;)switch(pc)` with
one case per label. The backend keeps two variables for a parameter that the source keeps in one cell; each load
is right exactly when it looks where the last store went, and while loads are right the emitted program follows
the source in lock-step over whole runs, calls included, in both directions. A condition on the paths of the text
makes every load right.

**Control flow to Cranelift** (`Clif`, `ClifTranslate`, `ClifBuilder`, `ClifMaps`, `ClifCode`, `ClifStraight`,
`ClifSim`, `ClifRefused`, `ClifSafe`, `ClifRounds`, `ClifBroken`, `ClifLoop`). One block per label, a fresh block
after every terminator, `exit(1)` for whatever is refused, and memory: one stack slot per aggregate instruction and
activation, in which an aggregate built again takes the place of the one before, and which is gone once the activation
has returned. Every finished function is well formed on every path, the set of functions translated to the end is
characterised, each step is followed if and only if what it reads, writes or compares is sound, and sound runs agree
in both directions. Of a function that is refused part-way, sound runs are followed to what was refused and end the
process there. A condition on the text makes every run sound, loops that build an aggregate in every round included.

**Runs and what they did** (`Trails`, `Places`, `Regions`, `Rounds`). What an activation has stored, built and passed
on its way; two heaps that agree although one of them reuses its blocks; and the proofs that confined aggregates are
never reached after their activation has returned, and that none is used once its place has been taken.

**Promotion to registers** (`PromotionPlan`, `PromotedCode`, `StaleUse`). Choosing the locals, and running code in
which a promoted load only remembers a register. Each use reads the loaded value exactly when the local still
holds it; a condition on the text of a function makes every run agree with the memory version and gives back
every callee-saved register.

**Moving data** (`ArgMoves`, `Abi`, `Marshal`, `VecLayout`, `VecRebuild`, `Itoa`, `Fma`). Parallel moves with
scratch registers, the C call classifier and the moves and loads that carry out what it decides, storing structs
in vectors, printing integers, and fused multiplies over the reals.

**Reactivity** (`Reactive`, `Repaint`, `Clicks`). The binding graph, the handlers, and whole runs of clicks: when
repainting only what a handler wrote gives the document a full repaint would give, for handlers that push, call
user functions that build or change aggregates, or throw.

Each module that models code which changes state step by step has methods (most of them on a class with the
source's own fields) whose contracts equate the new state with a specification function; the lemmas are about
that function.

## Results that are not a plain yes

- The magic-number documentation promises any non-zero unsigned divisor; at divisor 1 the search ends with
  shift 0 and `add` set, which the emitted sequence cannot use (`Magic.UnsignedFailsAtOne`). The code never asks
  for it, because 1 is a power of two.
- A signed division by 1 or -1 takes the power-of-two path with `LSR #64`, which the emitter encodes as
  `LSR #0` (`Arm.ShiftField` keeps the six bits of the field). The emitted quotient and remainder are right if and
  only if the dividend is not negative or the divisor's magnitude is at least 2.
- The move sequencer implements parallel assignment if and only if no unsaved source is overwritten by an
  earlier move; a rotation of three registers is a counterexample for two scratches.
- In JavaScript a parameter is read as `a{i}` and assigned as `l{name}`. A load by index is right if and only if the
  source's cell still holds the argument, a load by name if and only if something was stored to it or it holds the
  value that stands for `undefined` (`JsSim.ReadExact`). A text is safe if no load of a parameter by index can be
  reached from a store to it and every way to a load by name stores first; `ParamCells.ParamAssignmentLost` is a
  program that is not.
- In Cranelift an initialised declaration defines the variable at once, while the other two backends wait for
  the store that follows. A load is right if and only if the variable and the local were last given the same value
  (`ClifStraight.LoadSim`), which holds wherever locals are declared first and stored next
  (`ClifSafe.DeclaredFresh`); `ClifBroken.DeclarationTakenEarly` is a program where it does not.
- A Cranelift aggregate lives in a stack slot that belongs to its instruction. Building it is always right, but takes
  the place of the aggregate that the instruction built before in this activation. A field is read right if and only
  if the activation that built the aggregate has not returned and what is found in its place today holds the same
  there, as it does whenever the aggregate is the last its instruction built; a field is written right if and only
  if the activation has not returned and the aggregate is the last, or the write changes nothing
  (`ClifStraight.IndexSim`, `PutSim`). An aggregate kept from an earlier round of a loop reads as the later one
  (`ClifLoop.LoopOverwritesSlot`), a returned one is gone (`ClifBroken.ReturnedAggregateGone`), and one that is built
  and used in every round, kept in a local in between, is right (`ClifRounds.RebuiltSafely`).
- A promoted local read after a later store to it, as in `a, b = b, a`, gives the new value.
- Rebuilding a struct from its leaf words counts a nested struct without leaves as one word, flattening as
  none. The rebuild takes the right words if and only if no leaf follows such a struct within one struct.
- Printing in binary needs more than the 32-byte buffer outside `(-2^31, 2^32)`; the other radixes always fit.
- A run of clicks keeps the page painted, however values are shown, if and only if at every click no slot left
  alone gets another value or reaches a block that the click changed (`Clicks.RunExact`). For a handler whose calls
  leave old aggregates alone this means that no slot left alone reaches an array pushed to
  (`Clicks.PushContained`). It fails when two list slots come to show one array, when a user function changes the
  struct it is given, and when a handler assigns and then throws.
- Argument registers end with what the call description promises, for every memory and register contents, if and
  only if in neither bank a source register is overwritten before it is read or saved (`Marshal.MarshalExact`).

## Model

| member | source | states |
|---|---|---|
| Magic.UnsignedMagic | crates/compiler/zo-codegen-arm/src/magic.rs:105-158 | the search stops with the least exponent that passes the exit test, the multiplier is the reciprocal rounded up modulo 2^64, `add` says it is at least 2^64 (and it is below 2^65), and the shift is at most 64, at most 63 without `add`, at least 1 with it |
| Magic.DoubleCap | crates/compiler/zo-codegen-arm/src/magic.rs:124-130 | doubling quotient and remainder of `2^p` by the cap keeps them exact up to wrap-around |
| Magic.DoubleDivisor | crates/compiler/zo-codegen-arm/src/magic.rs:132-144 | doubling quotient and remainder of `2^p - 1` by the divisor keeps them exact up to wrap-around, and the overflow flag records a true multiplier of at least 2^64 |
| Magic.ExitTest | crates/compiler/zo-codegen-arm/src/magic.rs:146-150 | the loop's comparison of quotients and remainder decides whether `2^p` is within the cap times the gap |
| Magic.UnsignedRange | crates/compiler/zo-codegen-arm/src/magic.rs:121-158 | while the search runs the true multiplier stays below 2^65, and it reaches 2^64 at the last exponent |
| Magic.UnsignedQuotient | crates/compiler/zo-codegen-arm/src/magic.rs:187-199 | high multiply, correction and shift equal floor division for every dividend and every divisor of at least 2 |
| Magic.UnsignedFailsAtOne | crates/compiler/zo-codegen-arm/src/magic.rs:11-14 | for divisor 1 the answer is shift 0 with `add`, against the documented promise |
| Magic.SignedMagic | crates/compiler/zo-codegen-arm/src/magic.rs:46-98 | the unguarded search stops with shift at most 62 and a reciprocal of the divisor's sign, rounded away from zero |
| Magic.SignedDoubleStep | crates/compiler/zo-codegen-arm/src/magic.rs:67-79 | one doubling of quotient and remainder is exact up to wrap-around |
| Magic.SignedStopsBy126 | crates/compiler/zo-codegen-arm/src/magic.rs:64-86 | the exit test holds at exponent 126 at the latest, so the loop without a bound ends |
| Magic.SignedRange | crates/compiler/zo-codegen-arm/src/magic.rs:88-98 | the multiplier fits 64 bits when the search stops |
| Magic.SignedQuotient | crates/compiler/zo-codegen-arm/src/magic.rs:171-185 | high multiply, sign correction, arithmetic shift and sign bit equal division truncated toward zero for every 64-bit dividend and every divisor of magnitude at least 2 |
| ConstDivide.UnsignedConstQuotient | crates/compiler/zo-codegen-arm/src/codegen.rs:3235-3262 | the emitted unsigned sequence leaves the quotient in its register and every register but the scratch pair alone |
| ConstDivide.PowerQuotient | crates/compiler/zo-codegen-arm/src/codegen.rs:3276-3289 | biased arithmetic shift is truncation toward zero for exponents 1 to 63, and off by one below zero for exponent 0 as encoded |
| ConstDivide.SignedMagicCode | crates/compiler/zo-codegen-arm/src/codegen.rs:3297-3311 | the emitted magic sequence is truncating division, the least dividend and negative divisors included |
| ConstDivide.SignedConstQuotient | crates/compiler/zo-codegen-arm/src/codegen.rs:3270-3312 | the emitted signed quotient is right if and only if the dividend is not negative or the divisor's magnitude is at least 2 |
| ConstDivide.TruncRemFacts | crates/compiler/zo-codegen-arm/src/codegen.rs:4021-4045 | quotient times divisor plus remainder is the dividend, the remainder is smaller than the divisor and has the dividend's sign |
| ConstDivide.UnsignedRemainder | crates/compiler/zo-codegen-arm/src/codegen.rs:4036-4045 | `MSUB` after a correct quotient gives the unsigned remainder |
| ConstDivide.SignedRemainder | crates/compiler/zo-codegen-arm/src/codegen.rs:4036-4045 | `MSUB` after the signed sequence gives the truncated remainder under exactly the condition of the quotient |
| ConstDivide.EmitUnsignedConstQuotient | crates/compiler/zo-codegen-arm/src/codegen.rs:3235-3262 | what is appended divides every dividend by the constant |
| ConstDivide.EmitSignedPower | crates/compiler/zo-codegen-arm/src/codegen.rs:3276-3295 | the biased shift, negated for a negative divisor, is appended |
| ConstDivide.EmitSignedMagic | crates/compiler/zo-codegen-arm/src/codegen.rs:3297-3311 | the magic sequence for a reciprocal that the search guarantees is appended |
| ConstDivide.EmitSignedConstQuotient | crates/compiler/zo-codegen-arm/src/codegen.rs:3270-3312 | what is appended divides under the condition above |
| ConstDivide.EmitDiv | crates/compiler/zo-codegen-arm/src/codegen.rs:3998-4020 | a non-zero constant divisor takes the constant path, anything else the hardware divide of its signedness |
| ConstDivide.EmitConstRem | crates/compiler/zo-codegen-arm/src/codegen.rs:4021-4045 | what is appended leaves the remainder by the constant |
| ArgMoves.EmitSafeArgMoves | crates/compiler/zo-codegen-arm/src/codegen.rs:7502-7536 | saves of overwritten sources into scratches, then the moves reading the saved copies |
| ArgMoves.SafeMovesExact | crates/compiler/zo-codegen-arm/src/codegen.rs:9116-9151 | the sequence is a parallel assignment for all register contents if and only if no unsaved source is overwritten by an earlier move |
| ArgMoves.EnoughScratches | crates/compiler/zo-codegen-arm/src/codegen.rs:7552-7576 | with at most as many distinct overwritten sources as scratches every destination ends with its source's first value |
| ArgMoves.SavesFirst | crates/compiler/zo-codegen-arm/src/codegen.rs:7506-7522 | scratches go to the first distinct sources that are overwritten |
| ArgMoves.RotationFails | crates/compiler/zo-codegen-arm/src/codegen.rs:9116-9151 | three rotated registers need a third scratch |
| Marshal.LoadsWords | crates/compiler/zo-codegen-arm/src/codegen.rs:7728-7738 | loading a struct's words from the last to the first reads all of them before its base register is overwritten, and touches no other register |
| Marshal.EmittedExactly | crates/compiler/zo-codegen-arm/src/codegen.rs:7631-7706 | a call is emitted if and only if each parameter in turn finds its registers: one for an integer, pointer or float, FP registers for the floats of an aggregate, one or two general registers for another struct of 1 to 16 bytes |
| Marshal.MarshalExact | crates/compiler/zo-codegen-arm/src/codegen.rs:7610-7767 | for a call without float aggregates whose parameters all find registers, and every memory and register contents, each argument register of both banks ends with its value, narrowed to 32 bits where the callee expects that, or its word of the struct, if and only if neither bank's moves overwrite an unsaved source; if a parameter goes to the stack or by address, or is an empty struct, nothing is emitted |
| Transpile.EmitFn | crates/compiler/zo-codegen-web/src/transpile.rs:116-199 | numbering the labels, then emitting live statements and a case per label, gives the specified function or refuses it |
| Transpile.LoweredExactly | crates/compiler/zo-codegen-web/src/transpile.rs:163-279 | a function is emitted if and only if every instruction that is not dead code has a form in the browser and every jump has its label |
| Transpile.LabelsNumbered | crates/compiler/zo-codegen-web/src/transpile.rs:140-149 | the blocks of the labels are numbered 1, 2, ... in the order of the text |
| Transpile.DispatchLands | crates/compiler/zo-codegen-web/src/transpile.rs:140-149 | dispatching on a label's block number lands on that label's case |
| JsSim.ReadExact | crates/compiler/zo-codegen-web/src/transpile.rs:215-228 | a load by index gives the source's value if and only if the cell still holds the argument, a load by name if and only if something was stored under it or the cell holds what stands for `undefined` |
| JsSim.StraightSim | crates/compiler/zo-codegen-web/src/transpile.rs:205-279 | a straight-line statement changes the heap as its instruction does, and values and variables too if and only if what it loads is current |
| JsSim.SimulateStep | crates/compiler/zo-codegen-web/src/transpile.rs:163-195 | one source step is one to three JavaScript steps, fall-through and dropped dead code included, if and only if what it loads is current |
| JsSim.SimulateRun | crates/compiler/zo-codegen-web/src/transpile.rs:116-199 | every run without faults is followed state by state as long as what it loads is current |
| JsSim.Forward | crates/compiler/zo-codegen-web/src/transpile.rs:116-199 | what a run of current loads returns the JavaScript returns, with the same heap |
| JsSim.Backward | crates/compiler/zo-codegen-web/src/transpile.rs:116-199 | when the JavaScript of a run of current loads ends, the source has ended, with the same value or in a fault |
| ParamCells.ApartCurrent | crates/compiler/zo-codegen-web/src/transpile.rs:215-228 | if no load of a parameter by index can be reached from a store to it and every way to a load by name stores first, the next load is current |
| ParamCells.ApartRun | crates/compiler/zo-codegen-web/src/transpile.rs:116-199 | every run of such functions has only current loads |
| ParamCells.ApartForward | crates/compiler/zo-codegen-web/src/transpile.rs:116-199 | what such a program returns its JavaScript returns |
| ParamCells.ApartBackward | crates/compiler/zo-codegen-web/src/transpile.rs:116-199 | what the JavaScript of such a program returns the program returns, unless it faults |
| Transpile.EmitReachable | crates/compiler/zo-codegen-web/src/transpile.rs:77-99 | terminates, emits each function reachable from the roots exactly once, and refuses exactly when some reachable function has no body or cannot be lowered |
| JsSim.EmissionCompiles | crates/compiler/zo-codegen-web/src/transpile.rs:77-99 | an emission is a program closed under calls, to which the simulation applies |
| ParamCells.ParamAssignmentLost | crates/compiler/zo-codegen-web/src/transpile.rs:219-228 | assigning a parameter and reading it back gives 5 in the source and the incoming 3 in JavaScript |
| ParamCells.ReadThenAssigned | crates/compiler/zo-codegen-web/src/transpile.rs:215-228 | reading a parameter before assigning it is safe |
| ClifTranslate.BodyShape | crates/compiler/zo-codegen-clif/src/translate.rs:690-1535 | at every instruction the current block is open, each label still to come owns an empty block and all other blocks are closed; a refusal leaves only closed blocks and empty label blocks |
| ClifTranslate.WellFormed | crates/compiler/zo-codegen-clif/src/translate.rs:240-282 | every block of a finished function ends with exactly one terminator and holds nothing after it, also after a refusal part-way |
| ClifTranslate.PlainInsn | crates/compiler/zo-codegen-clif/src/translate.rs:690-1218 | a straight-line instruction only appends non-terminators to the current block, and a refused one also the exit sequence |
| ClifTranslate.UnknownReturn | crates/compiler/zo-codegen-clif/src/translate.rs:1219-1250 | returning a value that has no code yet returns nothing and continues in a stray block |
| ClifTranslate.FinishCloses | crates/compiler/zo-codegen-clif/src/translate.rs:254-282 | after a refusal every label block that was left empty ends the process with code 1, the other blocks stay as they were, and all are closed |
| ClifTranslate.OpenFinish | crates/compiler/zo-codegen-clif/src/translate.rs:254-282 | the same after a body that was translated to the end, where the current block ends the process too |
| ClifBuilder.TranslateFunction | crates/compiler/zo-codegen-clif/src/translate.rs:220-282 | pre-allocation, body and clean-up give the specified blocks |
| ClifBuilder.Translator.PreallocateLabels | crates/compiler/zo-codegen-clif/src/translate.rs:338-350 | one empty block for every label before any code |
| ClifBuilder.Translator.SealWithJump | crates/compiler/zo-codegen-clif/src/translate.rs:638-648 | falls through to the next block unless the current one is closed |
| ClifBuilder.Translator.EmitLabel | crates/compiler/zo-codegen-clif/src/translate.rs:1251-1264 | closes the current block with a jump and moves to the label's block |
| ClifBuilder.Translator.EmitJump | crates/compiler/zo-codegen-clif/src/translate.rs:1265-1287 | jumps to the label's block, created on first use, and continues in a stray one |
| ClifBuilder.Translator.EmitBranch | crates/compiler/zo-codegen-clif/src/translate.rs:1288-1312 | a true condition continues in a fresh block, a false one in the label's block |
| ClifBuilder.Translator.EmitReturn | crates/compiler/zo-codegen-clif/src/translate.rs:1219-1250 | returns the operand if it is known, else nothing, and continues in a stray block |
| ClifBuilder.Translator.EmitConstruct | crates/compiler/zo-codegen-clif/src/translate.rs:772-837 | a slot with the tag, if any, and the fields in order, refused at the first unknown field |
| ClifBuilder.Translator.TranslateBody | crates/compiler/zo-codegen-clif/src/translate.rs:690-700 | translates until the end or the first refusal |
| ClifBuilder.Translator.CloseBlocks | crates/compiler/zo-codegen-clif/src/translate.rs:254-282 | the specified clean-up, which `ClifTranslate.FinishCloses` and `OpenFinish` tie to what the body left |
| ClifMaps.TranslatesExactly | crates/compiler/zo-codegen-clif/src/translate.rs:690-1535 | a body is translated to the end if and only if every operand is defined earlier in the text and every instruction is one the backend lowers |
| ClifMaps.ConstructCode | crates/compiler/zo-codegen-clif/src/translate.rs:772-837 | an aggregate's cells are its fields in order, an enum's after its variant number, and its value is the address of its own slot |
| ClifCode.AllNumbered | crates/compiler/zo-codegen-clif/src/translate.rs:690-1535 | no two values ever share an SSA name and no two locals a variable |
| ClifCode.BlocksStay | crates/compiler/zo-codegen-clif/src/translate.rs:690-1535 | what was emitted is never rewritten, up to and including the clean-up |
| ClifCode.Located | crates/compiler/zo-codegen-clif/src/translate.rs:1219-1312 | the code of each instruction stands at its spot in the finished function, and the next spot is where control continues |
| Trails.RunTracks | crates/compiler/zo-codegen-clif/src/translate.rs:1346-1410 | over every run each activation's locals are its arguments and the last values stored, and the instructions it passed form a path from its entry |
| ClifStraight.LoadSim | crates/compiler/zo-codegen-clif/src/translate.rs:1374-1410 | a load gives the source's value if and only if the variable was last given the same |
| Places.ReadExact | crates/compiler/zo-codegen-clif/src/translate.rs:884-905 | which cells the blocks can touch through an address that stands for an aggregate, and when the value there stands for the source's |
| Places.WriteExact | crates/compiler/zo-codegen-clif/src/translate.rs:906-930 | a write keeps the heaps alike if and only if its aggregate has not been replaced, or what replaced it holds the value already |
| Places.BuildsAgain | crates/compiler/zo-codegen-clif/src/translate.rs:586-612 | an aggregate built in the block of an earlier one takes its place, and all others stay where they are |
| Places.BlindToday | crates/compiler/zo-codegen-clif/src/translate.rs:1029-1079 | operators that see of references only whether they are the same do on addresses what they do on the aggregates found there today |
| ClifStraight.ComputeSim | crates/compiler/zo-codegen-clif/src/translate.rs:1029-1079 | an operator gives the source's result if and only if it gives the same for the aggregates found today |
| ClifStraight.FillSlot | crates/compiler/zo-codegen-clif/src/translate.rs:586-612 | the code of an aggregate leaves its tag, if any, and its fields in order in the block of its slot, a new block the first time, and the block's address as the value |
| ClifStraight.ConstructSim | crates/compiler/zo-codegen-clif/src/translate.rs:772-837 | building an aggregate is always followed: a new block the first time its instruction runs in the activation, the place of the one before after that |
| ClifStraight.IndexSim | crates/compiler/zo-codegen-clif/src/translate.rs:884-905 | a field reads what the source reads if and only if the activation that built the aggregate has not returned and the aggregate found in its place today holds the same there |
| ClifStraight.PutSim | crates/compiler/zo-codegen-clif/src/translate.rs:906-930 | a field store does what the source does if and only if the activation has not returned and the aggregate is the one found in its place, or that holds the value already |
| ClifStraight.StraightSim | crates/compiler/zo-codegen-clif/src/translate.rs:690-1218 | a straight-line instruction is followed in values, variables, slots and heap if and only if it is sound |
| ClifSim.BranchStep | crates/compiler/zo-codegen-clif/src/translate.rs:1288-1312 | both languages take the same way at a conditional branch |
| ClifSim.SimulateStep | crates/compiler/zo-codegen-clif/src/translate.rs:1219-1312 | one source step is matched by the code of its instruction, none when only the place in the text moves, if and only if it is sound |
| ClifSim.SimulateRun | crates/compiler/zo-codegen-clif/src/translate.rs:690-1535 | every sound run is followed state by state, recursive calls and aggregates included, the blocks staying behind by at most one body's silent instructions a step |
| ClifSim.Forward | crates/compiler/zo-codegen-clif/src/translate.rs:690-1535 | what a sound run returns the blocks return, and every aggregate whose place was not taken holds the same, those from before the run under their own addresses |
| ClifSim.Backward | crates/compiler/zo-codegen-clif/src/translate.rs:690-1535 | the blocks of a source that never faults and stays sound never get stuck or exit, and when they end the source has ended alike |
| ClifRefused.RefusedBlocks | crates/compiler/zo-codegen-clif/src/translate.rs:254-282 | in the finished function the block in which translation stopped ends the process with code 1, behind what the refused instruction had emitted, and so does every label block left empty; the rest is what translation left |
| ClifRefused.MissingLabelEnds | crates/compiler/zo-codegen-clif/src/translate.rs:1265-1312 | a jump or branch to a label that the body does not have goes to a block that ends the process |
| ClifRefused.CutTranslates | crates/compiler/zo-codegen-clif/src/translate.rs:690-1535 | up to the refused instruction a function is translated like the function without what comes after |
| ClifRefused.CutStep | crates/compiler/zo-codegen-clif/src/translate.rs:690-1535 | in a program with refused functions the blocks follow the source, sound step by sound step, as long as no function comes to what it was refused for |
| ClifRefused.RefusedExits | crates/compiler/zo-codegen-clif/src/translate.rs:1519-1524 | a run that comes to the refused instruction, to a label after it or past the end of a body ends the process with code 1 |
| ClifRefused.RefusedRun | crates/compiler/zo-codegen-clif/src/translate.rs:690-1535 | from the entry, every sound run of such a program is followed to that place and ends the process there, and not before |
| ClifRefused.RefusedSafely | crates/compiler/zo-codegen-clif/src/translate.rs:690-1535 | the same for every run, where the part before the refusals meets the conditions on the text |
| ClifSafe.DeclaredFresh | crates/compiler/zo-codegen-clif/src/translate.rs:1313-1410 | where a local is declared before any other mention and an initialised declaration is followed by its store, variable and local are given their values together on every path |
| ClifSafe.FreshCells | crates/compiler/zo-codegen-clif/src/translate.rs:1313-1410 | on a path that gives both their values together a variable holds what its local holds |
| Regions.RunApart | crates/compiler/zo-codegen-clif/src/translate.rs:586-612 | if no function lets an aggregate of its own out, no activation ever holds a reference, direct or through the heap, into one that has returned |
| Regions.HeldAlive | crates/compiler/zo-codegen-clif/src/translate.rs:884-930 | hence what an instruction is about to read or write is alive |
| Rounds.LatestHeld | crates/compiler/zo-codegen-clif/src/translate.rs:586-612 | what is used on a way that has not come to its instruction again has not been replaced |
| Rounds.RunRolls | crates/compiler/zo-codegen-clif/src/translate.rs:586-612 | over every run the way an activation has come accounts for each value and local that holds an aggregate that may be built again, and nothing else holds one |
| ClifSafe.SafeRun | crates/compiler/zo-codegen-clif/src/translate.rs:690-1535 | functions that let no aggregate out, use those that may be built again only until then, hand none of these on, and read variables fresh have only sound runs |
| ClifSafe.SafeForward | crates/compiler/zo-codegen-clif/src/translate.rs:690-1535 | what such a program returns the blocks return |
| ClifSafe.SafeBackward | crates/compiler/zo-codegen-clif/src/translate.rs:690-1535 | when the blocks of such a program end, the program has ended alike |
| ClifRounds.RebuiltSafely | crates/compiler/zo-codegen-clif/src/translate.rs:586-612 | a loop that builds an aggregate in every round, keeps it in a local and reads it back is such a function |
| ClifBroken.DeclarationTakenEarly | crates/compiler/zo-codegen-clif/src/translate.rs:1313-1345 | a second declaration with a value is read before its store: the source returns 1, the blocks 2 |
| ClifBroken.ReturnedAggregateGone | crates/compiler/zo-codegen-clif/src/translate.rs:586-612 | reading a field of a returned aggregate gives 5 in the source and touches a dead slot in the blocks |
| ClifLoop.LoopOverwritesSlot | crates/compiler/zo-codegen-clif/src/translate.rs:586-612 | an aggregate kept from the first round of a loop reads 1 in the source and the second round's 0 in the blocks |
| PromotionPlan.ComputeLoopDepth | crates/compiler/zo-codegen-arm/src/promotion.rs:272-306 | label map, difference array and running sum give, at every instruction, the number of back-edges whose span covers it |
| PromotionPlan.RunningSum | crates/compiler/zo-codegen-arm/src/promotion.rs:297-303 | the running sum is that number at every stage, so it is never negative and the clamp changes nothing |
| PromotionPlan.ScoreBound | crates/compiler/zo-codegen-arm/src/promotion.rs:176-207 | scores of bodies of up to 16000 instructions fit 32 bits |
| PromotionPlan.ScoreCounts | crates/compiler/zo-codegen-arm/src/promotion.rs:176-207 | a local scores one for every load and store of it by name and sixteen more for each loop around it, a loop reaching from the last label of a name to a jump back to it |
| PromotionPlan.KindExact | crates/compiler/zo-codegen-arm/src/promotion.rs:182-198 | a local belongs to a bank if and only if it is stored and every store is of that bank |
| PromotionPlan.Ranked | crates/compiler/zo-codegen-arm/src/promotion.rs:249-262 | exactly the candidates of the bank, best score first, ties by symbol |
| PromotionPlan.Analyze | crates/compiler/zo-codegen-arm/src/promotion.rs:165-242 | the best ten and eight candidates hold x19.. and d8.. in rank order, none of the first bank if its registers are not safe |
| PromotionPlan.BankInjective | crates/compiler/zo-codegen-arm/src/promotion.rs:209-234 | no register serves two locals, and registers stay inside their bank |
| PromotionPlan.BankTop | crates/compiler/zo-codegen-arm/src/promotion.rs:209-234 | a candidate stays in memory only when the bank is full of better ones, and every register handed out is saved |
| PromotionPlan.PlanUnique | crates/compiler/zo-codegen-arm/src/promotion.rs:245-262 | the plan does not depend on the order in which maps are walked |
| PromotionPlan.PlanExact | crates/compiler/zo-codegen-arm/src/promotion.rs:148-242 | a local holds the register of its place if and only if every store to it is of the bank and fewer than ten (floats: eight) such locals score higher or as high with a smaller name, x19 and d8 for the first; none of the first bank if its registers are not safe |
| PromotionPlan.BanksDisjoint | crates/compiler/zo-codegen-arm/src/promotion.rs:148-164 | no local is in both banks, and all stores of a promoted local are of its bank |
| PromotedCode.BindValues | crates/compiler/zo-codegen-arm/src/codegen.rs:3667-3685 | the emitter's map from values to registers before each instruction |
| PromotedCode.AnalyzedPlanSound | crates/compiler/zo-codegen-arm/src/promotion.rs:165-242 | every plan of the analysis gives distinct registers, all saved |
| PromotedCode.PromotedParams | crates/compiler/zo-codegen-arm/src/codegen.rs:3500-3560 | after the prologue every promoted parameter's register holds its argument and other registers are untouched |
| PromotedCode.EnterFrame | crates/compiler/zo-codegen-arm/src/codegen.rs:3481-3570 | a fresh frame matches the memory version and its save area undoes the prologue |
| PromotedCode.LeaveSim | crates/compiler/zo-codegen-arm/src/codegen.rs:4856-4868 | a return hands over the value and gives the caller its registers as it left them |
| PromotedCode.StoreFrame | crates/compiler/zo-codegen-arm/src/codegen.rs:4929-4961 | a store moves into the local's register or slot and disturbs no other local |
| PromotedCode.LoadFrame | crates/compiler/zo-codegen-arm/src/codegen.rs:3667-3759 | a load of a promoted local or parameter needs no code |
| PromotedCode.LivesIn | crates/compiler/zo-codegen-arm/src/codegen.rs:4929-4961 | in matched frames a local with a register of the plan is in that register, x or d, and any other in its slot |
| PromotedCode.LoadBinds | crates/compiler/zo-codegen-arm/src/codegen.rs:3667-3685 | from a load of such a local on, by name or as a parameter, its value is read from that register; other loads change no binding |
| PromotedCode.ReadExact | crates/compiler/zo-codegen-arm/src/codegen.rs:1135-1142 | a bound operand reads as the loaded value if and only if the local still holds it |
| PromotedCode.SimulateStep | crates/compiler/zo-codegen-arm/src/codegen.rs:3667-3759 | memory version and promoted version move in step while bound operands are current |
| PromotedCode.PromotionPreserves | crates/compiler/zo-codegen-arm/src/codegen.rs:3481-3570 | every run whose uses are current is preserved over recursive calls, ending with the same value and every callee-saved register restored |
| StaleUse.RememberedIsCurrent | crates/compiler/zo-codegen-arm/src/codegen.rs:3667-3677 | if no path from a promoted load to a use of its value stores to the local, what is about to be used is current |
| StaleUse.RunRemembers | crates/compiler/zo-codegen-arm/src/codegen.rs:3667-3759 | in every reachable state each activation's loaded values are accounted for by a path from their load |
| StaleUse.PromotionSafe | crates/compiler/zo-codegen-arm/src/codegen.rs:3481-3570 | functions without stale uses run the same promoted as in memory |
| StaleUse.PromotedResult | crates/compiler/zo-codegen-arm/src/codegen.rs:4856-4868 | a call returns the same value and heap and gives back every register |
| StaleUse.SwapBroken | crates/compiler/zo-codegen-arm/src/codegen.rs:3667-3677 | the analysis promotes both locals of a swap, which then returns its second argument for its first |
| VecLayout.FlattenWords | crates/compiler/zo-codegen-arm/src/codegen.rs:8551-8580 | flattening writes exactly the leaf words in order, advances by the leaf count, restores the walking register and touches only the buffer and its save slots |
| VecLayout.WordsAreLeaves | crates/compiler/zo-codegen-arm/src/codegen.rs:8551-8580 | the leaf words are the leaves of the struct's value from left to right |
| VecRebuild.RebuildWords | crates/compiler/zo-codegen-arm/src/codegen.rs:8588-8624 | rebuilding makes a live struct of the words it fetches, on exactly the words it writes, advancing by the slots of the nested structs |
| VecLayout.SameWords | crates/compiler/zo-ty/src/ty.rs:650-668 | two live structs of a type with the same leaf words are structurally equal |
| VecRebuild.EmptySkips | crates/compiler/zo-codegen-arm/src/codegen.rs:8504-8511 | past a nested struct without leaves the rebuild goes one word on, past any other field as many words as it has leaves |
| VecRebuild.OrderExact | crates/compiler/zo-codegen-arm/src/codegen.rs:8504-8511 | the rebuild fetches the leaf words in order if and only if no leaf follows a nested struct without leaves |
| VecRebuild.RebuildExact | crates/compiler/zo-codegen-arm/src/codegen.rs:8588-8624 | the rebuilt leaves are the buffer's for every memory if and only if the type is aligned |
| VecRebuild.RoundTrip | crates/compiler/zo-codegen-arm/src/codegen.rs:8551-8624 | pushed and read back, a struct is structurally equal to the original and lives entirely in its reserved words, one per slot, so no block overlaps and no pointer leads back |
| VecRebuild.ReadScratchRoom | crates/compiler/zo-codegen-arm/src/codegen.rs:8671-8702 | the scratch layout of a vector read has the room the rebuild needs |
| VecRebuild.PushScratchRoom | crates/compiler/zo-codegen-arm/src/codegen.rs:8705-8723 | the buffer and save slots of a push, at the end of the area in use, have the room flattening needs if the struct does not reach into the free part |
| VecRebuild.VectorRoundTrip | crates/compiler/zo-codegen-arm/src/codegen.rs:8671-8723 | with both layouts, a struct pushed and read back is structurally equal to the original and lives in the words reserved for it |
| VecRebuild.Lowering.FlattenStruct | crates/compiler/zo-codegen-arm/src/codegen.rs:8551-8580 | the recursive emitter does what the specification says |
| VecRebuild.Lowering.RebuildStruct | crates/compiler/zo-codegen-arm/src/codegen.rs:8588-8624 | the recursive emitter does what the specification says |
| Abi.ClassifyCall | crates/compiler/zo-codegen-arm/src/abi.rs:205-227 | result first, then arguments, gives the specified placements, or nothing where the source panics |
| Abi.ClassState.ClassifyGp | crates/compiler/zo-codegen-arm/src/abi.rs:252-265 | the next general register, else a stack word |
| Abi.ClassState.ClassifyFp | crates/compiler/zo-codegen-arm/src/abi.rs:267-288 | the next FP register, narrowed for 32-bit floats, else a stack word |
| Abi.ClassState.ClassifyStruct | crates/compiler/zo-codegen-arm/src/abi.rs:290-344 | FP registers for a float aggregate that fits, general registers for up to 16 bytes that fit, else a copy with its pointer in a register |
| Abi.ClassState.ClassifyRet | crates/compiler/zo-codegen-arm/src/abi.rs:346-409 | the specified placement of the result, which `Abi.ClassifiedApart` ties to its type |
| Abi.PlaceFacts | crates/compiler/zo-codegen-arm/src/abi.rs:235-344 | one placement suits its type and the registers left, and takes exactly the next registers or stack bytes |
| Abi.ClassifiedApart | crates/compiler/zo-codegen-arm/src/abi.rs:205-409 | registers of each bank are 0, 1, 2, ... without repetition or gap, stack ranges follow the result's slot without a gap inside the least multiple of 16 bytes; each argument goes to the first place its type allows with the registers left when its turn comes; the result gives one FP register per float, general registers for a struct of up to 16 bytes or else the slot, with signed integers below 64 bits or as wide as a pointer extended and 32-bit floats widened |
| Abi.FailsExactly | crates/compiler/zo-codegen-arm/src/abi.rs:319-337 | classification fails if and only if a non-empty struct that does not fit the FP registers arrives after all eight general registers are taken |
| Abi.SizesAdd | crates/compiler/zo-codegen-arm/src/abi.rs:42-71 | a struct is as large as its parts, wherever it is cut and however it is nested, and has no size if one of them has none |
| Abi.SizeAlone | crates/compiler/zo-codegen-arm/src/abi.rs:59-71 | a struct around one type has its size, and is passed as an empty one if that type has none |
| Abi.ScalarSizes | crates/compiler/zo-codegen-arm/src/abi.rs:42-55 | the sizes of integers, floats, flags, characters and pointers; unit, errors and all else have none |
| Itoa.Emit | crates/compiler/zo-codegen-arm/src/codegen.rs:7382-7458 | the digit loop ends and the characters of the signed integer stand before the end of the buffer, nothing else being written |
| Itoa.TextReads | crates/compiler/zo-codegen-arm/src/codegen.rs:7382-7458 | reading the characters back gives the integer, in every radix and for either sign; a minus stands in front of negative integers only |
| Itoa.Thirty | crates/compiler/zo-codegen-arm/src/codegen.rs:7404-7445 | 30 in the four radixes, a negative number and zero |
| Itoa.DigitCount | crates/compiler/zo-codegen-arm/src/codegen.rs:7404-7445 | a number has at most `k` digits if and only if it is below the `k`-th power of the radix |
| Itoa.FitsExactly | crates/compiler/zo-codegen-arm/src/codegen.rs:105-106 | the characters fit the 32-byte buffer for every 64-bit integer in radix 8, 10 and 16, and in binary if and only if the integer is in `(-2^31, 2^32)` |
| Fma.Emitter.EnterFunction | crates/compiler/zo-codegen-arm/src/codegen.rs:1463-1476 | operand reads of every value are its mentions less one |
| Fma.Emitter.TryDefer | crates/compiler/zo-codegen-arm/src/codegen.rs:3104-3151 | a multiply is held back if and only if the specification says so, which `Fma.DefersExactly` describes |
| Fma.DefersExactly | crates/compiler/zo-codegen-arm/src/codegen.rs:3104-3151 | a float multiply is held back if and only if it alone writes its product and one operand of the float addition or subtraction right after it alone reads it |
| Fma.Emitter.Translate | crates/compiler/zo-codegen-arm/src/codegen.rs:3319-3332 | whatever is waiting, an instruction either consumes it or has it emitted in front |
| Fma.LateComputes | crates/compiler/zo-codegen-arm/src/codegen.rs:3152-3166 | a waiting multiply that is not consumed is computed in front of the instruction, which then does what it does or is held back itself |
| Fma.PlainComputes | crates/compiler/zo-codegen-arm/src/codegen.rs:3319-3332 | with nothing waiting an instruction does what it does, or is held back |
| Fma.ConsumedNext | crates/compiler/zo-codegen-arm/src/codegen.rs:3319-3332 | a held-back multiply is consumed by the very next instruction and nothing is emitted late |
| Fma.EmitFunction | crates/compiler/zo-codegen-arm/src/codegen.rs:3804-3820 | the code of every instruction of any stream, each product computed once and none left waiting |
| Fma.ProductIsolated | crates/compiler/zo-codegen-arm/src/codegen.rs:1463-1476 | a held-back product is written by its multiply alone and read by one operand of its consumer alone |
| Fma.FuseStep | crates/compiler/zo-codegen-arm/src/codegen.rs:3172-3205 | for addition and subtraction, with the product on either side, the fused form computes what the two instructions did |
| Fma.FusionPreserves | crates/compiler/zo-codegen-arm/src/codegen.rs:3104-3205 | over whole runs the fused program goes the same way and holds the same values but for products nothing else reads |
| Reactive.TranspileHandler | crates/compiler/zo-codegen-web/src/reactive.rs:322-478 | the specified statements up to the return, the variables written in first-write order and the variables to seed |
| Reactive.SkippedExactly | crates/compiler/zo-codegen-web/src/reactive.rs:456-462 | a handler is skipped if and only if some instruction before its return is not lowered |
| Reactive.HandledExactly | crates/compiler/zo-codegen-web/src/reactive.rs:336-462 | a handler is emitted if and only if up to its return it has only constants, operators, calls, loads and stores of variables of the page, and pushes to a named array |
| Reactive.SeedExact | crates/compiler/zo-codegen-web/src/reactive.rs:464-478 | the page is given exactly the variables a handler writes, pushes to or reads, each once, the written ones first |
| Reactive.DirtyExact | crates/compiler/zo-codegen-web/src/reactive.rs:406-431 | the fired variables are exactly those written or pushed to, each once |
| Reactive.TranspileValue | crates/compiler/zo-codegen-web/src/reactive.rs:519-599 | the specified lowering of a computed closure, which `Reactive.ComputedExactly` and `Repaint.ComputeExact` describe |
| Reactive.ComputedExactly | crates/compiler/zo-codegen-web/src/reactive.rs:519-599 | a computed closure is lowered if and only if it calculates from captures and variables of the page up to the return of a value |
| Reactive.AddOpDrives | crates/compiler/zo-codegen-web/src/reactive.rs:656-661 | adding an operation adds that one binding |
| Reactive.BuildGraph | crates/compiler/zo-codegen-web/src/reactive.rs:112-164 | the graph holds exactly the declared bindings, one entry per variable, and a closure for each lowered computed slot |
| Reactive.GraphExact | crates/compiler/zo-codegen-web/src/reactive.rs:122-164 | a variable drives its text slots, its dynamic attributes, its lists and every lowered computed slot that captures it, and nothing else |
| Repaint.HandlerFollows | crates/compiler/zo-codegen-web/src/reactive.rs:336-465 | statement by statement the handler leaves state and heap as the closure would |
| Repaint.PushExact | crates/compiler/zo-codegen-web/src/reactive.rs:420-433 | a push is followed if and only if the variable it names holds the array |
| Repaint.SeedSuffices | crates/compiler/zo-codegen-web/src/reactive.rs:464-478 | a handler does the same from any two states that agree on the variables the page was given for it |
| Repaint.ValueFollows | crates/compiler/zo-codegen-web/src/reactive.rs:530-593 | statement by statement a lowered computed closure does what its instructions do and leaves variables and heap alone |
| Repaint.ComputeExact | crates/compiler/zo-codegen-web/src/reactive.rs:519-599 | what a computed slot shows is the value its closure returns |
| Repaint.FireSlot | crates/compiler/zo-codegen-web/src/reactive.rs:187-195 | dynamic attributes of the variable are set to its value and the content of elements it drives alone shows it as text or as items, or shows what the computed closure returns; elements that are not there and everything else stay as they were |
| Repaint.FireAllRepaints | crates/compiler/zo-codegen-web/src/reactive.rs:187-200 | firing variables repaints exactly the slots they drive |
| Repaint.InitialPaint | crates/compiler/zo-codegen-web/src/reactive.rs:200-200 | the initial pass paints every slot |
| Repaint.FireExact | crates/compiler/zo-codegen-web/src/reactive.rs:464-466 | firing the written variables leaves the page painted if and only if no other slot shows anything else than before |
| Clicks.LeftAloneSame | crates/compiler/zo-codegen-web/src/reactive.rs:134-150 | a slot that no written variable drives, computed slots included, has the value it had |
| Clicks.RunChanges | crates/compiler/zo-codegen-web/src/reactive.rs:406-431 | a handler changes no variable that it does not fire |
| Clicks.ClickPaints | crates/compiler/zo-codegen-web/src/reactive.rs:187-200 | a painted page stays painted over a click, thrown or not, if and only if no slot left alone shows anything else than before |
| Clicks.StaysPainted | crates/compiler/zo-codegen-web/src/reactive.rs:166-202 | over every run of such clicks the document equals a full repaint |
| Clicks.ShowsSame | crates/compiler/zo-codegen-web/src/reactive.rs:656-661 | whatever rendering does, a slot shows the same in two heaps if and only if it has the same value and all it reaches is unchanged |
| Clicks.ContainedExact | crates/compiler/zo-codegen-web/src/reactive.rs:464-466 | whatever rendering and user functions do, a click is contained if and only if no slot left alone gets another value or reaches a changed block |
| Clicks.FineGrained | crates/compiler/zo-codegen-web/src/reactive.rs:166-202 | with one binding per slot, computed closures that read only captures and calls that may build aggregates, every run of clicks whose pushes reach no slot left alone keeps document and state in step |
| Clicks.PushContained | crates/compiler/zo-codegen-web/src/reactive.rs:420-433 | if calls leave old aggregates alone, a click is contained for every rendering if and only if no slot left alone reaches an array pushed to |
| Clicks.PushedAtEntry | crates/compiler/zo-codegen-web/src/reactive.rs:420-433 | the arrays pushed to are those the variables hold when the click comes, unless a variable is both assigned and pushed to |
| Clicks.RunExact | crates/compiler/zo-codegen-web/src/reactive.rs:166-202 | a run of clicks keeps the page painted for every rendering if and only if every click leaves alone all that untouched slots have and reach |
| Clicks.SharedArrayStale | crates/compiler/zo-codegen-web/src/reactive.rs:420-433 | from a painted page, one handler makes two list slots show one array and a push through one leaves the other stale |
| Clicks.MutatingCallStale | crates/compiler/zo-codegen-web/src/reactive.rs:439-451 | a call that changes the struct it is given leaves the text showing it stale |
| Clicks.ThrownClickStale | crates/compiler/zo-codegen-web/src/reactive.rs:463-465 | a handler that assigns and then throws fires nothing and leaves the page stale |
| Repaint.BuiltPage | crates/compiler/zo-codegen-web/src/reactive.rs:134-150 | the emitted graph meets the conditions on computed closures if they load by name only what they capture |

## Left out

- The register allocator, spills and reloads, caller-saved registers, stack frame sizes and instruction encodings, except the six-bit field of the immediate shifts: values that are not promoted are taken to sit where the allocator put them.
- The contents of Cranelift, libc and the runtime library: calls into them are opaque, but for `exit`, and functions without a body are not part of a program.
- `main` in the Cranelift backend (its forced exit code), the print and check intrinsics, indirect calls, arrays, strings and module constants: refused or absent in the model of that backend.
- JavaScript number semantics and naming: operators are uninterpreted and `js_name` is taken to keep names apart.
- Floating-point rounding: fused multiplies are compared over the reals.
- Initial values of the page state and rendering of list items and attributes as strings: what a slot shows is a parameter.
- Deep copies of returned structs and enums at ARM64 calls, and results of C calls.
- ParamCells.ApartRun: a condition on paths of the text, whether or not data lets them be taken; `JsSim.SimulateStep` has the exact condition of each step.
- ClifSim.SimulateRun: blocks are named in order of first use, touching a slot of a returned activation is undefined, and later reuse of that stack space is not modelled; operators see of references only whether they are the same, and give none.
- Regions.RunApart: the marking of values that may hold own aggregates is one per function, so a program may be sound without having one; `ClifSim.SimulateStep` has the exact condition of each step.
- ClifSafe.SafeRun: an aggregate that may be built again may be kept in locals but not passed to a call, which may be sound; again the step's condition is exact.
- ClifRefused.RefusedExits: says nothing of a refused aggregate that the source itself cannot build because a part has not been computed.
- ClifStraight.StraightSim: array instructions are not part of the model of this backend.
- ClifTranslate.WellFormed: the clean-up visits label blocks in block order, where the source walks a hash map; only value numbers depend on it.
- PromotionPlan.Analyze: loads and stores carry no types, so the bank of each store is an input; sums are unbounded integers (`PromotionPlan.ScoreBound`).
- PromotionPlan.ScoreBound: nothing is stated of bodies of more than 16000 instructions, where the source's 32-bit sum may wrap.
- PromotionPlan.Ranked: an insertion into a sorted list stands for the library's sort.
- PromotedCode.PromotionPreserves: code of other instructions is taken not to touch the promoted registers, which the source checks with a whitelist of instructions.
- Fma.FusionPreserves: jumps are taken to land on labels, and registers of the multiplicands to be intact one instruction later.
- Abi.ClassifyCall: byte counts are unbounded integers; a struct missing from the type table is one without a size.
- Marshal.MarshalExact: calls with float aggregates, whose registers are loaded before the moves; floats read through a struct's base after the moves; sources in the scratch registers, the zero register or d31.
- VecRebuild.RoundTrip: the runtime is taken to hand back the words it was given; offsets are counted in words.
- Repaint.HandlerFollows: asks that a push names the variable that holds the array (`Repaint.PushExact` shows it is needed), and user functions to do in JavaScript what they do in the source.
- Clicks.RunExact: a call that throws leaves the heap as it was; operators give primitives.
