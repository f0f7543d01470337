# Verified models of Lua 5.1, LPeg 0.9 and their MIME, MD5 and DES helpers

This project models the parts of the bundled interpreter and libraries whose correctness is hardest to
see, in Dafny, and proves what they are for.  Algorithms that work in place are methods over arrays and
classes, each proved against a function of its inputs or of the old state; what those functions mean is
proved against independent references.

- **LPeg** (`Lpeg*.dfy`): the combinators as a compiler into the backtracking machine, its optimizations
  (captures moved over checks, tests in front of choices, shortened jumps, choices taken apart and
  rebuilt), the loop test, and the machine.  The reference is a recursive evaluator of patterns
  (`LpegReference`).  Compiled code means what the pattern means, with captures.  This is proved for
  instructions first; `LpegCell*.dfy` carry it to the cells that are really written, where a charset takes
  eight cells more and the builder steps by cells, and `LpegInPlace` and `LpegVm` work on those.  Six
  shortcuts of the builder are not right everywhere, two of them because the end of a charset is read as
  an instruction; for each there is an input on which it fails.
- **Garbage collector** (`Gc*.dfy`): the incremental collector as a state machine over a heap, with the
  program's stores, barriers, allocations and string interning as further events.  One invariant holds in
  every state of every interleaving; nothing that a program can reach is ever freed; a full collection
  ends and frees exactly the rest.
- **Tables** (`TableNodes`, `TableMap`, `TableClass`, `TableRehash`, `TableObserve`, `TableTraverse`): array
  part and chained scatter table with Brent's variation agree with a plain map through every insertion
  and rehash; the array size is optimal; length, traversal and searches agree with the map.
- **Sorting** (`TableSort`): the quicksort of the table library, which ends for every order function.
- **Expressions** (`CodeParse`, `CodeMachine`, `CodeGen`): operator-precedence parsing straight into register
  code, with constant folding, against a grammar and an evaluator.
- **Jump lists** (`CodeJumps`): lists of jumps threaded through the instructions themselves.
- **String patterns** (`Pattern*.dfy`): the recursive matcher with captures undone in place, against all ways
  to match, and what is written against what is read; searching, and substitution against the matches to be replaced.
- **Quoted-printable** (`Qp*.dfy`, section 6.7 of RFC 2045): streaming encoder, line wrapper and decoder, over
  every cutting into chunks.
- **Ciphers** (`DesBits`, `Des`, `DesText`, `Md5Cfb`): round trips of DES, of the text functions on it, and of
  the cipher-feedback stream.
- **Precompiled chunks** (`Chunk*.dfy`): writer and loader.

Where the code does not do what it is for, the model does what the code does, and a lemma says exactly
when that is right: the and-predicate of a charset succeeds at the end of the subject (`AndExact`); two
any-patterns are merged although one of them is a test (`MergeExact`); captures are moved although a test
leads between them and the check (`MoveGoesWrong`, `LandingExact`, `TracesExact`); a rebuilt choice goes back
one byte whatever the test consumed (`RebuiltExact`); the scan back from a capture takes the end of a charset
for a capture (`CellCapturesExact`, `MisreadGoesWrong`); the search for the end of an alternative takes it for a
jump (`FirstPartExact`, `SeparatedGoesWrong`); where a moved capture makes a test lead into a charset, the loop
test may accept a loop that never ends (`LoopTestGoesWrong`); quoted-printable lines of fewer than 4 bytes lose text (`RoundTripExact` of
`QpCodec`); a single decoding call whose result would start with a zero byte returns nothing (`ShownExact`); a
function without a source gets the enclosing one when a chunk is loaded (`RoundTripExact` of `ChunkFormat`); a table
that is weak both ways keeps the keys of its empty entries, also of freed objects (`FullGcKeys`, `StaleKeyStays`).
With an order function that is not a strict weak order, sorting still ends and permutes, but it may exchange
a slot of its range with the one behind it (`SlotBeside`).  The test `nofail` of LPeg's `interfere` is never true where it is asked (`NoInterference`).

Inputs and outputs, clocks, random seeds, memory errors and the Lua stack are parameters or are not
modelled.  Numbers are integers with uninterpreted operations in `CodeMachine`, hashing is an arbitrary
function in the table modules, the contents of the S-boxes, the key schedule and the hash function are
arbitrary functions in the ciphers, and the code checker is an arbitrary predicate in the loader.

The cells of LPeg are those of a 32-bit machine that stores the lower byte first: four bytes each, read as
an opcode, a byte and a signed 16-bit offset.  What is read beyond the end of the table of opcode properties
is arbitrary: the results hold for every such table.

## Model

| member | source | states |
|---|---|---|
| LpegCompiler.CompileCorrect | org.keplerproject.lua4wince/source/lpeg/lpeg.c:1215-1532 | for every pattern in which no shortcut is taken where it is wrong (`Safe`): the code emitted for it, instruction by instruction, runs on every subject, from every position, to exactly the outcome (end and captures, or failure) of the recursive meaning; the error for an empty loop body is raised only if the body of some loop is nullable by the syntactic criterion, and accepted loops always advance |
| LpegCompiler.LoopTestSound | org.keplerproject.lua4wince/source/lpeg/lpeg.c:578-686 | if the loop test accepts the code of a pattern in which no shortcut is misused, that code never succeeds without advancing in the subject; `LoopTestGoesWrong` shows that this is not so of every pattern |
| LpegCompiler.CompiledTerminates | org.keplerproject.lua4wince/source/lpeg/lpeg.c:378-566 | every run of the instructions of a compiled pattern in which no shortcut is misused comes to an end on every subject, and that end is the meaning of the pattern; `CellsCorrect` says the same of its cells |
| LpegCellCompiler.CellsCorrect | org.keplerproject.lua4wince/source/lpeg/lpeg.c:378-1561 | the same for what is really written: the cells of a pattern, charsets included, run as cells from any position of any subject, come to an outcome if and only if it is the outcome that the pattern means, for every pattern in which no shortcut is misused and no charset misread |
| LpegCellCompiler.CompilersAgree | org.keplerproject.lua4wince/source/lpeg/lpeg.c:1215-1561 | the builder over cells writes the cells of the code that the compiler over instructions emits, and raises the same errors, whatever is read beyond the end of the opcode table |
| LpegCellCompiler.CellErrors | org.keplerproject.lua4wince/source/lpeg/lpeg.c:1466-1473 | the error for an empty loop body is raised only if some body is nullable by the syntactic criterion, and never together with code |
| LpegCellCompiler.VerdictAgrees | org.keplerproject.lua4wince/source/lpeg/lpeg.c:578-686 | the loop test gives the cells of a code the verdict that it gives the code; in particular it never takes the end of a charset for the instruction before a failure |
| LpegCellRun.CodeBack | org.keplerproject.lua4wince/source/lpeg/lpeg.c:108-140 | each instruction of a code is read back as it was from its cells, a charset with its 32 bytes included |
| LpegCellRun.ExecAgrees | org.keplerproject.lua4wince/source/lpeg/lpeg.c:378-566 | the machine over the cells of a code comes to an outcome if and only if the machine over its instructions does |
| LpegCellRun.WalkAgrees | org.keplerproject.lua4wince/source/lpeg/lpeg.c:578-686 | the walk of the loop test through cells is the walk through instructions, as long as no assertion breaks |
| LpegCellRelate.CharsetBack | org.keplerproject.lua4wince/source/lpeg/lpeg.c:171-172 | testing bits in the raw cells of a charset gives back the charset |
| LpegCellPasses.CellCapturesExact | org.keplerproject.lua4wince/source/lpeg/lpeg.c:781-806 | the pass over cells, which steps back by one cell at a time, gives the cells of the code with its captures moved if and only if no charset whose last cell looks like a movable capture (with an offset below MAXOFF) stands directly before a group that is moved |
| LpegCellJumps.FirstPartExact | org.keplerproject.lua4wince/source/lpeg/lpeg.c:1308-1321 | firstpart, which reads the cell before a jump target, finds the end of the first alternative where the instructions have it, if and only if that cell is not the end of a charset that looks like the jump at the end of an alternative |
| LpegCellJumps.JumpsAgree | org.keplerproject.lua4wince/source/lpeg/lpeg.c:809-821 | the pass that shortens jumps does the same over cells as over instructions |
| LpegCellShapes.ChoiceAgrees | org.keplerproject.lua4wince/source/lpeg/lpeg.c:824-834 | turning a check of one or of nine cells into a test before the choice gives the cells of the rewritten code |
| LpegCellCombine.ConcatExact | org.keplerproject.lua4wince/source/lpeg/lpeg.c:1215-1233 | the concatenation of cells is the concatenation of code if and only if the pass that moves captures is not reached or misreads no charset |
| LpegCellCombine.DiffAgrees | org.keplerproject.lua4wince/source/lpeg/lpeg.c:1236-1263 | the difference over cells, in all its forms |
| LpegCellCombine.AndAgrees | org.keplerproject.lua4wince/source/lpeg/lpeg.c:1285-1305 | the and-predicate over cells, in all its forms |
| LpegCellCombine.AtLeastExact | org.keplerproject.lua4wince/source/lpeg/lpeg.c:1438-1532 | the three forms of repetition over cells, passes included, give the cells of the repetition if and only if the body is a charset or no charset is misread |
| LpegCellCombine.AtMostAgrees | org.keplerproject.lua4wince/source/lpeg/lpeg.c:1483-1532 | both forms of options over cells |
| LpegCellCombine.CaptureExact | org.keplerproject.lua4wince/source/lpeg/lpeg.c:1541-1561 | the capture of a pattern over cells is that of its code if and only if the whole pattern is checks or the pass misreads no charset |
| LpegCellChoice.SeparateExact | org.keplerproject.lua4wince/source/lpeg/lpeg.c:1324-1417 | taking a choice apart and rebuilding it over cells gives the cells of the rebuilt code if and only if no charset is taken for the end of an alternative on the way |
| LpegCellCombine.UnionExact | org.keplerproject.lua4wince/source/lpeg/lpeg.c:1420-1435 | the choice over cells is the choice of the instructions if and only if one of them is trivial or no charset is taken for the end of an alternative of the first |
| LpegCellCombine.NeverMisreadIs | org.keplerproject.lua4wince/source/lpeg/lpeg.c:781-806 | the condition used for patterns holds if and only if no charset is misread whatever is read beyond the end of the opcode table |
| LpegCellShortcuts.MisreadGoesWrong | org.keplerproject.lua4wince/source/lpeg/lpeg.c:791-803 | an input: after a set of the bytes 225 and 228 the position and a byte, the charset is taken for a capture and rotated, and the pattern fails where it should match |
| LpegCellShortcuts.LoopTestGoesWrong | org.keplerproject.lua4wince/source/lpeg/lpeg.c:578-686 | an input that the loop test accepts although its loop does not end: the test of an optional byte, moved over a position, leads into a charset, where the cells run pass without a byte, and the loop around it never comes to an outcome on the empty subject |
| LpegCellShortcuts.SeparatedGoesWrong | org.keplerproject.lua4wince/source/lpeg/lpeg.c:1308-1417 | an input: an option of a set of the bytes 224, 225, 226 and 240 in a choice is taken apart, and its charset rewritten so that 240 is not in it any more |
| LpegReference.NotNullableAdvances | org.keplerproject.lua4wince/source/lpeg/lpeg.c:578-686 | a pattern whose meaning cannot be empty by the syntactic criterion moves forward whenever it matches |
| LpegReference.EvalBounds | org.keplerproject.lua4wince/source/lpeg/lpeg.c:378-566 | no pattern moves backward or past the end of the subject |
| LpegMachine.EmbedRun | org.keplerproject.lua4wince/source/lpeg/lpeg.c:378-566 | what a fragment does on its own it does inside any larger code that holds it, over any backtrack stack, which it leaves unchanged below |
| LpegMachine.ReachUnique | org.keplerproject.lua4wince/source/lpeg/lpeg.c:378-566 | a run of the machine has at most one end |
| LpegSimulation.MoveSliceRun | org.keplerproject.lua4wince/source/lpeg/lpeg.c:743-806 | every run that starts outside a slice of captures followed by checks comes to the same end when the captures are moved behind the checks and corrected |
| LpegSimulation.MoveSliceExec | org.keplerproject.lua4wince/source/lpeg/lpeg.c:743-806 | moving a run of captures over the checks behind it, with the consumed length added to the offsets, keeps the outcome: same failures, same end, same capture list |
| LpegWellFormed.OptimizeCapturesCorrect | org.keplerproject.lua4wince/source/lpeg/lpeg.c:781-806 | the whole pass, stepping by instructions, changes no outcome and leaves no offset above MAXOFF, provided no test leads into a moved slice; `CellCapturesExact` says when the pass over cells is this one, and `TracesExact` what a test into a slice does |
| LpegSimulation.ShortcutExec | org.keplerproject.lua4wince/source/lpeg/lpeg.c:809-821 | a jump to a jump may go straight to the second target |
| LpegWellFormed.OptimizeJumpsCorrect | org.keplerproject.lua4wince/source/lpeg/lpeg.c:815-821 | the pass that shortens jumps changes no outcome and nothing but jump offsets |
| LpegSimulation.HeadFailExec | org.keplerproject.lua4wince/source/lpeg/lpeg.c:841-847 | a head-fail code fails exactly when its first check does |
| LpegSequence.OptimizeChoiceExec | org.keplerproject.lua4wince/source/lpeg/lpeg.c:824-834 | turning the first check of an alternative into a test before the choice keeps the outcome |
| LpegSequence.DiffExec | org.keplerproject.lua4wince/source/lpeg/lpeg.c:1236-1263 | the code of a difference has the outcome of `-c2 c1`, in the test form and in the choice form |
| LpegSequence.AndCharsetExec | org.keplerproject.lua4wince/source/lpeg/lpeg.c:1291-1296 | what the charset shortcut of the and-predicate does, at the end of the subject too |
| LpegSequence.SeqExec | org.keplerproject.lua4wince/source/lpeg/lpeg.c:1215-1233 | the outcome of two codes in sequence is that of the second from where the first ends |
| LpegChoice.SeparateGood | org.keplerproject.lua4wince/source/lpeg/lpeg.c:1308-1417 | re-associating a choice: taking (a / b) apart and rebuilding it with c gives code that does a, else b, else c on every subject, and that can itself be taken apart again, provided each rebuilt alternative has a test of one byte or cannot fail past its test |
| LpegChoice.NoInterference | org.keplerproject.lua4wince/source/lpeg/lpeg.c:1333-1352 | an alternative that keeps its bare test cannot hide the new last alternative: where it fails after its test, the new one fails too |
| LpegChoice.BasicUnionExec | org.keplerproject.lua4wince/source/lpeg/lpeg.c:1355-1384 | a choice of two codes, in whichever of the three forms, is the first outcome or else the second |
| LpegChoice.CheckedExclusive | org.keplerproject.lua4wince/source/lpeg/lpeg.c:975-986 | if the first checks of two codes are disjoint one of the codes fails at every place |
| LpegChoice.OptionExec | org.keplerproject.lua4wince/source/lpeg/lpeg.c:1494-1506 | an option inside a choice ends at its own end or jumps over what follows |
| LpegRepetition.SpanExec | org.keplerproject.lua4wince/source/lpeg/lpeg.c:1438-1448 | the code of a repeated charset matches as the repetition does |
| LpegRepetition.HeadLoopExec | org.keplerproject.lua4wince/source/lpeg/lpeg.c:1451-1463 | the loop for a head-fail body matches as the repetition does |
| LpegRepetition.ChoiceLoopExec | org.keplerproject.lua4wince/source/lpeg/lpeg.c:1466-1480 | the general loop matches as the repetition does: the pending choice always points at where the last complete match ended |
| LpegRepetition.OptionalsCorrect | org.keplerproject.lua4wince/source/lpeg/lpeg.c:1494-1506 | the code for up to n options never fails and matches as many as it can |
| LpegVerifier.MoveSliceWalks | org.keplerproject.lua4wince/source/lpeg/lpeg.c:578-686 | the loop test gives the same verdict before and after captures are moved |
| LpegShortcuts.AndExact | org.keplerproject.lua4wince/source/lpeg/lpeg.c:1285-1305 | the and-predicate is compiled rightly if and only if its charset shortcut is not taken |
| LpegShortcuts.AndGoesWrong | org.keplerproject.lua4wince/source/lpeg/lpeg.c:1291-1296 | an input: &any(1) succeeds at the end of the subject |
| LpegShortcuts.MergeExact | org.keplerproject.lua4wince/source/lpeg/lpeg.c:1211-1224 | two any-codes are merged rightly if and only if the second is a check and the first is one too or does not ask for more |
| LpegShortcuts.MergeGoesWrong | org.keplerproject.lua4wince/source/lpeg/lpeg.c:1211-1224 | an input: any(1) followed by an optional any(1) fails on one byte |
| LpegShortcuts.RebuiltExact | org.keplerproject.lua4wince/source/lpeg/lpeg.c:1400-1416 | the rebuilt choice, which always goes back one byte, is right before every other alternative on every subject if and only if the test of its first alternative consumes one byte, or that alternative never fails once it has passed its test |
| LpegShortcuts.HeadFailRebuilt | org.keplerproject.lua4wince/source/lpeg/lpeg.c:837-847 | it is right wherever nothing past the first check can fail, which can be seen in the code |
| LpegShortcuts.RebuildGoesWrong | org.keplerproject.lua4wince/source/lpeg/lpeg.c:1400-1416 | an input: with an empty charset as an alternative a pattern matches one byte too far |
| LpegShortcuts.MoveGoesWrong | org.keplerproject.lua4wince/source/lpeg/lpeg.c:781-806 | an input: a test that leads between a capture and a check makes the moved code skip the check |
| LpegLandings.LandingExact | org.keplerproject.lua4wince/source/lpeg/lpeg.c:781-806 | where a test leads strictly inside moved captures and checks, and no assertion of the machine breaks, the original and the moved code leave them in the same state if and only if both fail there, that is, one of the checks left in each of them fails |
| LpegLandings.SameCell | org.keplerproject.lua4wince/source/lpeg/lpeg.c:781-806 | a test that leads to one cell inside them, at the start of an instruction in either layout, finds fewer checks left in the moved code, whatever the widths |
| LpegLandings.SameIndex | org.keplerproject.lua4wince/source/lpeg/lpeg.c:743-806 | without a charset among the moved captures and checks an index inside them is the same cell before and after the move |
| LpegLandings.TracesExact | org.keplerproject.lua4wince/source/lpeg/lpeg.c:781-806 | over whole runs: both codes come to the same states outside the moved captures and checks if and only if every landing of the run inside them fails in both |
| LpegLandings.LandingExec | org.keplerproject.lua4wince/source/lpeg/lpeg.c:781-806 | a run whose landings all fail in both codes ends alike in both, be there tests that lead inside or not |
| LpegLandings.PartedButSame | org.keplerproject.lua4wince/source/lpeg/lpeg.c:781-806 | an input: two codes that part at a landing may still come to the same outcome, because what follows fails anyway |
| LpegVm.Matcher.Backtrack | org.keplerproject.lua4wince/source/lpeg/lpeg.c:489-497 | fail: the youngest choice is taken up again with its position and captures, or matching ends |
| LpegVm.Matcher.StepJump | org.keplerproject.lua4wince/source/lpeg/lpeg.c:442-497 | one round for a jump, a choice, a commit or a failure changes the machine as the step function says |
| LpegVm.Matcher.StepCheck | org.keplerproject.lua4wince/source/lpeg/lpeg.c:409-426 | one round for a check or a test, charsets read from their cells, changes the machine as the step function says |
| LpegVm.Matcher.StepCapture | org.keplerproject.lua4wince/source/lpeg/lpeg.c:526-558 | one round for a capture instruction changes the machine as the step function says |
| LpegVm.Match | org.keplerproject.lua4wince/source/lpeg/lpeg.c:378-566 | the loop over cells returns their outcome, or the stack-limit error if and only if the run would need more than the allowed number of pending choices |
| LpegVm.MatchPattern | org.keplerproject.lua4wince/source/lpeg/lpeg.c:378-566 | matching the cells written for a pattern returns what the pattern means, or the stack-limit error if and only if the run overflows the stack |
| LpegVm.Verify | org.keplerproject.lua4wince/source/lpeg/lpeg.c:578-686 | the loop over cells with its own stack returns the verdict of the loop test, or the stack-limit error, and none of its assertions fails |
| LpegInPlace.RotatedAt | org.keplerproject.lua4wince/source/lpeg/lpeg.c:743-761 | where each element is after a rotation |
| LpegInPlace.ThreeInversions | org.keplerproject.lua4wince/source/lpeg/lpeg.c:757-761 | a rotation is three inversions |
| LpegInPlace.Rotate | org.keplerproject.lua4wince/source/lpeg/lpeg.c:757-761 | rotation in place by three inversions gives the rotated array |
| LpegInPlace.OptimizeCapturesPass | org.keplerproject.lua4wince/source/lpeg/lpeg.c:781-806 | the pass over the array of cells, with its scan back by single cells, computes the pass that `CellCapturesExact` is about |
| LpegInPlace.OptimizeJumpsPass | org.keplerproject.lua4wince/source/lpeg/lpeg.c:815-821 | on the cells of well-formed code the pass over the array ends, and computes the cells with shortened jumps |
| LpegInPlace.FollowJumps | org.keplerproject.lua4wince/source/lpeg/lpeg.c:809-812 | the loop that follows jumps, forward or back, ends on the cells of well-formed code |
| LpegInPlace.BackJumpEnds | org.keplerproject.lua4wince/source/lpeg/lpeg.c:809-812 | in the cells of well-formed code a jump that goes back does not lead to another jump |
| LpegInPlace.OptimizeChoicePass | org.keplerproject.lua4wince/source/lpeg/lpeg.c:824-834 | the check behind a choice is rotated before it, in place, and made a test |
| LpegInPlace.ConcatL | org.keplerproject.lua4wince/source/lpeg/lpeg.c:1215-1233 | the builder fills a new array with the cells of the concatenation |
| LpegInPlace.DiffL | org.keplerproject.lua4wince/source/lpeg/lpeg.c:1236-1263 | the builder fills a new array with the cells of the difference |
| LpegInPlace.SeparatePartsBuild | org.keplerproject.lua4wince/source/lpeg/lpeg.c:1324-1417 | the recursive builder leaves the cells that its caller fills and writes the rebuilt choice behind them |
| LpegInPlace.UnionL | org.keplerproject.lua4wince/source/lpeg/lpeg.c:1420-1435 | the builder fills a new array with the cells of the choice |
| LpegInPlace.StarL | org.keplerproject.lua4wince/source/lpeg/lpeg.c:1509-1532 | for a count that is not negative the builder makes the cells of the repetition, or reports an empty loop body, or the stack limit of the loop test; for a negative one it makes the cells of that many options |
| LpegInPlace.OptionalsBuild | org.keplerproject.lua4wince/source/lpeg/lpeg.c:1494-1506 | the loop writes a partial commit behind each copy, and the last one becomes a commit |
| LpegInPlace.OptionalHeadFailBuild | org.keplerproject.lua4wince/source/lpeg/lpeg.c:1483-1491 | each copy gets a test over itself and the copies behind it |
| LpegInPlace.CaptureAux | org.keplerproject.lua4wince/source/lpeg/lpeg.c:1541-1561 | the builder makes a full capture behind checks, or puts the pattern between an open and a close capture |
| GcProgram.NothingReachableIsFreed | org.keplerproject.lua4wince/source/lua/lgc.c:556-607 | after every interleaving of collector steps with stores and their barriers, allocations, string interning and metatable changes, starting from a new state: whatever the program can reach is in the heap and not dead |
| GcProgram.RunsInv | org.keplerproject.lua4wince/source/lua/lgc.c:556-692 | the collector invariant (heap closed under references of live objects, roots alive, lists disjoint and complete, tri-colour condition while marking, white split while sweeping) holds in every reachable state |
| GcProgram.DoInv | org.keplerproject.lua4wince/source/lua/lgc.c:662-692 | every collector step and every action of the program keeps the invariant |
| GcProgram.StoreInv | org.keplerproject.lua4wince/source/lua/lgc.c:662-683 | a store into an object, with the barrier that goes with it, keeps the invariant in every phase |
| GcProgram.BackInv | org.keplerproject.lua4wince/source/lua/lgc.c:675-683 | one backward barrier pays for all references from a table to white objects at once |
| GcProgram.NewInv | org.keplerproject.lua4wince/source/lua/lgc.c:686-692 | a new object gets the current white and is linked where the sweep cannot take it for dead |
| GcProgram.LinkInv | org.keplerproject.lua4wince/source/lua/lgc.c:686-692 | a linked object is alive, and the invariant holds, in every phase, before anything refers to it |
| GcProgram.ResurrectInv | org.keplerproject.lua4wince/source/lua/lgc.c:66-86 | a dead string that is found again becomes alive by the change of its white, and the invariant holds |
| GcProgram.BarrierAllowed | org.keplerproject.lua4wince/source/lua/lgc.c:662-683 | the assertions of the two barriers hold wherever the program calls them |
| GcProgram.InitialInv | org.keplerproject.lua4wince/source/lua/lgc.c:556-607 | a new state satisfies the invariant |
| GcProgram.SweepIsInvisible | org.keplerproject.lua4wince/source/lua/lgc.c:568-597 | a sweep step removes nothing that the program can reach and changes the contents of nothing that it can reach |
| GcSafety.MarkRootInv | org.keplerproject.lua4wince/source/lua/lgc.c:501-512 | starting a cycle keeps the invariant |
| GcSafety.PropagateInv | org.keplerproject.lua4wince/source/lua/lgc.c:277-320 | traversing one gray object keeps the invariant |
| GcSafety.AtomicInv | org.keplerproject.lua4wince/source/lua/lgc.c:525-553 | the atomic phase keeps the invariant: from then on dead means not marked |
| GcTricolor.PropagateTricolor | org.keplerproject.lua4wince/source/lua/lgc.c:277-320 | during propagation no black object refers to a white one: traversing keeps this, but for weak references of weak tables on the weak list |
| GcTricolor.MarkedTricolor | org.keplerproject.lua4wince/source/lua/lgc.c:69-112 | marking objects keeps the tri-colour condition |
| GcAtomic.AtomicClosed | org.keplerproject.lua4wince/source/lua/lgc.c:525-553 | after the atomic phase no marked object refers to an unmarked one, by any reference, strong or weak |
| GcAtomic.ClearTablesDone | org.keplerproject.lua4wince/source/lua/lgc.c:351-375 | clearing the weak tables leaves no reference to an unmarked object in any of them, and spoils no other object |
| GcWeak.WeakExact | org.keplerproject.lua4wince/source/lua/lgc.c:337-375 | in the atomic phase a table of the weak list loses exactly its entries with a part that is dead afterwards (or a finalized userdata as the value; strings never count as dead), in the array part only if its values are weak; every other table keeps all its entries |
| GcWeak.TablesKept | org.keplerproject.lua4wince/source/lua/lgc.c:351-375 | clearing the listed tables one after the other, also one that is listed twice, clears in each what the first look at it would clear |
| GcSweep.SingleStepInv | org.keplerproject.lua4wince/source/lua/lgc.c:556-607 | a step in any phase keeps the invariant |
| GcSweep.SweepKeepsAlive | org.keplerproject.lua4wince/source/lua/lgc.c:407-428 | whatever is alive is still there after a sweep step, with the same contents |
| GcFull.StepAdvances | org.keplerproject.lua4wince/source/lua/lgc.c:556-607 | every step of a cycle lowers the measure of phase, unmarked objects, and what is left to sweep or traverse |
| GcFull.FullGc | org.keplerproject.lua4wince/source/lua/lgc.c:636-659 | a full collection from any state of the invariant ends at GCSpause, with the invariant |
| GcFull.AbandonedFreesNothing | org.keplerproject.lua4wince/source/lua/lgc.c:636-659 | abandoning a mark phase and sweeping frees no object and changes the contents of none |
| GcExact.FullGcExact | org.keplerproject.lua4wince/source/lua/lgc.c:636-659 | after a full collection from any state, what is strongly reachable is left, and everything left was strongly reachable, a string held by a reachable weak table, or fixed |
| GcExact.CycleExact | org.keplerproject.lua4wince/source/lua/lgc.c:501-607 | one cycle from an unmarked heap leaves what is strongly reachable and frees the rest, but for fixed objects and strings held by weak tables |
| GcExact.MarkedIsStrong | org.keplerproject.lua4wince/source/lua/lgc.c:69-328 | what the mark phase has marked was strongly reachable at its start |
| GcKeys.AtomicKeys | org.keplerproject.lua4wince/source/lua/lgc.c:62-66 | after the atomic phase no marked table has a key that refers to an unmarked object, of an empty entry either, unless the table is weak both ways; if no black table had a stale key before, its empty entries have no collectable key at all |
| GcKeys.DoKeys | org.keplerproject.lua4wince/source/lua/lgc.c:158-196 | every step of the collector, and every action of a program that pays for the keys it uses, keeps the keys of black tables marked, those of empty entries too |
| GcKeys.NoKeyDangles | org.keplerproject.lua4wince/source/lua/lgc.c:525-553 | over every interleaving: when the marking of a cycle is over, no table that stays has a key that goes, unless it is weak both ways |
| GcKeys.FullGcKeys | org.keplerproject.lua4wince/source/lua/lgc.c:636-659 | after a full collection, from any state: in a table that is not weak both ways every empty entry has lost its collectable key and no key of any entry refers to an object that is gone; weak parts may lose entries, with their keys; everything else in a table stays |
| GcKeys.StaleKeyStays | org.keplerproject.lua4wince/source/lua/lgc.c:176-176 | an input: a table that is weak both ways keeps, in an empty entry, a key to an object that a full collection has freed |
| GcAtomic.SeparateExact | org.keplerproject.lua4wince/source/lua/lgc.c:128-155 | exactly the unmarked userdata of the list are noted as finalized |
| GcMark.MarkEachMarks | org.keplerproject.lua4wince/source/lua/lgc.c:69-112 | marking a list of objects leaves none of them white |
| GcMark.MarkEachOnlyIn | org.keplerproject.lua4wince/source/lua/lgc.c:69-112 | marking members of a set closed under strong references marks nothing outside it |
| GcPropagate.PropagateFacts | org.keplerproject.lua4wince/source/lua/lgc.c:277-320 | traversing takes the first gray object off its list, colours it as its kind demands, and marks what it keeps alive and nothing else |
| GcCycle.ReachableAlive | org.keplerproject.lua4wince/source/lua/lgc.c:556-607 | what the program can reach is alive in every state of the invariant |
| GcCycle.AliveIs | org.keplerproject.lua4wince/source/lua/lgc.h:66-76 | dead means white with the other white: the test of the sweep and the macro isdead agree but for fixed objects |
| GcCollector.Collector.ReallyMarkObject | org.keplerproject.lua4wince/source/lua/lgc.c:69-112 | marking in place changes colours and the gray list as the marking function does |
| GcCollector.Collector.TraverseTableAt | org.keplerproject.lua4wince/source/lua/lgc.c:158-196 | traversing a table in place marks what the function marks, whatever the order in which empty entries are removed, and tells whether it is weak |
| GcCollector.Collector.PropagateMarkStep | org.keplerproject.lua4wince/source/lua/lgc.c:277-320 | propagatemark in place |
| GcCollector.Collector.ClearTablesLoop | org.keplerproject.lua4wince/source/lua/lgc.c:351-375 | cleartable in place, with the side effect of marking strings |
| GcCollector.Collector.AtomicStep | org.keplerproject.lua4wince/source/lua/lgc.c:525-553 | atomic in place |
| GcCollector.Collector.MarkRootStep | org.keplerproject.lua4wince/source/lua/lgc.c:501-512 | markroot in place |
| GcCollector.Collector.SweepListLoop | org.keplerproject.lua4wince/source/lua/lgc.c:407-428 | sweeplist: what it kept, what it removed and what it did not reach |
| GcCollector.Collector.Singlestep | org.keplerproject.lua4wince/source/lua/lgc.c:556-607 | singlestep in place is the step function, in every phase |
| GcCollector.Collector.Fullgc | org.keplerproject.lua4wince/source/lua/lgc.c:636-659 | luaC_fullgc in place |
| GcCollector.Collector.Barrierf | org.keplerproject.lua4wince/source/lua/lgc.c:662-672 | the forward barrier in place: the invariant, broken for the object at most, holds on, nothing dies, and the new reference is paid for: while marking the value is not white any more and the object is as it was, otherwise the object is not black any more and the value is as it was |
| GcCollector.Collector.Barrierback | org.keplerproject.lua4wince/source/lua/lgc.c:675-683 | the backward barrier in place: the table is gray and on the list to be traversed again, and the invariant, which the stores into it may have broken for it, is whole, whatever was stored |
| GcCollector.Collector.Link | org.keplerproject.lua4wince/source/lua/lgc.c:686-692 | linking in place: the new object is alive and listed where a sweep under way does not take it for dead, the invariant holds, and all other objects stay as they were |
| TableNodes.TakePlaceOk | org.keplerproject.lua4wince/source/lua/ltable.c:399-429 | a key that takes its free main position (or a dead entry there) keeps all chains in order |
| TableNodes.ChainInOk | org.keplerproject.lua4wince/source/lua/ltable.c:399-429 | a key that goes to a free node, chained behind a colliding node in its own main position, keeps all chains in order |
| TableNodes.MoveOutOk | org.keplerproject.lua4wince/source/lua/ltable.c:399-429 | Brent's variation: moving a colliding node out of another key's main position keeps chains acyclic, every live key reachable from its main position, and every displaced key colliding with a node in its own main position |
| TableMap.MoveOutKeeps | org.keplerproject.lua4wince/source/lua/ltable.c:399-429 | moving a colliding node changes no lookup |
| TableMap.StoreVal | org.keplerproject.lua4wince/source/lua/ltable.c:494-529 | storing into the entry of a key changes the value of that key alone |
| TableClass.Table.FindNode | org.keplerproject.lua4wince/source/lua/ltable.c:435-491 | the walk down the chain of the main position finds the live node of a key if and only if there is one |
| TableClass.Table.Get | org.keplerproject.lua4wince/source/lua/ltable.c:469-491 | lookup agrees with the map |
| TableClass.Table.GetFreePos | org.keplerproject.lua4wince/source/lua/ltable.c:382-388 | the free pointer moves down to a free node, with all nodes above it used; without one the hash part is full |
| TableClass.Table.FindPrevious | org.keplerproject.lua4wince/source/lua/ltable.c:412-413 | the search for the predecessor of a colliding node ends at the node before it |
| TableClass.Table.Place | org.keplerproject.lua4wince/source/lua/ltable.c:399-429 | one of the three placements: chains stay in order, the new key has a slot, no lookup changes, and only one node is newly used |
| TableClass.Table.NewKey | org.keplerproject.lua4wince/source/lua/ltable.c:399-429 | insertion refines map insertion: the key gets a slot and no lookup changes, also when the table is rehashed; without rehash the arrays stay |
| TableClass.Table.SlotFor | org.keplerproject.lua4wince/source/lua/ltable.c:494-529 | the slot of a key is found or made; nil and NaN are refused |
| TableClass.Table.Set | org.keplerproject.lua4wince/source/lua/ltable.c:494-505 | assignment changes the map at the key alone; it is refused if and only if the key is nil or NaN, and then nothing changes |
| TableClass.Table.RemoveEntry | org.keplerproject.lua4wince/source/lua/lgc.c:62-66 | a dead key keeps chains and lookups as they are |
| TableClass.Table.Resize | org.keplerproject.lua4wince/source/lua/ltable.c:297-324 | every live binding survives a change of both sizes, and re-insertion never needs to grow the table again |
| TableClass.Table.Rehash | org.keplerproject.lua4wince/source/lua/ltable.c:333-349 | after a rehash no lookup has changed, the array size is optimal, and there is room for the extra key, so that inserting it cannot rehash again |
| TableClass.RoomForAll | org.keplerproject.lua4wince/source/lua/ltable.c:333-349 | what has to be moved to the hash part, and the extra key, number exactly what the new size allows for |
| TableRehash.ComputeSizes | org.keplerproject.lua4wince/source/lua/ltable.c:189-208 | the size chosen is the largest power of two n with more than n/2 of the slots 1..n in use, or 0, and the count returned is the number of those slots in use; leaving the loop early loses nothing |
| TableRehash.NumUseArray | org.keplerproject.lua4wince/source/lua/ltable.c:222-244 | the array part is counted slice by slice |
| TableRehash.NumUseHash | org.keplerproject.lua4wince/source/lua/ltable.c:247-260 | the hash part is counted, with integer keys in their slices |
| TableRehash.CountInt | org.keplerproject.lua4wince/source/lua/ltable.c:211-219 | a key counts in the slice of its logarithm if it is a candidate for the array part |
| TableRehash.SumsAreUse | org.keplerproject.lua4wince/source/lua/ltable.c:189-244 | the sums of the slices are the numbers of slots in use |
| TableRehash.InUseCounts | org.keplerproject.lua4wince/source/lua/ltable.c:189-208 | the number of slots in use is the number of integers 1..n that have a value in the table, the extra key counted |
| TableObserve.GetN | org.keplerproject.lua4wince/source/lua/ltable.c:560-576 | the length is a border: t[n] is not nil or n is 0, and t[n+1] is nil |
| TableObserve.UnboundSearch | org.keplerproject.lua4wince/source/lua/ltable.c:532-553 | doubling, then bisection, or the linear search when the numbers grow too large, ends at a border |
| TableObserve.LinearSearch | org.keplerproject.lua4wince/source/lua/ltable.c:538-542 | the linear search ends at a border |
| TableObserve.BinarySearch | org.keplerproject.lua4wince/source/lua/ltable.c:545-552 | bisection between a value and a nil ends at a border |
| TableObserve.FindIndex | org.keplerproject.lua4wince/source/lua/ltable.c:137-159 | the index of a key, dead or live, from which the traversal goes on; not found if and only if no entry has the key |
| TableObserve.NextEntry | org.keplerproject.lua4wince/source/lua/ltable.c:162-179 | the first entry with a value after the given key, or the end, or the error for a key that is not there |
| TableTraverse.VisitedOnce | org.keplerproject.lua4wince/source/lua/ltable.c:162-179 | a traversal from nil visits no key twice, while values are changed or cleared (and dead keys collected) between its steps |
| TableTraverse.AllVisited | org.keplerproject.lua4wince/source/lua/ltable.c:162-179 | such a traversal visits every key that has a value throughout |
| TableTraverse.IndexStays | org.keplerproject.lua4wince/source/lua/ltable.c:137-159 | the index of a key does not change while nothing is inserted, though its value is cleared or its key dies |
| TableSort.Swap | org.keplerproject.lua4wince/source/lua/ltablib.c:165-168 | two slots change places |
| TableSort.Partition | org.keplerproject.lua4wince/source/lua/ltablib.c:204-235 | around the pivot: nothing above it on the left, nothing below it on the right; for a strict weak order the scans stay inside and the error is not raised; otherwise the upward scan may stop at the slot behind the range, which is then exchanged with the pivot |
| TableSort.ScanUp | org.keplerproject.lua4wince/source/lua/ltablib.c:217-221 | the upward scan stops at the first slot that is not below the pivot, or reports an invalid order function at the slot behind the range |
| TableSort.SortRound | org.keplerproject.lua4wince/source/lua/ltablib.c:185-246 | one round orders three slots, partitions, and sorts the smaller half by a call that is less deep than the logarithm of the size; it leaves less to sort, or, for a contradictory order function, the same range further on |
| TableSort.AuxSort | org.keplerproject.lua4wince/source/lua/ltablib.c:185-246 | for every order function the sort ends, and the range with the slot behind it is permuted; for a strict weak order the range is sorted, nothing else is touched, the error is unreachable, and the recursion is at most log2 of the size deep |
| TableSort.BesideDown | org.keplerproject.lua4wince/source/lua/ltablib.c:216-243 | why it ends: a round whose scan runs into the slot behind the range does not make the range smaller, but, whatever the order function says, there are at most two such rounds in a row |
| TableSort.SlotBeside | org.keplerproject.lua4wince/source/lua/ltablib.c:216-235 | an input: with an order function that contradicts itself a round on slots 1..4 exchanges slot 3 with slot 5 |
| TableSort.Sort | org.keplerproject.lua4wince/source/lua/ltablib.c:248-256 | for every order function the sort ends and the array is permuted; for a strict weak order slots 1..n are sorted and the others unchanged |
| CodeParse.ParserIsGrammar | org.keplerproject.lua4wince/source/lua/lparser.c:810-853 | the parser driven by the priority table reads a token sequence as a tree if and only if the layered grammar (left-associative sums and terms, unary minus below power, right-associative power) derives that tree |
| CodeParse.OneMeaning | org.keplerproject.lua4wince/source/lua/lparser.c:810-853 | the grammar gives every token sequence at most one tree |
| CodeParse.DerivedIsParsed | org.keplerproject.lua4wince/source/lua/lparser.c:828-853 | whatever the grammar derives is read, with what follows left for the caller |
| CodeParse.ParsedIsDerived | org.keplerproject.lua4wince/source/lua/lparser.c:828-853 | whatever is read is derived, and no operator above the limit follows |
| CodeParse.SignIs | org.keplerproject.lua4wince/source/lua/lparser.c:788-808 | the parser takes a token for an operator if and only if it is the sign of that operator in the grammar |
| CodeMachine.ComputesLater | org.keplerproject.lua4wince/source/lua/lcode.c:444-469 | a value in a constant or in a register below those written survives later code |
| CodeMachine.ComputesAfter | org.keplerproject.lua4wince/source/lua/lcode.c:661-678 | code that computes a value does so after earlier code that leaves the locals alone |
| CodeMachine.RunKeeps | org.keplerproject.lua4wince/source/lua/lvm.c:360-369 | code that writes registers from some register on leaves all lower ones alone |
| CodeGen.FuncState.NumberK | org.keplerproject.lua4wince/source/lua/lcode.c:229-261 | an equal constant is found again, at its first place; otherwise it is added, and the others stay |
| CodeGen.FuncState.FreeExp | org.keplerproject.lua4wince/source/lua/lcode.c:215-226 | a temporary is given back only if it is the last one taken, as the assertion demands |
| CodeGen.FuncState.LoadInto | org.keplerproject.lua4wince/source/lua/lcode.c:343-379 | one instruction that puts the value of an expression into a register |
| CodeGen.FuncState.Exp2NextReg | org.keplerproject.lua4wince/source/lua/lcode.c:414-419 | the value is put into the register above the active ones, by patching the waiting instruction or by a new one |
| CodeGen.FuncState.Exp2AnyReg | org.keplerproject.lua4wince/source/lua/lcode.c:422-433 | the value is in some register; only one temporary is taken |
| CodeGen.FuncState.Exp2RK | org.keplerproject.lua4wince/source/lua/lcode.c:444-469 | the value becomes an operand: a constant that fits, or a register |
| CodeGen.FuncState.Infix | org.keplerproject.lua4wince/source/lua/lcode.c:718-742 | the left operand is held where the code of the right one does not reach |
| CodeGen.FuncState.CodeArith | org.keplerproject.lua4wince/source/lua/lcode.c:661-678 | two numerals are folded if and only if the machine would not divide by zero and the result is a number; folded or emitted, the result computes the operation on both values; all temporaries are given back, from the top down, even when a numeral on the left needs a register after the right operand |
| CodeGen.FuncState.Prefix | org.keplerproject.lua4wince/source/lua/lcode.c:697-715 | unary minus, folded or emitted, computes the negation |
| CodeGen.FoldedComputes | org.keplerproject.lua4wince/source/lua/lcode.c:635-658 | folding gives the value that the machine would compute |
| CodeGen.FuncState.ParseSubExpr | org.keplerproject.lua4wince/source/lua/lparser.c:828-853 | parsing and emitting in one pass: the tree read is that of the priority table, the code computes its value into the described place, writes no active local, and takes no register but the next |
| CodeGen.FuncState.ParseOperator | org.keplerproject.lua4wince/source/lua/lparser.c:840-849 | one turn of the operator loop |
| CodeGen.FuncState.Expression | org.keplerproject.lua4wince/source/lua/lparser.c:828-858 | the tokens taken are an expression of the grammar; running the code puts its value into the next register for every content of the registers and leaves all lower ones alone; a syntax error is raised only if no expression starts there, and the register limit is reported only if the tokens could need it |
| CodeJumps.ListDistinct | org.keplerproject.lua4wince/source/lua/lcode.c:94-106 | jump lists have no cycles, and only the last link is the mark that stands for the end |
| CodeJumps.LinkedLists | org.keplerproject.lua4wince/source/lua/lcode.c:185-196 | linking the last member of one list to another disjoint list gives exactly their concatenation |
| CodeJumps.PatchedExactly | org.keplerproject.lua4wince/source/lua/lcode.c:131-160 | patching sends every member to its target, and changes no other instruction but a value-producing test before a member, which still tests the same register for the same outcome |
| CodeJumps.PatchedKeepsLists | org.keplerproject.lua4wince/source/lua/lcode.c:150-160 | patching leaves every disjoint list as it is |
| CodeJumps.ValueReaches | org.keplerproject.lua4wince/source/lua/lcode.c:131-160 | run on the patched code: where the test of a value-producing jump passes, the machine comes to the value target with the tested value in the register, if there is one, and all other registers as they were; where it fails nothing happens; any other jump leads to the default target |
| CodeJumps.NoValueReaches | org.keplerproject.lua4wince/source/lua/lcode.c:144-147 | once the values of a list are removed, its tests decide as before and write nothing |
| CodeJumps.JumpState.Concat | org.keplerproject.lua4wince/source/lua/lcode.c:185-196 | the walk to the last member and the link give the concatenation; only that link changes; it fails if and only if the distance does not fit |
| CodeJumps.JumpState.PatchTestReg | org.keplerproject.lua4wince/source/lua/lcode.c:131-141 | the controlling test, if it produces a value, gets a register or becomes a plain test |
| CodeJumps.JumpState.PatchListAux | org.keplerproject.lua4wince/source/lua/lcode.c:150-160 | the loop patches the whole list although it overwrites the links it follows; it fails if and only if some distance does not fit |
| CodeJumps.JumpState.NeedValue | org.keplerproject.lua4wince/source/lua/lcode.c:122-128 | true if and only if some jump of the list does not produce a value |
| CodeJumps.JumpState.RemoveValues | org.keplerproject.lua4wince/source/lua/lcode.c:144-147 | no jump of the list produces a value afterwards, and the list is the same |
| CodeJumps.JumpState.Code | org.keplerproject.lua4wince/source/lua/lcode.c:797-809 | jumps to here get the position of the new instruction |
| CodeJumps.JumpState.Jump | org.keplerproject.lua4wince/source/lua/lcode.c:59-66 | the new jump is the head of a list that goes on with the jumps that would have led to it |
| CodeJumps.JumpState.PatchToHere | org.keplerproject.lua4wince/source/lua/lcode.c:179-182 | the list joins those that wait for the next instruction |
| CodeJumps.JumpState.PatchList | org.keplerproject.lua4wince/source/lua/lcode.c:169-176 | a list is patched to an earlier position, or joins those that wait for the next instruction |
| PatternMatch.MatchState.Match | org.keplerproject.lua4wince/source/lua/lstrlib.c:364-439 | the recursive matcher with captures set and undone in place returns the first of all ways to match in the order of preference; without one it restores the captures; an error is raised if and only if it comes first |
| PatternMatch.MatchState.MaxExpand | org.keplerproject.lua4wince/source/lua/lstrlib.c:300-312 | greedy repetition tries the longest run first and then shorter ones |
| PatternMatch.MatchState.MinExpand | org.keplerproject.lua4wince/source/lua/lstrlib.c:315-325 | lazy repetition tries no character first and then more |
| PatternMatch.MatchState.StartCapture | org.keplerproject.lua4wince/source/lua/lstrlib.c:328-339 | a capture is opened for the rest of the match and removed if that fails |
| PatternMatch.MatchState.EndCapture | org.keplerproject.lua4wince/source/lua/lstrlib.c:342-350 | the last open capture is closed for the rest of the match and opened again if that fails |
| PatternMatch.MatchState.MatchBalance | org.keplerproject.lua4wince/source/lua/lstrlib.c:280-297 | the loop returns the end of the balanced string |
| PatternMatch.MatchState.MatchCapture | org.keplerproject.lua4wince/source/lua/lstrlib.c:353-361 | a back reference matches the text of its capture; a capture that is open or not there is an error |
| PatternMatch.MatchState.ClassEnd | org.keplerproject.lua4wince/source/lua/lstrlib.c:201-222 | the end of a single-character item, or none if it is malformed |
| PatternMatch.MatchState.MatchBracketClass | org.keplerproject.lua4wince/source/lua/lstrlib.c:244-264 | a character is in the set if and only if some element has it, or none with a leading ^ |
| PatternTheory.WaysExact | org.keplerproject.lua4wince/source/lua/lstrlib.c:364-439 | the ways are exactly those that the items allow in any order of preference: no way to match is missed, and none is made up |
| PatternTheory.BalanceExact | org.keplerproject.lua4wince/source/lua/lstrlib.c:280-297 | the balanced string ends where the openings minus the closings come to zero for the first time |
| PatternTheory.WellFormedIsSafe | org.keplerproject.lua4wince/source/lua/lstrlib.c:185-198 | a pattern that is well formed by its text alone never raises an error, and every match ends inside the subject with all captures closed and inside it |
| PatternTheory.WaysInOrder | org.keplerproject.lua4wince/source/lua/lstrlib.c:328-350 | which captures are open after a match is determined by the text of the pattern; captures lie inside what has been matched |
| PatternTheory.LongestFirst | org.keplerproject.lua4wince/source/lua/lstrlib.c:300-312 | max_expand returns the continuation of the largest number of repetitions that works |
| PatternTheory.ShortestFirst | org.keplerproject.lua4wince/source/lua/lstrlib.c:315-325 | min_expand returns the continuation of the smallest number of repetitions that works |
| PatternSearch.Find | org.keplerproject.lua4wince/source/lua/lstrlib.c:494-534 | the search returns the leftmost place at which there is a way to match, and the first way from there; nothing is returned if and only if there is none (with an anchor, none at the start) |
| PatternSearch.AddS | org.keplerproject.lua4wince/source/lua/lstrlib.c:599-618 | the replacement string is expanded with the captures |
| PatternSearch.GSub | org.keplerproject.lua4wince/source/lua/lstrlib.c:643-679 | one pass gives the result of the substitution, which `PatternSubst.SubstExact` describes without it |
| PatternSearch.WholeMatchKeepsText | org.keplerproject.lua4wince/source/lua/lstrlib.c:643-679 | replacing every match by itself gives the text back, and the count stays within its limit |
| PatternSearch.NoMatchKeepsText | org.keplerproject.lua4wince/source/lua/lstrlib.c:643-679 | without a match the text comes back and the count is 0 |
| PatternSubst.SubstExact | org.keplerproject.lua4wince/source/lua/lstrlib.c:643-679 | a substitution ends with a result if and only if there is a sequence of matches, each the leftmost way from where the last one ended (one further after an empty match), that no match follows unless the limit is reached or the pattern anchored; the result is the text with exactly these replaced, and their number |
| PatternSubst.SubstError | org.keplerproject.lua4wince/source/lua/lstrlib.c:643-679 | a substitution that fails meets an error in the first way of the next leftmost match, or in its replacement, before the limit is reached |
| PatternSubst.ExpandedMeans | org.keplerproject.lua4wince/source/lua/lstrlib.c:589-610 | a replacement string stands for its pieces one after the other: characters, escaped characters, the whole match for %0, and the captures for %1 to %9 |
| PatternSubst.ClassTable | org.keplerproject.lua4wince/source/lua/lstrlib.c:225-242 | the classes of the letters l, u, d, s, c and z, by the codes of their members |
| PatternSubst.ClassUnions | org.keplerproject.lua4wince/source/lua/lstrlib.c:225-242 | the classes of the letters a, w, x and p, by the codes of their members |
| PatternSubst.ClassComplement | org.keplerproject.lua4wince/source/lua/lstrlib.c:225-242 | an upper-case letter names the complement of the class, and a character that names no class stands for itself |
| PatternSubst.SetMeans | org.keplerproject.lua4wince/source/lua/lstrlib.c:244-263 | a set holds the characters of its ranges and classes and its single characters, and a negated set all others |
| PatternSubst.WordStart | org.keplerproject.lua4wince/source/lua/lstrlib.c:383-396 | a frontier of the word characters is the start of a word, at the start of the text too |
| PatternSyntax.SpelledIsRead | org.keplerproject.lua4wince/source/lua/lstrlib.c:201-222 | a pattern that is written from a sequence of items, sets with their elements included, is read as these items |
| QpCodec.RoundTrip | org.keplerproject.lua4wince/source/socket/mime.c:366-607 | decoding what has been encoded and wrapped with at least 4 bytes a line gives the text back, for every text, with line ends written as CRLF or as =0D=0A |
| QpCodec.RoundTripExact | org.keplerproject.lua4wince/source/socket/mime.c:560-607 | the round trip works for all texts if and only if lines have at least 4 bytes, for either way to write line ends |
| QpCodec.SpelledIs | org.keplerproject.lua4wince/source/socket/mime.c:388-407 | with =0D=0A for the end of a line the encoding is that of a text of quoted bytes with the same meaning |
| QpCodec.ShortLinesLose | org.keplerproject.lua4wince/source/socket/mime.c:560-607 | an input that shorter lines lose: a zero byte |
| QpCodec.SentLines | org.keplerproject.lua4wince/source/socket/mime.c:560-607 | no line is longer than the limit, and none ends in a bare space or tab |
| QpCodec.WrapBytes | org.keplerproject.lua4wince/source/socket/mime.c:560-607 | wrapping splits no =XX: the output is made of whole tokens, with soft breaks between them, and means the same |
| QpCodec.ToksMeanText | org.keplerproject.lua4wince/source/socket/mime.c:380-432 | the encoded tokens mean the text |
| QpCodec.DecodeToks | org.keplerproject.lua4wince/source/socket/mime.c:483-508 | decoding takes tokens for what they mean |
| QpCodec.ByteEncoded | org.keplerproject.lua4wince/source/socket/mime.c:346-375 | a byte goes out as it is if and only if it is visible ASCII and no equal sign, and otherwise as an equal sign with two upper-case hexadecimal digits |
| QpCodec.HexRead | org.keplerproject.lua4wince/source/socket/mime.c:483-508 | two hexadecimal digits of either case behind an equal sign are the byte they stand for |
| QpCodec.OtherRead | org.keplerproject.lua4wince/source/socket/mime.c:483-508 | anything else behind an equal sign stays, and a byte that is no tab and not visible ASCII is dropped |
| QpCodec.LinesFilled | org.keplerproject.lua4wince/source/socket/mime.c:560-607 | lines are filled: a soft break is put only before a token that would leave no room for the sign of a soft break |
| QpFilters.QpEncode | org.keplerproject.lua4wince/source/socket/mime.c:380-418 | one byte into the waiting buffer: what is written and what still waits encode what was there before, whatever follows |
| QpFilters.QpPad | org.keplerproject.lua4wince/source/socket/mime.c:423-432 | the waiting bytes at the end of the text |
| QpFilters.Qp | org.keplerproject.lua4wince/source/socket/mime.c:442-477 | one call of the encoder, with the rest of the last call and a new chunk |
| QpFilters.QpDecode | org.keplerproject.lua4wince/source/socket/mime.c:483-508 | one byte into the waiting buffer of the decoder |
| QpFilters.UnQp | org.keplerproject.lua4wince/source/socket/mime.c:517-549 | one call of the decoder |
| QpFilters.ShownExact | org.keplerproject.lua4wince/source/socket/mime.c:526-541 | a single call for a whole text loses its result if and only if =00 is the first thing in the text that decodes to anything: after soft line breaks, a carriage return with a byte that is not a line feed, and bytes that do not print |
| QpFilters.QpWrp | org.keplerproject.lua4wince/source/socket/mime.c:560-607 | one call of the wrapper is the wrapping of the chunk from the columns left |
| QpFilters.EncodeFilter | org.keplerproject.lua4wince/source/socket/mime.c:434-477 | however the text is cut into chunks, the outputs together are the encoding of the whole |
| QpFilters.WrapFilter | org.keplerproject.lua4wince/source/socket/mime.c:551-607 | however the text is cut, the outputs together are the wrapping of the whole, with its ending |
| QpFilters.DecodeFilter | org.keplerproject.lua4wince/source/socket/mime.c:510-549 | however the text is cut, the outputs together are the decoding of the whole |
| QpFilters.Send | org.keplerproject.lua4wince/source/socket/mime.c:434-607 | encoding and wrapping chunk by chunk gives the whole text as it is sent, in good lines |
| QpFilters.Receive | org.keplerproject.lua4wince/source/socket/mime.c:510-549 | decoding what was sent, cut into any chunks, gives the text back |
| DesBits.OutputOfHalves | org.keplerproject.lua4wince/source/md5/des56.c:459-546 | the final permutation undoes the initial one, with the halves exchanged: a block is rebuilt from its halves |
| DesBits.HalvesOfOutput | org.keplerproject.lua4wince/source/md5/des56.c:459-546 | the initial permutation of an output block gives the halves back, exchanged |
| DesBits.HalfLanes | org.keplerproject.lua4wince/source/md5/des56.c:464-474 | which bits of which byte each half holds |
| DesBits.OutputBytes | org.keplerproject.lua4wince/source/md5/des56.c:515-546 | which bits of which half each output byte holds |
| DesBits.HalfBits | org.keplerproject.lua4wince/source/md5/des56.c:464-474 | the even bits of a byte are spread for the left half and the odd bits for the right half, each at its place |
| Des.RoundsBack | org.keplerproject.lua4wince/source/md5/des56.c:476-513 | the sixteen rounds with the keys in the opposite order undo the rounds, for any round function |
| Des.BlockBack | org.keplerproject.lua4wince/source/md5/des56.c:455-547 | decryption inverts encryption of a block, for every key schedule and all contents of the S-boxes |
| Des.BlockStages | org.keplerproject.lua4wince/source/md5/des56.c:475-512 | a block goes through sixteen stages, with the keys from the first one on to encrypt and from the last one on to decrypt: the right half goes to the left, and eight boxes, each asked for six bits of the right half and of the key at stated places, are added to the left half; the output is that of the last halves |
| Des.Cipher.Fencrypt | org.keplerproject.lua4wince/source/md5/des56.c:455-547 | in place, with tables, on eight bytes of a larger array: the block becomes its encryption or decryption, and the other bytes stay |
| Des.Cipher.constructor | org.keplerproject.lua4wince/source/md5/des56.c:350-372 | the loops that fill the two permutation tables |
| DesText.TextBack | org.keplerproject.lua4wince/source/md5/ldes56.c:11-123 | decrypting an encrypted text gives it back, at every length |
| DesText.EncryptedParts | org.keplerproject.lua4wince/source/md5/ldes56.c:68-123 | an encrypted text is as few encrypted blocks as hold the text, the last one filled with zeros, and behind them the number of zeros |
| DesText.BlocksBack | org.keplerproject.lua4wince/source/md5/ldes56.c:50-111 | block by block, decryption inverts encryption, and the bytes after the last block are kept |
| DesText.Crypt | org.keplerproject.lua4wince/source/md5/ldes56.c:68-123 | crypt: blocks encrypted in place, zero padding, and the length of the padding at the end; the key error if and only if there is no key of at least 8 bytes |
| DesText.Decrypt | org.keplerproject.lua4wince/source/md5/ldes56.c:11-66 | decrypt, for any text: blocks decrypted in place and as many bytes cut off as the last byte says, read with its sign; the result keeps inside the buffer if and only if the text is not empty and that number is -1 or more and not more than the bytes before it |
| Md5Cfb.TextBack | org.keplerproject.lua4wince/source/md5/md5lib.c:126-170 | decrypt(crypt(m, k, seed), k) is m, for every hash function, message, key and seed that are not too long; crypt fails if and only if one of them is |
| Md5Cfb.CodedBack | org.keplerproject.lua4wince/source/md5/md5lib.c:82-113 | the decoding stream undoes the coding stream from the same first block |
| Md5Cfb.CodedBlocks | org.keplerproject.lua4wince/source/md5/md5lib.c:82-97 | each byte of each block is combined with the hash of the coded block before it (the first block of feedback for the first one) and the key |
| Md5Cfb.CodeStream | org.keplerproject.lua4wince/source/md5/md5lib.c:82-96 | the coding loop, with its feedback block overwritten in place |
| Md5Cfb.DecodeStream | org.keplerproject.lua4wince/source/md5/md5lib.c:99-113 | the decoding loop, with its feedback block overwritten in place |
| Md5Cfb.InitBlock | org.keplerproject.lua4wince/source/md5/md5lib.c:70-79 | the block holds the seed, zeros and the key; a long key is an error |
| Md5Cfb.Crypt | org.keplerproject.lua4wince/source/md5/md5lib.c:126-145 | the length of the seed, the seed and the coded message, or the error for a long seed or key |
| Md5Cfb.Decrypt | org.keplerproject.lua4wince/source/md5/md5lib.c:156-170 | the message, or the error for a text that has no proper seed |
| ChunkFormat.ChunkBack | org.keplerproject.lua4wince/source/lua/lundump.c:101-207 | loading takes exactly the bytes of a dumped chunk and rebuilds the function, stripped or not |
| ChunkFormat.RoundTripExact | org.keplerproject.lua4wince/source/lua/ldump.c:61-164 | an unstripped chunk gives the same function back if and only if every function in it knows its source |
| ChunkFormat.ReloadedExact | org.keplerproject.lua4wince/source/lua/ldump.c:129-141 | leaving out a source that equals the enclosing one loses nothing, but a missing one is replaced by the enclosing one |
| ChunkFormat.StripKeepsCode | org.keplerproject.lua4wince/source/lua/ldump.c:111-141 | stripping keeps code, constants and nested functions at every level, and drops sources and debug data |
| ChunkFormat.FunctionBack | org.keplerproject.lua4wince/source/lua/lundump.c:162-179 | a function, with all functions inside it, is read back and what follows it is untouched |
| ChunkFormat.SampleBytes | org.keplerproject.lua4wince/source/lua/ldump.c:39-141 | a sample with a value of every kind, byte by byte: order and width of the fields, counts, type tags, lengths and debug information |
| ChunkIo.DumpState.DumpBlock | org.keplerproject.lua4wince/source/lua/ldump.c:29-37 | a block is written unless an error has occurred; the status is what the writer returned for the first block that it refused |
| ChunkIo.DumpState.DumpConstants | org.keplerproject.lua4wince/source/lua/ldump.c:80-105 | the constants, each with its type; after an error a part of them from the start, up to the block that the writer refused |
| ChunkIo.DumpState.DumpFunction | org.keplerproject.lua4wince/source/lua/ldump.c:129-141 | a function is written with everything inside it; after a writer error the writer has taken the bytes up to the block it refused, and nothing more is written |
| ChunkIo.DumpState.Dump | org.keplerproject.lua4wince/source/lua/ldump.c:153-164 | header and function; the status is 0 if and only if all bytes have been taken, and otherwise what the writer returned for the block that it refused |
| ChunkIo.TakenPrefix | org.keplerproject.lua4wince/source/lua/ldump.c:29-164 | whatever the writer does, what it has taken is a part of the chunk from its start; a writer that refuses nothing leaves the status as it was |
| ChunkIo.LoadState.LoadConstants | org.keplerproject.lua4wince/source/lua/lundump.c:101-131 | the loop reads the constants, or reports the error at the place where it occurs |
| ChunkIo.LoadState.LoadFunction | org.keplerproject.lua4wince/source/lua/lundump.c:162-179 | the recursive loader reads a function from the stream, or throws the first error: end of stream, negative integer, unknown constant, refused code |
| ChunkIo.LoadState.Undump | org.keplerproject.lua4wince/source/lua/lundump.c:193-207 | the header is compared and the function loaded |
| ChunkIo.DumpAndLoad | org.keplerproject.lua4wince/source/lua/ldump.c:153-164 | dumping and loading in place give the same function back if and only if every function knows its source |

## Left out

- LpegCellCompiler.CellsCorrect: does not cover patterns in which one of the six shortcuts goes wrong (`Safe`); that no test leads into a moved slice (`TestsClear`), no charset is misread (`NeverMisread`, `PartsClear`) and no rebuilt choice fails past a longer test (`RebuildSafe`) is asked of the code of each part, which is sufficient for the outcome of the pattern but not necessary, because what goes wrong may happen to do no harm in what surrounds it.
- LpegCompiler.LoopTestSound: is about patterns in which no shortcut is misused (`Safe`); of the cells of every compiled pattern it is false (`LpegCellShortcuts.LoopTestGoesWrong`).
- LpegCompiler.CompiledTerminates: is about the same patterns, for the same reason.
- LpegWellFormed.OptimizeCapturesCorrect: assumes that no test leads into a moved slice; `LpegLandings` says what happens if one does.
- LpegLandings.TracesExact: is about states, not outcomes, because codes that part may meet again (`PartedButSame`); it counts landings by instructions, which are the same cells if the moved slice holds no charset (`SameIndex`); with one, a test may lead to the middle of a charset in the moved code, where its raw cells are run; `LpegCellShortcuts.LoopTestGoesWrong` shows what may come of it, but no lemma says when it does no harm.
- Cells of eight bytes, as on a 64-bit machine, where a charset takes four of them.
- LPeg grammars, rule calls, match-time captures, function patterns and locale sets: rule-level termination rests on the stack limit, which is modelled for the rest.
- LPeg capture values, memory limits of patterns and captures, and error messages: the capture list is the result here.
- GcKeys.NoKeyDangles: assumes that a key a program puts into a table is one that it can reach, and pays for with the barrier (`KeysPaid`), as setting a table entry does.
- Finalizers: userdata have none in the model, so that separateudata only notes them; calls of finalizers are not modelled.
- Open upvalues of the collector, which are re-marked through their threads.
- Pacing and byte counts of the collector, and the sizes of stacks and of the string table that it shrinks.
- The table error for an overflow of the size, and array parts of more than 2^26 slots.
- Hashing of the different kinds of keys: the main position is an arbitrary function of the key.
- TableSort.Sort: the order function is a function of the two values; one that keeps a state, raises an error or changes the table is not modelled.  Without a strict weak order the permutation is stated, not an order; the source promises no more.
- CodeGen.FuncState.Expression: names are locals (a name that is not would be a global or an upvalue), numerals are not NaN, and the negation of such a number is not NaN either.
- The limits on nested C calls and on constants, and the operators that are not arithmetic: short-circuit values, comparison, concatenation and length.
- Jumps that produce values at the end of an expression (exp2reg), which join the jump lists with the expression descriptors.
- gmatch and string.format, and replacement by functions and tables; plain searches without patterns.
- Character classes are those of the C locale.
- DesText.Decrypt: what comes of a result that would reach beyond the buffer, or of a negative length, is not described, nor is the byte that is read before an empty text.
- The DES key schedule and the S-box tables, and the MD5 function: round trips do not depend on them.
- Base64, end-of-line conversion and stuffing of dots.
- Memory errors for huge counts in a damaged chunk, which the source reports before it reads on.
- The code checker itself.
- Sockets, files, timers, user interface and the other libraries of the bundle.
