# Two Lisp interpreters and a Modbus server, in Dafny

This project models the parts of the repository that carry its hardest promises, and proves them.

- **TinyScheme's memory** (`CellHeap`, `Marking`, `Liveness`, `Sweeping`, `MemoryState`, `Growth`, `Consecutive`,
  `MemorySystem`). Memory is a map from integer addresses to cells, so that "address order" and "the cell behind x"
  keep their meaning. `Marking.Store` reverses car and cdr links in place and is proved to leave the heap as it was but
  for the marks of exactly the reachable cells. `MemorySystem.Memory` is the allocator: segments, the free list in
  address order, the sink's list of recent allocations, single cells, vectors, and the collector. Its invariant
  `Valid` holds after every operation, so it holds over every sequence of them. `malloc` is a parameter: the address
  of the block that it returns, or 0.
- **TinyScheme's evaluator** (`SchemeData`, `BigStep`, `Registers`, `Agreement`, `Evaluation`, `TailCalls`,
  `Environments`, `FormLaws`, `CallLaws`, `WellScoped`, `Interpreter`). `BigStep` says what programs mean, by
  recursion and without a stack; `Registers` is the register machine with its dump stack. They agree in both
  directions: values, errors, endless runs, and the exact height that the dump reaches. `Interpreter.Scheme` is the
  machine as an object. Primitive procedures are a parameter, a function from the procedure's number and its
  arguments.
- **TinyScheme's reader and printer** (`Decimals`, `PlaceValues`, `SchemeText`, `Reading`, `RoundTrip`, `ReaderObject`,
  `ReaderLaws`). Both are
  machines with an explicit stack. A datum of readable atoms reads back as the same datum exactly unless it has a part
  printed on its own that is `(unquote @name)`, or a string with a byte 0 before its last byte; what it reads back as
  is proved in every case.
- **PicoLisp's search** (`Unification`, `OccursCheck`, `CheckedUnification`, `Resolution`, `Prover`, `ClauseOrder`,
  `Answers`, `BindingList`, `ProverObject`). Unification gives most general unifiers exactly where the occurs check
  that it leaves out would have passed. The prover's backtracking machine finds the answers of recursive depth-first
  resolution in the same order; it is proved when an answer is right, and what the list of bindings that it returns
  means.
- **PicoLisp's sort and index trees** (`Ordering`, `Runs`, `ListSort`, `IndexTree`, `IndexStore`). `compare` gives
  the sign of a total order exactly if the difference that decides between two values fits in a word. The merge sort
  relinks the cells of a list in place. Index trees are nodes in memory that are relinked by insertion and deletion.
- **PicoLisp's dynamic binding** (`DeepBinding`, `BindingLaws`, `ShallowBinding`, `FrameSwapping`, `Rescue`,
  `DynamicBinding`).
  `DeepBinding` says what programs mean with association lists; `DynamicBinding.PicoLisp` swaps values in and out of
  symbols and is proved to do the same.
- **Streams, names and numbers** (`StreamScan`, `WordBits`, `Names`, `NumberFormat`, `ParseLaws`, `SquareRoot`,
  `Dates`), and **Modbus coils** (`Coils`). The word size is a parameter.

The modules that hold a class follow the interpreters' own form: registers, stacks and memory are fields that methods
change, and each method states its new state in terms of a function whose properties are then proved as lemmas. The
modules whose names end in Laws say what these functions compute without naming them: by character codes, place values,
slots of frames, and what symbols look up to.

## What does not hold

Some promises turned out to hold only under a condition. Where the word "exactly" is used, the condition is proved
in both directions; the others are proved to be enough, with an input that shows that something is needed.

- `compare` subtracts machine words. Two values whose numbers and addresses fit in a word are ordered rightly exactly
  if the difference that decides between them fits too (`Ordering.CompareExactly`); otherwise they are ordered the
  wrong way round, as the extremes of the range are (`Ordering.ExtremesWrongWay`).
- The anonymous variable `@` unifies with everything without being bound, so an answer that uses it promises nothing:
  `(@ . @)` and `(7 . 8)` unify (`Unification.AnonymousPromisesNothing`). Without `@`, a valuation satisfies the
  environment that unification ends with exactly if it satisfies the old one and equates the terms
  (`Unification.UnifyExactly`). That `@` does not occur is enough, not necessary.
- Unification leaves out the occurs check. Some valuation satisfies an environment exactly if all its bindings would
  have passed the check when they were made (`OccursCheck.SolvableExactly`), and two terms have a common instance
  exactly if unification succeeds with bindings that all pass (`CheckedUnification.UnifiableExactly`). If none fails,
  unification ends (`CheckedUnification.EndsIfChecked`); without the check, bindings can form a knot on which it never
  does (`Unification.KnotArises`, `Unification.KnotNeverEnds`), and which no valuation satisfies.
- So the prover answers queries of which no instance is derivable: with `(be eq (@A . @A))` and `(be q () (eq @B 1 .
  @B))` the query `(q)` (`Answers.CyclicAnswer`, `Answers.CyclicUnderivable`). An answer is satisfied by some
  valuation exactly if all its bindings pass the check, and then its goals are derivable, whatever values the unbound
  variables have (`Answers.AnswerExactly`).
- Looking up the bound variables of an answer ends exactly if all its bindings pass (`BindingList.FillsExactly`). With
  the terms so found the query is derivable (`BindingList.TermsDerivable`). The list that `prove` returns shows a
  variable that is left as NIL, but not within another term, so its values need not fit each other
  (`BindingList.HalvesListed`, `BindingList.HalvesNotDerivable`); that no variable is left in the list is enough
  (`BindingList.ListedDerivable`).
- The last expression of `and` and `or` is not evaluated as a tail call, against section 3.5 of R5RS: a loop through
  `and` needs one dump frame more per round, a loop through `if` needs two frames for ever (`TailCalls`).
- `(unquote @name)` prints as `,@name`, which reads as `unquote-splicing`. A string keeps its length when it is read,
  but its bytes are copied up to the first 0 only; those behind it are what the memory held before
  (`RoundTrip.NulLosesRest`). A datum reads back as it was exactly if it has neither, but for a 0 as the last byte of a
  string (`RoundTrip.SameExactly`). This is said of data whose atoms can be read back one by one, and of
  `(unquote @name)` only where `name` can be (not of `(unquote @)` or `(unquote @12)`).
- The two loops of `(eval x n)` leave values and frames as they were exactly if n >= 1 or no frame is lost: for n = 0
  the frames in force are swapped out and not in again, which does no harm only if no value differs; for n < 0 also
  frames that had been swapped out already can be lost (`FrameSwapping.PutBackExactly`). `FrameSwapping.ZeroInput` is a
  call of a function whose formal keeps the outer value, and whose argument stays in the symbol after the call.
- A throw out of `(eval x n)` does not always find all the frames that were swapped out: the way to the catch brings
  them back n at a time, counting every frame, where `eval` counts the calls only. Values and frames come out right
  exactly if the number of frames swapped out is at most that of the frames met (those above the catch and the one at
  it), rounded up to a multiple of n (`Rescue.ThrowExactly`, for states in which none was swapped out before). If only
  calls have frames they do (`Rescue.CallsComeBack`); with a `let` in a function, and the catch in it, the function's
  formals are lost (`Rescue.ThrowInput`).
- `sqrt` without rounding is the integer root exactly if the number is below 2^(BITS-2), and with rounding it is the
  nearest integer exactly up to 2^(BITS-2) + 2^(BITS/2-1) (`SquareRoot.Sqrt`). Only scaled numbers are greater;
  (sqrt 268435456 7) on 32-bit words is wrong (`SquareRoot.ScaledTooFar`). Nothing is said of scaled numbers that do
  not fit in a word, for which the multiplication itself overflows.
- The days and dates whose computation stays within 32 bits are exactly those up to the number 21474395 and up to
  February of the year 487621 (`Dates.DaysFit`, `Dates.DatesFit`).
- A write of several coils that runs over the end has written the coils before the end when it reports the error
  (`Coils.Device.WriteCoils`); a request for no coils at all must state one data byte.
- `alloc_cellseg` links the new cells in front if the last new cell lies below the first free one. Between two blocks
  of `malloc` there is always a gap of padding (`Growth.PaddingLeavesGap`), which the code relies on.

## Model

| member | source | states |
|---|---|---|
| CellHeap.ReachWithin | appTestTinyScheme/scheme.c:1177-1225 | cells reached from a root lie in every set that holds the root and is closed under the links the marker follows |
| CellHeap.ReachClosed | appTestTinyScheme/scheme.c:1177-1225 | the unmarked cells reachable from a root are closed under unmarked children |
| Marking.Descend | appTestTinyScheme/scheme.c:1193-1208 | going down reverses one link and keeps the path that leads back, with every other link as before |
| Marking.Ascend | appTestTinyScheme/scheme.c:1209-1224 | going up puts the reversed link back |
| Marking.NestedVisit | appTestTinyScheme/scheme.c:1183-1190 | a nested call for a vector slot marks what that slot reaches and changes nothing else |
| Marking.Finished | appTestTinyScheme/scheme.c:1209-1224 | when the path is used up, the marked cells are the old ones and exactly those reachable from the root |
| Marking.Store.Mark | appTestTinyScheme/scheme.c:1177-1225 | marking ends with the old marks plus exactly the cells reachable from the root; every car, cdr and atom flag is as before |
| Marking.Store.MarkSlots | appTestTinyScheme/scheme.c:1183-1190 | the slots of a vector are marked one after another, each with all it reaches |
| Liveness.LiveWithin | appTestTinyScheme/scheme.c:1236-1258 | a set that holds the roots and is closed under links holds all live cells |
| Liveness.NextRoot | appTestTinyScheme/scheme.c:1236-1258 | marking one more root adds what is live from it |
| Liveness.MarkAll | appTestTinyScheme/scheme.c:1236-1258 | after all roots have been marked exactly the live cells are |
| Sweeping.SweepMarked | appTestTinyScheme/scheme.c:1269-1286 | sweeping a marked cell clears its mark and keeps the list of free cells |
| Sweeping.SweepUnmarked | appTestTinyScheme/scheme.c:1269-1286 | an unmarked cell becomes the first free cell, below all others in address |
| MemoryState.LiveAllocated | appTestTinyScheme/scheme.c:1228-1293 | all live cells are allocated if the roots are |
| MemoryState.FreeNotLive | appTestTinyScheme/scheme.c:1228-1293 | no free cell is live |
| MemoryState.RecentNeverFree | appTestTinyScheme/scheme.c:710-752 | cells handed out since the last permission to collect freely are never free |
| MemoryState.SweepCollects | appTestTinyScheme/scheme.c:1236-1286 | marking and sweeping split the cells into the live ones, unchanged and unmarked, and the free ones |
| MemoryState.CollectSound | appTestTinyScheme/scheme.c:1228-1293 | a collection keeps the memory invariant |
| MemoryState.CollectKeeps | appTestTinyScheme/scheme.c:1228-1293 | a collection keeps the contents of every live cell |
| MemoryState.KeptThen | appTestTinyScheme/scheme.c:590-680 | what a collection has kept, allocation after it keeps too |
| MemoryState.PopFirst | appTestTinyScheme/scheme.c:590-598 | taking the first free cell leaves an ascending free list without it and keeps the invariant |
| MemoryState.PushHolder | appTestTinyScheme/scheme.c:713-720 | a cell linked into the sink's list keeps what it holds allocated, and the invariant |
| MemoryState.PairKept | appTestTinyScheme/scheme.c:723-734 | the parts of a new pair survive the collections that its allocation may run |
| MemoryState.Overwrite | appTestTinyScheme/scheme.c:3281-3297 | changing a pair to other allocated cells keeps the invariant |
| Growth.PaddingLeavesGap | appTestTinyScheme/scheme.c:551-559 | the cells aligned within a malloc block leave a gap to the cells of every other block |
| Growth.AlignedIs | appTestTinyScheme/scheme.c:551-559 | the cells start at the first multiple of the alignment in the block |
| Growth.SpliceFreeList | appTestTinyScheme/scheme.c:575-585 | a new block spliced into the free list at its place leaves an ascending list of exactly both |
| Growth.SpliceSound | appTestTinyScheme/scheme.c:568-585 | a spliced block keeps the invariant |
| Growth.SpliceLayout | appTestTinyScheme/scheme.c:560-567 | the segment inserted at its place in address order leaves the segments sorted, apart from each other, and the heap made of exactly their cells and the fixed ones |
| Growth.SegmentAdded | appTestTinyScheme/scheme.c:535-588 | a step of growth keeps allocated cells, adds the block's cells to the free list and keeps other blocks apart |
| Consecutive.SearchOn | appTestTinyScheme/scheme.c:692-708 | a run that is too short rules out every run of n cells that begins within it |
| Consecutive.UnlinkRun | appTestTinyScheme/scheme.c:692-708 | cutting a run out of the free list leaves the other free cells in order |
| Consecutive.RunIsDead | appTestTinyScheme/scheme.c:692-708 | the cells of a run are not live |
| Consecutive.MakeVector | appTestTinyScheme/scheme.c:736-747 | a header and filled slots in consecutive cells make a vector and keep the invariant |
| Consecutive.VectorKept | appTestTinyScheme/scheme.c:736-747 | making a vector keeps every live cell |
| MemorySystem.Memory.SweepSegment | appTestTinyScheme/scheme.c:1269-1286 | a segment is swept from its last cell down |
| MemorySystem.Memory.Gc | appTestTinyScheme/scheme.c:1228-1293 | the cells split exactly into live ones, unchanged and unmarked, and the free list, strictly ascending, with fcells its length |
| MemorySystem.Memory.AllocCellSeg | appTestTinyScheme/scheme.c:535-588 | up to k segments are added while blocks come; allocated cells stay, segments stay sorted, the free list ascends |
| MemorySystem.Memory.GetCellX | appTestTinyScheme/scheme.c:590-598 | a free cell from the list, or from the slow path when it is empty |
| MemorySystem.Memory.GetCellSlow | appTestTinyScheme/scheme.c:602-625 | collects, and grows if too little came back; the result is a cell that was not live, or the sink with no_memory set |
| MemorySystem.Memory.CountConsecutiveCells | appTestTinyScheme/scheme.c:682-690 | the length of the run of neighbouring free cells, up to the number needed |
| MemorySystem.Memory.FindConsecutiveCells | appTestTinyScheme/scheme.c:692-708 | the first run of n neighbouring free cells, taken off the list; NIL exactly when there is none |
| MemorySystem.Memory.GetConsecutiveCells | appTestTinyScheme/scheme.c:653-680 | n neighbouring cells that were not live, after collecting and growing if needed, or the sink |
| MemorySystem.Memory.PushRecentAlloc | appTestTinyScheme/scheme.c:713-720 | the new cell becomes the first of the sink's list |
| MemorySystem.Memory.GetCell | appTestTinyScheme/scheme.c:723-734 | a pair of the given cells, not live before, protected as recent; live cells keep their contents |
| MemorySystem.Memory.GetVectorObject | appTestTinyScheme/scheme.c:736-747 | a filled vector in consecutive cells, protected as recent; live cells keep their contents |
| MemorySystem.Memory.OkToFreelyGc | appTestTinyScheme/scheme.c:749-752 | the sink's list is emptied, nothing else changes |
| MemorySystem.Memory.SetPair | appTestTinyScheme/scheme.c:3281-3297 | the pair is changed and the invariant kept |
| SchemeData.Find | appTestTinyScheme/scheme.c:2226-2246 | the place found binds the variable, in the environment or one around it |
| Environments.SetMeaning | appTestTinyScheme/scheme.c:2226-2258 | set! changes the variable wherever that binding is seen, and no other variable anywhere |
| Environments.DefineMeaning | appTestTinyScheme/scheme.c:2724-2731 | define gives the variable its value in the innermost environment and changes no other variable anywhere |
| Environments.BindsWhen | appTestTinyScheme/scheme.c:2631-2651 | a call binds exactly if there is an argument for each formal and the formals end in () or a symbol; left-over arguments do not matter |
| Environments.BoundTo | appTestTinyScheme/scheme.c:2631-2651 | each formal is bound to its argument |
| Environments.BoundOnto | appTestTinyScheme/scheme.c:2631-2651 | a symbol at the end of the formals is bound to the remaining arguments |
| FormLaws.FindExactly | appTestTinyScheme/scheme.c:2226-2246 | a variable is found at the newest slot for it in the first frame, from the innermost outwards, that has one |
| FormLaws.VariableLaw | appTestTinyScheme/scheme.c:2556-2561 | a variable means the value of that slot; without one it is an error |
| FormLaws.ConstantLaw | appTestTinyScheme/scheme.c:2571-2573 | everything but symbols and pairs means itself |
| FormLaws.QuoteLaw | appTestTinyScheme/scheme.c:2704-2705 | (quote x) is x |
| FormLaws.LambdaLaw | appTestTinyScheme/scheme.c:2687-2690 | lambda keeps its code and the environment |
| FormLaws.IfLaw | appTestTinyScheme/scheme.c:2768-2779 | if takes the third expression for #f, and the second for every other value, also for () and 0 |
| FormLaws.IfShortLaw | appTestTinyScheme/scheme.c:2773-2779 | without it the value is () |
| FormLaws.AndLaw | appTestTinyScheme/scheme.c:2940-2957 | and gives the first value that is #f or else the last one, #t if there is none |
| FormLaws.OrLaw | appTestTinyScheme/scheme.c:2959-2976 | or gives the first value that is not #f or else the last one, #f if there is none |
| FormLaws.BeginLaw | appTestTinyScheme/scheme.c:2758-2766 | begin evaluates in turn and gives the last value, with nothing pending for it |
| FormLaws.DefineLaw | appTestTinyScheme/scheme.c:2707-2731 | define changes the slot of the innermost frame or adds one in front, and gives the symbol |
| FormLaws.DefineProcedureLaw | appTestTinyScheme/scheme.c:2711-2713 | (define (f . formals) . body) defines f as (lambda formals . body) |
| FormLaws.BadDefineLaw | appTestTinyScheme/scheme.c:2708-2720 | literals cannot be defined or assigned, and nothing but symbols can be defined |
| FormLaws.SetLaw | appTestTinyScheme/scheme.c:2741-2755 | set! changes the slot that is seen and gives the value, or fails |
| FormLaws.OutsideLaw | appTestTinyScheme/scheme.c:2563-2566 | the forms that are left out |
| CallLaws.CallLaw | appTestTinyScheme/scheme.c:2608-2649 | a call evaluates the operator, the operands from the first, and the body like a begin in a frame with each formal holding its argument |
| CallLaws.BadCallLaw | appTestTinyScheme/scheme.c:2628-2660 | too few arguments, bad formals and operators that are no procedures are errors |
| CallLaws.PrimitiveLaw | appTestTinyScheme/scheme.c:2617-2618 | a primitive procedure gets the list of its arguments |
| CallLaws.OperandLaw | appTestTinyScheme/scheme.c:2586-2592 | the first operand without a value decides |
| CallLaws.LetLaw | appTestTinyScheme/scheme.c:2781-2827 | let evaluates its expressions in turn, and its body in a frame with the names holding the values |
| CallLaws.NamedLetLaw | appTestTinyScheme/scheme.c:2805-2827 | the frame of a named let also binds the name, to a procedure in that same environment |
| CallLaws.BadLetLaw | appTestTinyScheme/scheme.c:2789-2793 | a binding without an expression is an error |
| Registers.RunMore | appTestTinyScheme/scheme.c:4386-4456 | runs of the machine, and the heights of the dump in them, compose |
| Registers.PeakIs | appTestTinyScheme/scheme.c:2365-2382 | the height counted is the greatest that the dump has in the run |
| Agreement.EvalAgrees | appTestTinyScheme/scheme.c:2542-2573 | from OP_EVAL the machine returns the evaluator's value to the saved frames, with the dump as high as the evaluator says; or fails alike; or runs on |
| Agreement.CombinationAgrees | appTestTinyScheme/scheme.c:2563-2598 | an application evaluates operator and operands from left to right and applies |
| Agreement.EvalAllAgrees | appTestTinyScheme/scheme.c:2586-2598 | the operands' values arrive in order, each evaluated with one frame saved |
| Agreement.ApplyAgrees | appTestTinyScheme/scheme.c:2608-2660 | applying a closure evaluates its body in a new environment without another dump frame |
| Agreement.BodyAgrees | appTestTinyScheme/scheme.c:2758-2766 | the last expression of a sequence is evaluated with the caller's dump |
| Agreement.IfAgrees | appTestTinyScheme/scheme.c:2768-2779 | if evaluates the branch with the caller's dump; a missing branch is () |
| Agreement.InitsAgree | appTestTinyScheme/scheme.c:2787-2803 | the values of let bindings arrive in order; a malformed binding is an error |
| Agreement.LetBodyAgrees | appTestTinyScheme/scheme.c:2805-2827 | the body of a let, named or not, is evaluated in the new frame with the caller's dump |
| Agreement.ChainAgrees | appTestTinyScheme/scheme.c:2940-2976 | and, or stop at the first deciding value; every expression is evaluated with one frame saved |
| Agreement.DefineAgrees | appTestTinyScheme/scheme.c:2707-2731 | define evaluates, binds in the innermost frame and returns the symbol |
| Agreement.SetAgrees | appTestTinyScheme/scheme.c:2741-2755 | set! evaluates, assigns the variable where it is bound and returns the value, or fails if it is unbound |
| Agreement.SpecialAgrees | appTestTinyScheme/scheme.c:2559-2562 | each special form agrees with the evaluator |
| Evaluation.HaltsExactly | appTestTinyScheme/scheme.c:4386-4456 | the machine halts with a value, its dump having grown to a height, exactly when the evaluator gives both |
| Evaluation.FailsExactly | appTestTinyScheme/scheme.c:4386-4456 | the machine stops with an error exactly when the evaluator does, for the same reason |
| Evaluation.RunsForEver | appTestTinyScheme/scheme.c:4386-4456 | the machine runs for ever exactly when the evaluator has no answer at any depth |
| TailCalls.IfNeeds | appTestTinyScheme/scheme.c:2768-2779 | the branch of an if needs no dump of its own |
| TailCalls.AndNeeds | appTestTinyScheme/scheme.c:2940-2957 | the last expression of an and needs a dump frame |
| TailCalls.OrNeeds | appTestTinyScheme/scheme.c:2959-2976 | the last expression of an or needs a dump frame |
| TailCalls.IfLoopFlat | appTestTinyScheme/scheme.c:2768-2779 | a loop that calls itself from an if needs two dump frames, for any number of rounds |
| TailCalls.AndLoopClimbs | appTestTinyScheme/scheme.c:2940-2957 | the same loop through and needs exactly one frame more per round |
| WellScoped.StepGood | appTestTinyScheme/scheme.c:2542-2976 | every step keeps all environments within the existing frames and every frame's parent older |
| WellScoped.RunGood | appTestTinyScheme/scheme.c:4386-4456 | so does every run |
| Interpreter.Scheme.FindSlotInEnv | appTestTinyScheme/scheme.c:2226-2246 | the loops find what the environment binds, and end |
| Interpreter.Scheme.SReturn | appTestTinyScheme/scheme.c:2435-2443 | the value goes to what was saved last, or the machine finishes |
| Interpreter.Scheme.BindArguments | appTestTinyScheme/scheme.c:2631-2651 | the loop binds the formals in the new frame, or reports the error |
| Interpreter.Scheme.LoopFormals | appTestTinyScheme/scheme.c:2811-2820 | the names of a named let's bindings in order, or an error |
| Interpreter.Scheme.Opexe | appTestTinyScheme/scheme.c:2542-2976 | one round of the cycle is one step of the machine |
| Interpreter.Scheme.SchemeEval | appTestTinyScheme/scheme.c:4907-4919 | the cycle ends with the evaluator's value and frames, or its error |
| SchemeText.CopiedWhole | appTestTinyScheme/scheme.c:945-960 | the copy of a counted text is the text exactly if no byte before the last is 0 |
| SchemeText.StringBack | appTestTinyScheme/scheme.c:1604-1715 | reading a printed string of at most 255 bytes gives the copy that store_string makes of it |
| SchemeText.EscapedBack | appTestTinyScheme/scheme.c:1833-1878 | each printed character of a string, escaped or not, is read as that character |
| SchemeText.NumberBack | appTestTinyScheme/scheme.c:1051-1113 | the decimal text of an integer is classified as an integer and has its value |
| SchemeText.WordBack | appTestTinyScheme/scheme.c:1588-1601 | a word before a delimiter is read whole and the delimiter is left |
| Reading.PrinterPrints | appTestTinyScheme/scheme.c:4181-4232 | the printer puts out the text of a datum and returns to what was saved |
| RoundTrip.ReadsBack | appTestTinyScheme/scheme.c:4028-4160 | the reader on the text of a datum returns ReadAs of it, with stack and nesting count as before and what follows unread |
| RoundTrip.AtomBack | appTestTinyScheme/scheme.c:4080-4103 | atoms read back in one step, strings as their copies |
| RoundTrip.TrapBack | appTestTinyScheme/scheme.c:4076-4079 | (unquote @name) reads back as unquote-splicing of name |
| RoundTrip.TailBack | appTestTinyScheme/scheme.c:4109-4148 | the rest of a list, proper or dotted, reads back and ends the list |
| RoundTrip.SameExactly | appTestTinyScheme/scheme.c:4181-4213 | a datum is read back as it was exactly if no part printed on its own is (unquote @name) and no string has a 0 before its last byte |
| RoundTrip.NulLosesRest | appTestTinyScheme/scheme.c:945-973 | the string of the bytes 0 and 65 comes back with a second byte that was never written |
| RoundTrip.WriteThenRead | appTestTinyScheme/scheme.c:4028-4232 | printing and then reading gives ReadAs of the datum, with empty stack and count 0 |
| ReaderObject.Scheme.GetToken | appTestTinyScheme/scheme.c:1753-1828 | the token and the rest of the input, spaces and comments skipped |
| ReaderObject.Scheme.ReadStrUpto | appTestTinyScheme/scheme.c:1588-1601 | the word in the 256-character buffer, and the rest |
| ReaderObject.Scheme.StoreString | appTestTinyScheme/scheme.c:945-960 | the loop copies up to the first 0 into a new block of the given length |
| ReaderObject.Scheme.ReadStrExp | appTestTinyScheme/scheme.c:1604-1715 | a copy of the string literal with its escapes resolved, or an error |
| ReaderObject.Scheme.Opexe | appTestTinyScheme/scheme.c:4028-4160 | one round of the cycle is one step of the reader |
| ReaderObject.Scheme.Read | appTestTinyScheme/scheme.c:4028-4160 | on a port with the text of a datum it yields ReadAs of the datum and leaves what follows, stack and count as before |
| ReaderObject.Scheme.ReadAtom | appTestTinyScheme/scheme.c:4080-4081 | a word on a port is read as the atom it stands for, and what follows is left |
| ReaderLaws.BlankLaw | appTestTinyScheme/scheme.c:1727-1750 | the six blanks are skipped before a token |
| ReaderLaws.CommentLaw | appTestTinyScheme/scheme.c:1775-1789 | a comment is skipped up to the end of its line |
| ReaderLaws.MarkLaw | appTestTinyScheme/scheme.c:1760-1798 | parentheses, quotation characters and the double quote are tokens |
| ReaderLaws.DotLaw | appTestTinyScheme/scheme.c:1764-1772 | a dot is a token before a blank or the end |
| ReaderLaws.SharpLaw | appTestTinyScheme/scheme.c:1799-1823 | what follows a # decides between a vector, a constant and a hook |
| ReaderLaws.AtomLaw | appTestTinyScheme/scheme.c:1824-1826 | any other character begins a word |
| ReaderLaws.WordLaw | appTestTinyScheme/scheme.c:1588-1601 | a word goes up to a blank, a parenthesis, a double quote or a semicolon |
| ReaderLaws.NumberLaw | appTestTinyScheme/scheme.c:1051-1114 | digits, with or without a sign, are the number by place value, leading zeros included |
| ReaderLaws.IntegerExactly | appTestTinyScheme/scheme.c:1051-1114 | a word is an integer if and only if it is digits behind at most one sign |
| ReaderLaws.RealLaw | appTestTinyScheme/scheme.c:1083-1112 | digits with a point, or with an exponent, are a real number |
| ReaderLaws.SymbolLaw | appTestTinyScheme/scheme.c:1070-1081 | a word that begins with no digit, sign or point is a symbol, in lower case |
| ReaderLaws.WordExactly | appTestTinyScheme/scheme.c:1051-1114 | every word is a qualified name, an integer, a real number or a symbol, each exactly by its grammar |
| ReaderLaws.ReadNumber | appTestTinyScheme/scheme.c:4080-4081 | such a number on a port is read with its value, before an ending character or the end |
| ReaderLaws.WrapLaw | appTestTinyScheme/scheme.c:4058-4170 | the quotation characters stand for quote, quasiquote, unquote and unquote-splicing around a datum |
| ReaderLaws.PlainLaw | appTestTinyScheme/scheme.c:1616-1628 | a plain character of a literal stands for itself and a double quote ends it |
| ReaderLaws.EscapeLaw | appTestTinyScheme/scheme.c:1629-1668 | n, t and r behind a backslash are newline, tab and return |
| ReaderLaws.CodeLaw | appTestTinyScheme/scheme.c:1669-1687 | x and two hexadecimal digits in either case give the code |
| ReaderLaws.OctalLaw | appTestTinyScheme/scheme.c:1688-1711 | so do three octal digits |
| ReaderLaws.CopyLaw | appTestTinyScheme/scheme.c:945-960 | each byte of a copy: as in the text up to its first 0, and not written behind that |
| ReaderLaws.EscapedLaw | appTestTinyScheme/scheme.c:1833-1877 | how each byte of a string is printed |
| ReaderLaws.NumberTextLaw | appTestTinyScheme/scheme.c:1906-1911 | a number is printed as its digits without leading zeros, behind a minus if it is below 0 |
| ReaderLaws.TextLaw | appTestTinyScheme/scheme.c:4181-4232 | the texts of atoms, of proper lists and of dotted ones |
| ReaderLaws.QuotationText | appTestTinyScheme/scheme.c:4193-4208 | the four quotations are abbreviated |
| ReaderObject.Writer.PrintSlashString | appTestTinyScheme/scheme.c:1833-1878 | the loop puts out the escaped text between quotes |
| ReaderObject.Writer.Write | appTestTinyScheme/scheme.c:4181-4232 | the text of the datum is put out, the stack as before |
| Unification.Lookup | appTestPicoLisp/subr.c:1289-1304 | following bindings ends at a term or an unbound variable |
| Unification.Unify | appTestPicoLisp/subr.c:1286-1328 | unification keeps the chains of variables acyclic, so that every lookup ends |
| Unification.UnifySound | appTestPicoLisp/subr.c:1286-1328 | every valuation that satisfies the new environment satisfies the old one and equates the terms |
| Unification.UnifyComplete | appTestPicoLisp/subr.c:1286-1328 | every valuation that satisfies the old environment and equates the terms satisfies the new one; after a failure there is none |
| Unification.UnifyFails | appTestPicoLisp/subr.c:1286-1328 | on failure no satisfying valuation equates the terms |
| Unification.UnifyDeeper | appTestPicoLisp/subr.c:1286-1328 | more depth of recursion does not change a result |
| Unification.UnifyExactly | appTestPicoLisp/subr.c:1286-1328 | without @, a valuation satisfies the environment of a success at some depth if and only if it satisfies the old one and equates the terms |
| Unification.AnonymousPromisesNothing | appTestPicoLisp/subr.c:1307-1320 | (@ . @) and (7 . 8) unify without a binding, and no valuation equates them |
| Unification.KnotArises | appTestPicoLisp/subr.c:1307-1320 | two bindings made by unification form a knot |
| Unification.KnotNeverEnds | appTestPicoLisp/subr.c:1321-1328 | on the knot unification has no result at any depth |
| Unification.KnotHasNoSolution | appTestPicoLisp/subr.c:1307-1320 | no valuation satisfies the bindings of the knot |
| Unification.GroundAnswer | appTestPicoLisp/subr.c:1330-1347 | a looked-up term without variables is the value of the original in every satisfying valuation |
| OccursCheck.SatisfiedRanked | appTestPicoLisp/subr.c:1286-1328 | if a valuation satisfies the bindings, the variables can be ranked so that each binding leads down |
| OccursCheck.SolutionSatisfies | appTestPicoLisp/subr.c:1286-1328 | if they can be ranked, the unbound variables can have any values, and some valuation satisfies the bindings |
| OccursCheck.CheckExactly | appTestPicoLisp/subr.c:1307-1320 | a new binding keeps the environment acyclic if and only if its variable does not occur in its term |
| OccursCheck.SolvableExactly | appTestPicoLisp/subr.c:1286-1328 | some valuation satisfies an environment if and only if every binding passes the occurs check against the older ones |
| CheckedUnification.CheckedExactly | appTestPicoLisp/subr.c:1286-1328 | unification binds each variable of a level at most once, and its bindings all pass if and only if those it adds do |
| CheckedUnification.UnifiableExactly | appTestPicoLisp/subr.c:1286-1328 | two terms have a common instance under the bindings if and only if unification succeeds with bindings that pass |
| CheckedUnification.EndsIfChecked | appTestPicoLisp/subr.c:1286-1328 | unification ends if no binding fails the check |
| Resolution.ResolveSound | appTestPicoLisp/subr.c:1366-1467 | a resolved goal follows from the clause's body |
| Resolution.SolveComplete | appTestPicoLisp/subr.c:1366-1467 | a finite depth-first search finds an answer for every valuation that makes the goals derivable |
| Resolution.SolveClausesComplete | appTestPicoLisp/subr.c:1366-1467 | so does the search over the clauses of a goal |
| Resolution.UnifyBelow | appTestPicoLisp/subr.c:1366-1467 | the levels in use stay below the counter, so that each level handed out is fresh |
| Prover.Backtracks | appTestPicoLisp/subr.c:1391-1398 | going back to a saved choice goes on with the remaining answers |
| Prover.OneRound | appTestPicoLisp/subr.c:1387-1459 | a round of the machine yields the next answer or leaves the remaining answers as they are |
| Prover.RunAgrees | appTestPicoLisp/subr.c:1387-1459 | the machine refines the depth-first search: its answer is the first one, and the others are left in order |
| Prover.RunSound | appTestPicoLisp/subr.c:1387-1459 | every valuation that satisfies an answer makes all goals derivable, from every state of a run |
| Prover.AnswerSound | appTestPicoLisp/subr.c:1366-1467 | every valuation that satisfies an answer to a query makes every goal of the query derivable; there need not be one |
| Prover.NoAnswerComplete | appTestPicoLisp/subr.c:1366-1467 | if a finite search ends without an answer, no instance of the query is derivable |
| ClauseOrder.AnswersInOrder | appTestPicoLisp/subr.c:1389-1451 | the answers to a goal are those through the first clause of its predicate, then those through the second, and so on |
| ClauseOrder.PlainUnify | appTestPicoLisp/subr.c:1286-1328 | terms without symbols that begin with @ unify exactly if they are equal |
| ClauseOrder.VariableUnify | appTestPicoLisp/subr.c:1305-1320 | a symbol that begins with @ is bound to what it meets, @ itself to nothing |
| ClauseOrder.FirstFact | appTestPicoLisp/subr.c:1389-1451 | the first fact that unifies with the goal is the answer |
| ClauseOrder.PlainFacts | appTestPicoLisp/subr.c:1366-1467 | a query without variables to such facts is answered if and only if it is one of them |
| Answers.AnswerExactly | appTestPicoLisp/subr.c:1366-1467 | an answer has a satisfying valuation if and only if its bindings pass the check; then all goals are derivable for any values of the unbound variables |
| Answers.CyclicAnswer | appTestPicoLisp/subr.c:1387-1459 | the prover answers (q), with a binding that fails the check |
| Answers.CyclicUnderivable | appTestPicoLisp/subr.c:1387-1459 | nothing is derivable for q |
| BindingList.FillsExactly | appTestPicoLisp/subr.c:1330-1347 | looking up the bound variables ends if and only if all bindings pass the check |
| BindingList.ListedAt | appTestPicoLisp/subr.c:1460-1462 | the list has the values of exactly the variables of the query that are bound |
| BindingList.TermsDerivable | appTestPicoLisp/subr.c:1330-1352 | the query is derivable with the terms that lup gives for its variables |
| BindingList.ListedDerivable | appTestPicoLisp/subr.c:1460-1466 | the query is derivable with the listed values if no variable is left in them |
| BindingList.HalvesRun | appTestPicoLisp/subr.c:1387-1459 | the query (p @X . @Y) with the fact (p (@A 1 . @A)) is answered |
| BindingList.HalvesListed | appTestPicoLisp/subr.c:1460-1462 | its list is ((@X) (@Y 1 . @A)) |
| BindingList.HalvesNotDerivable | appTestPicoLisp/subr.c:1460-1466 | with these values the query is not derivable |
| ProverObject.Search.LookUp | appTestPicoLisp/subr.c:1289-1304 | the loops over the environment compute the lookup |
| ProverObject.Search.UnifyTerms | appTestPicoLisp/subr.c:1286-1328 | the environment becomes the unifier's, or is as before after a failure |
| ProverObject.Search.Prove | appTestPicoLisp/subr.c:1387-1459 | the loop over the registers does what the machine does |
| ProverObject.Search.LookUpAll | appTestPicoLisp/subr.c:1330-1347 | the recursion computes the looked-up term |
| ProverObject.Search.QueryBindings | appTestPicoLisp/subr.c:1460-1462 | the loop lists the bindings of level 0, oldest first |
| ProverObject.Search.ProveQuery | appTestPicoLisp/subr.c:1366-1467 | the list of an answer, T if it is empty, NIL if there is no answer |
| Ordering.OrderLaws | appTestPicoLisp/pico_lisp_main.c:260-307 | the order of data is a total preorder |
| Ordering.CompareIsOrder | appTestPicoLisp/pico_lisp_main.c:260-307 | compare computes the sign of that order if the deciding difference fits in a word, and the opposite sign if it does not |
| Ordering.ZeroIsSame | appTestPicoLisp/pico_lisp_main.c:260-307 | only equal values are equal in the order |
| Ordering.NamesByCharacter | appTestPicoLisp/pico_lisp_main.c:282-290 | names are ordered by their first character that differs, a proper prefix coming first |
| Ordering.TypesInOrder | appTestPicoLisp/pico_lisp_main.c:260-307 | NIL, numbers, symbols, lists, T; lists by their first parts that differ |
| Ordering.CompareExactly | appTestPicoLisp/pico_lisp_main.c:260-307 | for values made of words compare is right if and only if the difference that decides fits in a word |
| Ordering.NumbersExactly | appTestPicoLisp/pico_lisp_main.c:269-273 | two numbers are compared rightly exactly if their difference fits |
| Ordering.DifferenceWraps | appTestPicoLisp/pico_lisp_main.c:269-273 | the result for two numbers is their difference as a word |
| Ordering.ExtremesWrongWay | appTestPicoLisp/pico_lisp_main.c:269-273 | the smallest 32-bit number compares greater than the largest |
| Ordering.CompareChars | appTestPicoLisp/pico_lisp_main.c:282-290 | the loop over two names gives the first difference |
| Ordering.CompareValues | appTestPicoLisp/pico_lisp_main.c:260-307 | the recursion into cars and the loop along cdrs compute compare |
| Runs.TakeSound | appTestPicoLisp/subr.c:1522-1559 | each step of a pass keeps the runs written, plus those still to be begun, within the longer input's |
| Runs.PassDone | appTestPicoLisp/subr.c:1522-1560 | after a pass there are no more runs than in the longer input, and a single output is in order |
| Runs.OneRunAscends | appTestPicoLisp/subr.c:1560-1561 | a list of one run is in ascending order |
| ListSort.CompareLists | appTestPicoLisp/subr.c:1523-1553 | comparing two cells as lists decides by their first elements and breaks ties by the rest |
| ListSort.TakeLinked | appTestPicoLisp/subr.c:1555-1558 | moving a cell to an output leaves four lists made of the same cells |
| ListSort.FewerRuns | appTestPicoLisp/subr.c:1507-1560 | every pass but the first lowers the number of runs |
| ListSort.Lists.Pick | appTestPicoLisp/subr.c:1522-1554 | the cell taken goes on with the current run if one can, and is the smaller of two candidates |
| ListSort.Lists.OnePass | appTestPicoLisp/subr.c:1508-1559 | a pass leaves at most as many runs as the longer list had |
| ListSort.Lists.Sort | appTestPicoLisp/subr.c:1496-1562 | the same cells, no more and no fewer, linked in ascending order; all other cells are as before |
| IndexTree.InsertKeys | appTestPicoLisp/sym.c:1059-1109 | inserting adds the key and keeps the order |
| IndexTree.DeleteKeys | appTestPicoLisp/sym.c:1067-1083 | deleting takes the key away and keeps the order |
| IndexTree.DeleteHereKeys | appTestPicoLisp/sym.c:1067-1083 | so it does at the node itself, in each of the four cases |
| IndexTree.InOrderAscends | appTestPicoLisp/sym.c:1030-1036 | the listing is strictly ascending and holds exactly the keys |
| IndexTree.SkipBelow | appTestPicoLisp/sym.c:1115-1131 | a left subtree that is skipped holds no entry of the range |
| IndexTree.SkipAbove | appTestPicoLisp/sym.c:1115-1131 | a right subtree that is skipped holds no entry of the range |
| IndexStore.Refocus | appTestPicoLisp/sym.c:1065-1109 | another tree stored in a link leaves the rest of the tree as it was |
| IndexStore.Index.Remove | appTestPicoLisp/sym.c:1068-1080 | the links and keys changed in place are those of the tree without the node |
| IndexStore.Index.DoIdx | appTestPicoLisp/sym.c:1041-1110 | the tree in memory holds the old keys with the key added or removed, in order; found exactly if it was present |
| IndexStore.Index.List | appTestPicoLisp/sym.c:1030-1056 | the keys in strictly ascending order |
| IndexStore.Index.DoLup | appTestPicoLisp/sym.c:1115-1148 | exactly the entries between two values, in ascending order |
| DeepBinding.Extent | appTestPicoLisp/flow.c:64-77 | how many lists the n newest calls take up, never more than there are |
| BindingLaws.ExtentLaw | appTestPicoLisp/flow.c:64-77 | the lists taken away end with that of the n-th call |
| BindingLaws.EvalLaw | appTestPicoLisp/flow.c:47-110 | (eval x n) evaluates the value of x without those lists, which come back unchanged |
| BindingLaws.CallLaw | appTestPicoLisp/pico_lisp_main.c:421-477 | where a body is evaluated, @ looks up to its old value, the formals to the arguments' values, the symbol behind them to the arguments left, and all others to what they were |
| BindingLaws.IfLaw | appTestPicoLisp/flow.c:850-860 | if chooses by NIL, and keeps another value in @ |
| BindingLaws.AssignLaw | appTestPicoLisp/sym.c:761-772 | an assignment changes what the symbol looks up to, and nothing else |
| BindingLaws.UseLaw | appTestPicoLisp/flow.c:702-729 | use binds its symbols to the values they have |
| BindingLaws.LetLaw | appTestPicoLisp/flow.c:652-684 | let binds its symbol to its old value for the expression, then to the value |
| BindingLaws.ThrowLaw | appTestPicoLisp/flow.c:1285-1297 | a throw goes to the newest catch for the tag or for T, with the lists there were when it began |
| ShallowBinding.LookupIsValue | appTestPicoLisp/pico_lisp_main.c:421-477 | the value a symbol holds is the one found in the association lists that the state stands for |
| ShallowBinding.PutIsAssign | appTestPicoLisp/sym.c:761-772 | storing a value assigns the variable where it is bound first |
| ShallowBinding.PushShows | appTestPicoLisp/pico_lisp_main.c:437-442 | swapping a frame in puts its bindings in front |
| ShallowBinding.PopShows | appTestPicoLisp/pico_lisp_main.c:473-475 | putting saved values back takes the newest list away |
| ShallowBinding.SwapOut | appTestPicoLisp/flow.c:64-77 | swapping the topmost frame in force out takes its list off the view |
| ShallowBinding.SwapIn | appTestPicoLisp/flow.c:99-107 | swapping it in again puts the same list back |
| ShallowBinding.SwapTwice | appTestPicoLisp/flow.c:64-107 | swapping out and in again restores values and frame |
| ShallowBinding.MoreShows | appTestPicoLisp/flow.c:673-678 | saving one more symbol binds it to the value it has |
| DynamicBinding.Outwards | appTestPicoLisp/flow.c:1285-1297 | a jump out of an inner construct is the same jump out of the outer one |
| DynamicBinding.HideOne | appTestPicoLisp/flow.c:64-77 | a frame swapped out for (eval x n) is off the view and keeps its own values |
| DynamicBinding.ShowOne | appTestPicoLisp/flow.c:99-107 | put back, it shows these values again |
| DynamicBinding.PicoLisp.HideFrames | appTestPicoLisp/flow.c:64-77 | the loop does what SwappedOut says, for every n |
| DynamicBinding.HidesCalls | appTestPicoLisp/flow.c:64-77 | for n >= 1 exactly the lists of the n newest calls, and those made within them, leave the view |
| DynamicBinding.PicoLisp.ShowFrames | appTestPicoLisp/flow.c:99-107 | the loop does what SwappedIn says, for every n |
| DynamicBinding.ShowsCalls | appTestPicoLisp/flow.c:99-107 | for n >= 1 all these lists come back, whatever was evaluated in between |
| DynamicBinding.PicoLisp.EvExpr | appTestPicoLisp/pico_lisp_main.c:421-477 | a call binds @, the formals and the rest as the association lists say, and leaves no trace |
| DynamicBinding.PicoLisp.EvalArgs | appTestPicoLisp/pico_lisp_main.c:429-436 | arguments are evaluated before any formal is bound; missing ones are NIL |
| DynamicBinding.PicoLisp.EvalLet | appTestPicoLisp/flow.c:652-684 | each symbol is bound before its expression is evaluated, and all are restored |
| DynamicBinding.PicoLisp.EvalUse | appTestPicoLisp/flow.c:702-729 | the symbols keep their values and are restored |
| DynamicBinding.PicoLisp.EvalOutside | appTestPicoLisp/flow.c:47-110 | (eval x n) sees the lists without the n newest calls, and all frames are put back afterwards |
| DynamicBinding.PicoLisp.EvalCatch | appTestPicoLisp/flow.c:1272-1282 | a throw to the tag ends here with the bindings of this place |
| DynamicBinding.PicoLisp.Unwind | appTestPicoLisp/pico_lisp_main.c:368-405 | a throw goes to the newest matching catch with exactly the bindings made since undone |
| DynamicBinding.PicoLisp.LeaveTo | appTestPicoLisp/pico_lisp_main.c:374-396 | the frames are left as Unwound says, those that have been swapped out being swapped in first |
| DynamicBinding.PicoLisp.RescueFrames | appTestPicoLisp/pico_lisp_main.c:375-389 | the loops count frames and swap them in as Rescued says |
| DynamicBinding.LeavesFrames | appTestPicoLisp/pico_lisp_main.c:374-396 | on the way to a catch within the same (eval x n) no frame has been swapped out |
| DynamicBinding.PicoLisp.EvalExpr | appTestPicoLisp/pico_lisp_main.c:421-477 | every program has the value, the bindings and the throws that the association lists give it |
| FrameSwapping.PutBackExactly | appTestPicoLisp/flow.c:64-107 | both loops together leave values and frames as they were if and only if every frame comes back, which is so for every n >= 1; for n <= 0 it depends on the counts and saved values before the call |
| FrameSwapping.NothingComesIn | appTestPicoLisp/flow.c:99-107 | for n = 0 the second loop does nothing in any state |
| FrameSwapping.ZeroForgets | appTestPicoLisp/flow.c:64-107 | after both loops of (eval x 0) a frame in force is still swapped out but counts as in force: its symbols have their outer values, and get the inner ones when it is left |
| FrameSwapping.ZeroInput | appTestPicoLisp/flow.c:64-107 | a function with the argument 7 for a formal that is NIL outside: NIL after (eval 1 0), 7 after the call |
| Rescue.ThrowExactly | appTestPicoLisp/pico_lisp_main.c:374-396 | after a throw out of (eval x n) values and frames are as if none had been swapped out, if and only if the number swapped out is at most that met on the way, rounded up to a multiple of n |
| Rescue.RescueIsMixed | appTestPicoLisp/pico_lisp_main.c:375-389 | meeting a frame that has been swapped out brings back the n newest such frames |
| Rescue.CallsComeBack | appTestPicoLisp/pico_lisp_main.c:374-396 | all frames come back if only calls have made frames |
| Rescue.ThrowInput | appTestPicoLisp/pico_lisp_main.c:374-396 | a throw to a catch in a let in a function leaves the function's formal with its outer value |
| StreamScan.ShorterMatch | appTestPicoLisp/io.c:620-624 | the shorter matches are the prefixes that the matched part also ends with |
| StreamScan.Extended | appTestPicoLisp/io.c:613-615 | the match extended by the character read is the longest one |
| StreamScan.NextPrefix | appTestPicoLisp/io.c:622-624 | the longest shorter prefix that the matched part ends with |
| StreamScan.Advance | appTestPicoLisp/io.c:612-625 | after a character the counter is again the longest prefix that the text read ends with |
| StreamScan.AdvanceAll | appTestPicoLisp/io.c:611-626 | all counters are advanced, up to the first pattern that is complete |
| StreamScan.From | appTestPicoLisp/io.c:593-636 | the first pattern that ends at the earliest position where any does, with the input read up to there; none exactly if none occurs |
| Names.CodeFits | appTestPicoLisp/sym.c:7-27 | each character has a code of 6 or 7 bits; printable characters come back from their codes |
| Names.NormIs | appTestPicoLisp/sym.c:7-27 | which character each character comes back as |
| Names.CodeLength | appTestPicoLisp/sym.c:7-27 | which characters take 6 bits and which 7 |
| WordBits.OrBits | appTestPicoLisp/sym.c:136-152 | the bits of a bitwise or |
| Names.HoldsMore | appTestPicoLisp/sym.c:136-152 | a code that fits is added above the bits in the word |
| Names.HoldsNext | appTestPicoLisp/sym.c:136-152 | a code that does not fit is split over two words |
| Names.Packer.PutByte | appTestPicoLisp/sym.c:136-152 | the words hold one more character |
| Names.Packer.PopSym | appTestPicoLisp/sym.c:154-165 | the finished name holds the string, whichever of the three endings it has |
| Names.ReadHere | appTestPicoLisp/sym.c:63-113 | a code within the word is read off |
| Names.ReadAcross | appTestPicoLisp/sym.c:63-113 | a code split over two words is put together |
| Names.Unpacker.GetByte | appTestPicoLisp/sym.c:49-113 | the next character as normalised by the tables, 0 at the end |
| Names.ReadName | appTestPicoLisp/sym.c:49-113 | reading a name that holds a string gives its normalised characters up to the first 0 |
| Names.PrintableComesBack | appTestPicoLisp/sym.c:7-27 | strings of printable characters come back unchanged |
| Names.PackAndRead | appTestPicoLisp/sym.c:433-442 | packing a string of any length and reading the name gives the normalised string |
| NumberFormat.GroupedBack | appTestPicoLisp/math.c:102-111 | the digits with point and grouping characters scan to their value |
| NumberFormat.UnsignedBack | appTestPicoLisp/math.c:96-111 | numbers below 1, with their leading zeros, do too |
| NumberFormat.FormatThenParse | appTestPicoLisp/math.c:26-112 | parsing the formatted text with the same scale and characters gives the number |
| NumberFormat.NumToSym | appTestPicoLisp/math.c:77-112 | the loops produce the formatted text |
| NumberFormat.SymToNum | appTestPicoLisp/math.c:26-74 | the loops parse the text |
| ParseLaws.SignLaw | appTestPicoLisp/math.c:33-42 | leading blanks are skipped, a sign negates, and anything but a digit behind them is no number |
| ParseLaws.WholeLaw | appTestPicoLisp/math.c:43-74 | digits without a point are the number by place value, whatever the scale |
| ParseLaws.PointLaw | appTestPicoLisp/math.c:43-74 | behind the point missing decimals count as zeros, and too many round up from 5 on |
| ParseLaws.GroupLaw | appTestPicoLisp/math.c:51-56 | grouping characters do not count |
| ParseLaws.BadLaw | appTestPicoLisp/math.c:46-60 | any other character is an error |
| ParseLaws.BadDecimalLaw | appTestPicoLisp/math.c:46-69 | so it is behind the point, and so is a second point |
| SquareRoot.TryBit | appTestPicoLisp/math.c:463-471 | each turn of the loop decides one bit of the root |
| SquareRoot.TriedMeans | appTestPicoLisp/math.c:463-471 | the result is the integer root exactly if the number is below 2^(BITS-2) |
| SquareRoot.Rounded | appTestPicoLisp/math.c:472-473 | rounding up when the remainder exceeds the root gives the nearest integer |
| SquareRoot.NearestExactly | appTestPicoLisp/math.c:472-473 | exactly that number is the nearest integer |
| SquareRoot.RoundedExactly | appTestPicoLisp/math.c:463-473 | with rounding the result is the nearest integer if and only if the number is at most 2^(BITS-2) + 2^(BITS/2-1) |
| SquareRoot.ScaledTooFar | appTestPicoLisp/math.c:460-473 | (sqrt 268435456 7) on 32-bit words gives 32768 where 43348 is nearest |
| SquareRoot.Sqrt | appTestPicoLisp/math.c:450-475 | the integer root, or the nearest integer if rounding is asked for, each exactly within its bound |
| Dates.ValidExactly | appTestPicoLisp/pico_lisp_main.c:600-608 | exactly the dates of the Gregorian calendar have a number |
| Dates.DateBack | appTestPicoLisp/pico_lisp_main.c:600-637 | a date comes back from its number |
| Dates.NumberBack | appTestPicoLisp/pico_lisp_main.c:600-637 | every number from 1 on is that of exactly one date |
| Dates.NextNumber | appTestPicoLisp/pico_lisp_main.c:600-608 | consecutive dates have consecutive numbers |
| Dates.CenturyOf | appTestPicoLisp/pico_lisp_main.c:625-626 | the first division gives the century of the date |
| Dates.DaysFit | appTestPicoLisp/pico_lisp_main.c:622-637 | every step from a day number to its date fits into 32 bits if and only if the number is at most 21474395 |
| Dates.DatesFit | appTestPicoLisp/pico_lisp_main.c:600-608 | every step from a date to its number fits into 32 bits if and only if the date is before March 487621 |
| Coils.Device.ReadCoil | appModbus/modbus_hook.c:28-34 | the bit of an existing coil, or the address error |
| Coils.Device.WriteCoil | appModbus/modbus_hook.c:37-46 | that coil is set or cleared, all others are as before |
| Coils.PackOne | appModbus/task_modbus_tcp.c:381-398 | one more coil goes into the next bit |
| Coils.BytesAreEnough | appModbus/task_modbus_tcp.c:381-398 | n bits take the fewest bytes that hold them |
| Coils.CountIs | appModbus/task_modbus_tcp.c:421-443 | the byte count a request must state |
| Coils.Device.ReadCoils | appModbus/task_modbus_tcp.c:368-406 | the buffer gets ceil(n/8) and the coils' bits with padding 0, and keeps what is behind; an address beyond the end is an error |
| Coils.Device.WriteCoils | appModbus/task_modbus_tcp.c:421-443 | the coils get the payload's bits, all others are as before; the byte count must be right |
| Coils.ReadBack | appModbus/task_modbus_tcp.c:368-443 | what is read of coils just written are the payload's bits |
| Coils.Device.WriteThenRead | appModbus/task_modbus_tcp.c:368-443 | a write followed by a read of the same coils returns the payload with padding 0 and leaves other coils alone |

## Left out

- Hardware, network, file and shell code, waveform tables, and the Lua bindings: input and output over libraries that are not shown.
- Atoms' contents and `finalize_cell`: the memory model only knows that a cell is an atom.
- MemorySystem.Memory.GetVectorObject: after a failed allocation only `no_memory` is promised, as for GetCell.
- MemorySystem.Memory.GetCell: after a failed allocation only `no_memory` is promised, and not that the invariant still holds for the sink.
- Macros, continuations, `apply`, promises, the compile hook and the error hook, tracing, floating point, and the forms `let*`, `letrec`, `cond`, `case`, `delay`, `cons-stream`: a program that gets there has the outcome Outside in both the evaluator and the machine, as has one that reads the parts of an atom.
- The hash table in the outermost environment: it is one list, as in the alternative that the source can be compiled with.
- Pairs that a primitive procedure changes: data are values in the evaluator's model.
- The reader for vectors, characters, numbers in other bases and sharp hooks; ports other than string ports.
- Symbols and strings that cannot be read back (upper case, delimiters, numbers as names, more than 255 characters).
- Unification.Unify: terms nested deeper than the depth given have the outcome Stuck, because the code itself never ends on some bindings.
- The prover's cut, goals with a number and `^` goals; tracing.
- ReaderObject.Scheme.ReadStrUpto: `char` is signed, so that the end of the port ends a word. With unsigned characters a bare atom at the very end of a port would go on with the character 255 until the buffer is full; and the byte 255 is no end then.
- ListSort.Lists.Sort: circular lists, for which `compare` has a test, are not covered.
- Keys of an index tree that cannot be compared without overflow; the link cell of a node, which is folded into it; `lup` for a single key.
- DynamicBinding.PicoLisp.EvalExpr: `(eval x n)` with n < 1 and throws out of an `(eval x n)`, of which only the frames and values are modelled (`FrameSwapping`, `Rescue`), `finally`, the third argument of `eval`, functions with `@` as the last formal, and bindings of the same symbol twice in one frame have no claim.
- Rescue.ThrowExactly: throws out of one `(eval x n)` within another.
- StreamScan.From: an empty pattern reads beyond its end when the stream holds the character 0, so the two do not go together.
- Names: the comparison and the count of the bytes of names, which the code does not do right over word boundaries.
- Coils.Device.ReadCoils: requests of more than 2040 coils, whose byte count does not fit into a byte.
- Dates of the years before 0 and the months before March of the year 0.
- Registers, discrete inputs and the serial line of the Modbus server.
- ReaderObject.Writer.Write: a byte that was never written is put out as one unknown byte, where the code may put out an escape of up to four characters for it.
- SquareRoot.Sqrt: a negative scale is not modelled. It takes the scale and the wish to round as two parameters; in the source one argument that is not NIL asks for both, and scales if it is a number.
- PicoLisp's own collector, interning of symbols, and its reader and printer.
