# apogee: verified models

apogee is a Lua 5.5 virtual machine. This project models its hardest
algorithms and proves what they are for: that compiled loops and specialised
code do what the interpreter does, that caches and collections never change
what a program sees, and that what is written can be read back.
`dafny verify dfyconfig.toml` checks the whole project.

Code that changes things step by step is a method with loops, or a class whose
methods reassign its fields, proved against functions and predicates that say
what is meant; the main results are lemmas about those.

| files | what they model |
|---|---|
| `Int64`, `IntegerDivision`, `MagicNumber`, `Division` | wrapping 64-bit integers; Lua's floored operators; dividing by a constant through a multiply, with the magic-number search of Hacker's Delight, chapter 10 |
| `Bytecode`, `NumberMeaning` | numbers, frames, buffers and one step of the interpreter for the instructions that numeric loops are made of; what arithmetic and comparison mean |
| `KernelFlow`, `KernelTypes`, `KernelScan`, `KernelPlan` | which loops qualify as kernels: the dataflow of types, the inference of the types on entry, the scan of the body, and machine registers |
| `KernelRuns`, `KernelStraight` | the same told from the interpreter: which instructions run on which types, and bodies that always qualify |
| `KernelCode`, `KernelProof`, `KernelLeaves`, `KernelStale`, `KernelWitness` | what the emitted code does on machine registers, the simulation of the interpreter, when a kernel leaves, when the whole frame is right, and loops that mark its limits |
| `Collector`, `Collection`, `Finalizers` | marking with ephemerons, clearing of weak tables, resurrection, and the two finalizer queues as a state machine over any run |
| `Shapes`, `Lookup`, `IndexMeaning`, `FieldCache`, `CacheRun` | hidden classes and private dictionaries, indexing through metatables and what it means along chains of tables, the inline caches of fields, and any run of stores, burials and cached reads |
| `Pattern`, `PatternClasses`, `PatternMatcher`, `PatternMeaning`, `PatternSearch` | patterns: all the ways one matches in order of preference, the bytes of classes and sets, the backtracking matcher, what it is to match at all, and searching and replacing |
| `Chunk`, `ChunkLayout`, `ChunkDump`, `ChunkLoad`, `ChunkRoundTrip` | binary chunks: the format, its bytes, printer, parser, the round trip, and chunks cut short |
| `Tables`, `LengthWitness`, `Traversal` | array and hash parts as one map, length and when it is a border; `next` while fields are cleared |
| `Sort`, `Specialise`, `Pack`, `PackLayout` | quicksort with sentinel loops; specialised code with a fused multiply and add; `string.pack` and `string.unpack`, with the letters and bytes of their formats |
| `OpenUpvalues`, `ToBeClosed`, `ForLoop` | the open upvalue list, to-be-closed variables, and the preparation of numeric `for` loops |

Integers are mathematical ones kept in range by the types `int64` and
`uint64`; wrap-around is written out. A float is opaque: kernels and
specialised code assume of float operations only what `FloatOps.Exact` says,
that integers up to 2^53 convert exactly and that nothing is both above and at most
zero. What comparing with floats means is stated for operations that are those of
floats (`NumberMeaning.Faithful`). Arbitrary Lua code enters as a parameter: what a finalizer, a
`__close` metamethod or the slow path of arithmetic does is any function of
what it can see.

## Where the code falls short of the property

Each case has a witness among the members, and the condition under which the
property does hold.

- A jump into the JMP that a test takes along goes to no label
  (`KernelWitness.PlannedUnassembled`). The planner has a plan for such a loop; the
  assembler then reports an error and the loop is not compiled. The simulation
  is of kernels that assemble (`Assembles`).
- Dead code in a loop body empties the types that reach the code after it, so
  that registers are not written back (`KernelWitness.StaleAfterDeadStore`; the
  planner has a plan for that loop, `KernelWitness.DeadStorePlanned`). Without dead
  code the whole frame is the interpreter's (`KernelProof.KernelSameFrames`).
  With it, the frame is right after whole iterations, whatever was in the
  registers that the entry check does not look at, if and only if every written
  register is typed at the FORLOOP (`KernelStale.SameAtEndsExact`), and that is so
  if and only if no path from dead code to the FORLOOP avoids writing one
  (`KernelProof.AllTypedExact`). The planner accepts dead code only in a body that
  stores to the hidden index, which has no name in Lua
  (`KernelProof.IndexKeptNoDeadCode`).
- `fromMeta` takes a metatable without a shape for the cache's unset one and
  indexes its empty slots. `FieldCache.Site.GetField` gives the exact condition,
  `FieldCache.IndexedOutOfRange` a run from an empty state that meets it; every
  answer given is right.
- `fastTagMethod` tests `flags&1<<event`, which in Go is `(flags&1)<<event`:
  the bit of `__index`, whatever the event. Once a field absent through a
  metatable has been read, that metatable's `__newindex` is ignored
  (`Lookup.IgnoredNewIndex`, a run from an empty state); a store goes where it
  should if and only if it is not misled so (`Lookup.StoreAtExact`).
- A traversal resumes too early where the key it stands on was buried and an
  earlier slot has an equal tombstone, and only there (`Traversal.ResumesNext`).
  No clearing can bring that about if and only if no live slot has the hash of
  an earlier one (`Traversal.MarksApartExact`).
- `unboundSearch` adds two positions, and the sum may wrap. A table of 64
  entries has the length 3 * 2^60 though the next key holds a value
  (`LengthWitness.LengthMisses`). The result is a border if and only if no sum
  of the bisection wraps, or one does where the key after the position it has
  reached, and the negative key that it then looks at, hold nothing
  (`Tables.Table.UnboundSearch`, `Tables.FoundExact`); so it is in any table
  whose keys are below 2^61 (`Tables.SteadyBelow`).
- A loop with a negative step and a limit that is not a number runs, down to
  the smallest integer (`ForLoop.LimitExact`); section 3.3.5 of the Lua 5.4
  Reference Manual compares with the limit, so that it would not run.

## Model

| member | source | states |
|---|---|---|
| KernelPlan.PlanKernel | lua/jit_kernel.go:87-286 | There is a plan if and only if the body can be scanned and has a typing with the guesses made and few enough registers of each class (which instructions run on which types is told from the interpreter in KernelRuns). Its body has passed the scan, every register has a type at every pc, each register and type has a machine register of its own, and no other typing has the guesses |
| KernelStraight.StraightQualifies | lua/jit_kernel.go:87-286 | Every straight body of moves, constants, the four operators, // and % by a constant, and negation, on the loop's registers and on what the body has computed, qualifies if it needs few enough machine registers |
| KernelStraight.EveryPlanned | lua/jit_kernel.go:87-286 | The planner returns a plan for a concrete loop with every operator |
| KernelScan.ScanBody | lua/jit_kernel.go:155-247 | A body is accepted if and only if each of its instructions can be in a kernel, with constants within reach, calls that a GETUPVAL of an intrinsic feeds, and tests and jumps that stay, and what it indexes is no number, is never written and gets no new table; it finds exactly the live-in, written, called and indexed registers as defined without the scan |
| KernelRuns.ScansIfStepped | lua/jit_kernel.go:155-221 | Whatever the interpreter can run on some frame, writing a number if anything, is scanned, given that constants are within reach, tests and jumps go on in the body, and divisors are nonzero constants of 32 bits |
| KernelRuns.CallFound | lua/jit_kernel.go:312-341 | A GETUPVAL feeds the next CALL of its register if only arithmetic that leaves the register alone comes between and no jump goes there |
| KernelRuns.ScansIntrinsic | lua/jit_kernel.go:194-206 | Both are then scanned if the upvalue is an intrinsic |
| KernelRuns.JumpMeans | lua/jit_kernel.go:155-221 | Just the tests and jumps that go to a later pc of the body or its FORLOOP are followed, and where they go |
| KernelRuns.SkippedMeans | lua/jit_kernel.go:141-154 | A write may be skipped if and only if a test or jump before it goes past it |
| KernelScan.FoundScanned | lua/jit_kernel.go:141-247 | What the scan finds in an accepted body is all that kernels rely on: written registers are live in or surely written, and buffers are apart |
| KernelScan.WrittenLives | lua/jit_kernel.go:141-154 | A register that is used, but whose first use neither reads it nor can be skipped, is surely written |
| KernelScan.Scan.Write | lua/jit_kernel.go:141-154 | A register first written where a jump may skip the write becomes live in; written elsewhere, no register does |
| KernelScan.Scan.NoteCall | lua/jit_kernel.go:194-201 | It accepts if and only if the GETUPVAL is of an intrinsic and feeds a CALL; just that one is noted, and earlier notes stay |
| KernelScan.FedOnce | lua/jit_kernel.go:312-341 | Two GETUPVALs never feed the same CALL |
| KernelFlow.Loop.CallFromSpans | lua/jit_kernel.go:312-341 | Between a GETUPVAL and the CALL it feeds every instruction spares the register, and no jump of the body lands |
| KernelScan.BuffersApart | lua/jit_kernel.go:222-235 | It accepts if and only if no buffer register holds a number, is written or gets a new table |
| KernelScan.SideExitLiveIns | lua/jit_kernel.go:236-247 | Every written register below the loop is added and no other |
| KernelFlow.MergeTypes | lua/jit_kernel.go:549-568 | What meets keeps just the registers every path defines, with a type each path agrees to; it fails if and only if two paths give a register different decided types and no path up to the later one lacks it |
| KernelFlow.ComputeFlow | lua/jit_kernel.go:500-542 | One forward pass gives the types of the dataflow equations, at every pc the merge over all ways there, and at every instruction the type it writes; where it fails there is no flow without a clash from these types, nor from any that decide more |
| KernelFlow.FlowRefines | lua/jit_kernel.go:500-568 | Deciding more types on entry decides more at every pc and changes nothing that was decided |
| KernelFlow.FlowUnique | lua/jit_kernel.go:500-542 | The types on entry determine that flow at every pc visited |
| KernelTypes.Guess | lua/jit_kernel.go:460-494 | A float exactly when the register meets floats more often than integers, else an integer |
| KernelTypes.MeetingsCount | lua/jit_kernel.go:460-494 | Meetings are counted: each pc whose operands are the register and one of that kind |
| KernelTypes.PartnerMeans | lua/jit_kernel.go:460-494 | Only arithmetic and comparisons meet a register, with their other operand |
| KernelTypes.DecideByEnd | lua/jit_kernel.go:423-452 | A round gives each undecided live-in register the type it has at the iteration end and leaves all others; if that decides none it names the least one still undecided |
| KernelTypes.InferTypes | lua/jit_kernel.go:423-452 | It ends, as each round decides a register. But for the guesses nothing is chosen: if some types on entry with the guesses flow through the body without a clash, end as they start and let every instruction run, it finds them and there are no others; if not, it fails. A guess is of a register that the flow left open to the end, and the likelier type |
| KernelTypes.EndForces | lua/jit_kernel.go:423-452 | The type an open register ends the iteration with is the one it has in every typing |
| KernelTypes.CheckTypes | lua/jit_kernel.go:574-629 | It accepts if and only if written registers end with their entry types and every instruction can run on its operands |
| KernelRuns.ComputeRunsExact | lua/jit_kernel.go:615-626 | A move, constant, operator or negation is let run as giving a kind if and only if the interpreter writes a number of that kind on every frame with registers of the known kinds |
| KernelRuns.DivModRunsExact | lua/jit_kernel.go:619-626 | The same for // and % of a register by a nonzero constant integer |
| KernelRuns.CompareRunsExact | lua/jit_kernel.go:593-599 | A test is let run if and only if on every such frame its operands are numbers, and an integer that meets a float is within 2^53 |
| KernelRuns.GetRunsExact | lua/jit_kernel.go:607-610 | A buffer read is let run if and only if the key is an integer on every such frame |
| KernelRuns.SetRunsExact | lua/jit_kernel.go:602-606 | A buffer store is let run if and only if the key is an integer and the value a number on every such frame |
| KernelRuns.CallRunsExact | lua/jit_kernel.go:611-614 | An intrinsic is let run if and only if its argument is a number on every such frame |
| KernelPlan.AssignEntry | lua/jit_kernel.go:256-276 | Just the loop and live-in registers get a machine register for their type on entry, and no two of a class share one |
| KernelPlan.AssignResults | lua/jit_kernel.go:277-281 | And just the instruction results besides, every slot given before keeping its machine register |
| KernelPlan.EnoughExact | lua/jit_kernel.go:282-285 | The machine registers given out exceed a limit if and only if more registers of the class are needed |
| KernelProof.PlanAccepted | lua/jit_kernel.go:87-286 | What the planner returns meets the premises of the simulation, given that the code assembles |
| KernelProof.Decided | lua/jit_kernel.go:500-568 | Type soundness: at every pc reached each typed register has a decided type and a machine register for it |
| KernelProof.EdgeTypes | lua/jit_kernel.go:549-568 | Along every way to a pc a register has the very type it has there |
| KernelProof.CompareExact | lua/jit_arm64_kernel.go:444-551 | Comparing an exact integer constant with a float by conversion gives the comparison by mathematical value |
| KernelProof.DivideCodeExact | lua/jit_arm64_kernel.go:444-551 | The division code in a kernel computes the floored quotient and modulo |
| KernelProof.FunctionLoaded | lua/jit_arm64_kernel.go:185-232 | At an intrinsic CALL the interpreter holds in the register the function of the upvalue the kernel checked |
| KernelProof.SetTableStores | lua/jit_arm64_kernel.go:276-341 | A store to a buffer changes the same element to the same value in both |
| KernelProof.CodeStepSimulates | lua/jit_arm64_kernel.go:444-551 | Where the code for an instruction does not leave, the interpreter takes one step to the pc it goes to, with the same buffers and registers that correspond again |
| KernelProof.BodySimulates | lua/jit_arm64_kernel.go:62-124 | The code from any pc of the body to the FORLOOP or to a side exit is a run of the interpreter |
| KernelProof.TypesSoundAlong | lua/jit_arm64_kernel.go:62-124 | After any number of code steps from any pc each typed register holds a number of its type, in its machine register and in the interpreter, which has got there in as many steps |
| KernelProof.LoopGoesOn | lua/vm.go:876-893 | Where the kernel goes on, FORLOOP goes back to the body with the index, count and loop variable the kernel computes |
| KernelProof.LoopEnds | lua/vm.go:876-893 | Where the kernel ends the loop, so does FORLOOP |
| KernelProof.CountDown | lua/jit_arm64_kernel.go:355-385 | Counting down a uint64 of iterations in an int64 register tests and decrements it rightly |
| KernelProof.LoadedOnEntry | lua/jit_arm64_kernel.go:129-162 | After the entry check and loads each live-in register is in its machine register |
| KernelProof.FlushSide | lua/jit_arm64_kernel.go:167-176 | Leaving at a side exit writes back every register typed at that pc, and finds a pending intrinsic again |
| KernelProof.FlushEnd | lua/jit_arm64_kernel.go:389-398 | Leaving at the loop end writes back every register typed at the FORLOOP |
| KernelProof.IterateSimulates | lua/jit_arm64_kernel.go:62-124 | Any number of iterations, however they end, are a run of the interpreter to a state that agrees with the exit |
| KernelProof.KernelSimulates | lua/jit_arm64_kernel.go:62-124 | Main result: for every accepted plan, frame that passes the entry check and budget, the interpreter run from the FORLOOP for as many instructions as the kernel ran reaches the resume pc of the exit, with the same buffers and the same value in every register typed there or never written |
| KernelLeaves.LeavesExact | lua/jit_arm64_kernel.go:185-341 | The code leaves an instruction if and only if the interpreter's state says so: a read that gives nil or is not of floats, a store that raises an error or puts a float in an integer buffer, a call whose argument is left to Go |
| KernelLeaves.KernelExitMeans | lua/jit_arm64_kernel.go:62-124 | For every frame and budget: a side exit is at the first such instruction that the interpreter meets, none is passed, and a budget exit comes after just as many rounds of the FORLOOP as the budget is good for |
| KernelLeaves.NeverLeft | lua/jit_arm64_kernel.go:62-124 | A run of the interpreter that meets no such instruction is never left at a side exit |
| KernelLeaves.EntersExact | lua/jit_arm64_kernel.go:129-162 | The entry check passes if and only if live-in registers hold numbers of their types, noted upvalues their functions, and buffer registers buffers, of floats if read |
| KernelLeaves.BufferMeans | lua/buffer.go:89-138 | An integer key reads and writes just the element there; outside, a read is nil and a store an error |
| KernelLeaves.StoreWraps | lua/buffer.go:108-138 | A store of an integer in a buffer of bytes or int32s keeps its low bits |
| KernelProof.IndexKeptNoDeadCode | lua/jit_kernel.go:500-542 | An accepted body that does not write the hidden index has no dead code |
| KernelProof.WrittenTypedAtLatch | lua/jit_kernel.go:500-542 | Without dead code every register the loop writes is typed at the FORLOOP |
| KernelProof.KernelSameFrames | lua/jit_arm64_kernel.go:389-398 | For a body without dead code, however it exits, the whole frame is the interpreter's at loop end and budget exit, and at a side exit all of it below the loop and all live-in registers |
| KernelProof.AllTypedExact | lua/jit_kernel.go:500-568 | For accepted plans, every written register is typed at the FORLOOP if and only if no path of jumps and falls from dead code to it avoids writing one |
| KernelProof.KernelSameAtEnds | lua/jit_arm64_kernel.go:389-398 | Then a loop end and a budget exit leave the interpreter's whole frame, dead code or not |
| KernelStale.SameAtEndsExact | lua/jit_arm64_kernel.go:389-398 | A kernel that has run whole iterations leaves the interpreter's frame, whatever was in the registers that the entry check does not look at, if and only if every written register is typed at the FORLOOP |
| KernelStale.StaleFrom | lua/jit_arm64_kernel.go:389-398 | With nil in a written register that is untyped there, the interpreter ends with a value in it and the kernel with nil |
| KernelStale.SameIterate | lua/jit_arm64_kernel.go:62-124 | What the entry check does not look at has no part in how a kernel exits |
| KernelWitness.StaleAfterDeadStore | lua/jit_arm64_kernel.go:389-398 | An accepted plan whose body stores to the index in dead code, and a budget exit that leaves a register stale: the condition above is needed |
| KernelWitness.PlannedUnassembled | lua/jit_arm64_kernel.go:435-440 | A loop with a jump into the JMP a test takes along, for which the planner returns a plan and the emitter binds no label |
| KernelWitness.DeadStorePlanned | lua/jit_kernel.go:87-286 | The planner returns a plan for the loop with the dead store, and in it a written register is untyped at the FORLOOP |
| IntegerDivision.FlooredMeaning | internal/bytecode/number.go:150-171 | // and % are the floored quotient and modulo of any two integers, but for minint // -1 |
| NumberMeaning.IntArithMeans | internal/bytecode/number.go:128-150 | Integer +, - and * are the mathematical ones modulo 2^64 |
| NumberMeaning.CompareMeans | lua/numbers.go:141-220 | Comparing any two numbers compares what they are worth: integers past 2^53 with floats, infinities and NaN included |
| NumberMeaning.AsIntegerMeans | lua/numbers.go:216-220 | A value equals an integer if and only if it is a number worth that integer |
| MagicNumber.LeastExponentIsLeast | lua/jit_divide.go:64-94 | The exponent the search looks for is the least that is enough for the divisor |
| MagicNumber.SearchRound | lua/jit_divide.go:64-94 | Each round keeps 2^p == q1*nc + r1 == q2*abs(d) + r2, within uint64, and its test decides whether the exponent is enough |
| MagicNumber.MagicSigned | lua/jit_divide.go:64-94 | The search stops, without overflow, with the shift of the least exponent that is enough and the multiplier for it |
| MagicNumber.MagicQuotient | lua/jit_divide.go:64-94 | Multiplying by the magic number, shifting and adding the sign bit is the truncated quotient for every int64 |
| Division.PlanDivide | lua/jit_divide.go:38-47 | There is a plan for just the divisors other than 0, 1, -1 that fit 32 bits, with power of two, multiplier, shift and corrections as they should be |
| Division.PlanMagic | lua/jit_divide.go:38-47 | The multiplier fits 64 bits once the addition or subtraction of n corrects it |
| Division.RefQuotient | lua/jit_divide.go:97-127 | The wrapped multiply, correction and shift give the truncated quotient of every int64 |
| Division.DivRef | lua/jit_divide.go:97-127 | For every planned divisor and every int64 the results are IntFloorDiv and IntMod |
| Division.DivideByConstantExact | lua/jit_arm64_integer.go:82-129 | The instructions emitted for a planned divisor compute the same |
| Division.DivideInstructionExact | lua/jit_arm64_integer.go:13-76 | So does the divide instruction for 1 and -1, minint // -1 included |
| Collector.Marker.Mark | lua/gc.go:424-429 | A value is marked and waits to be traversed unless it was marked; nothing unreached is |
| Collector.Marker.Propagate | lua/gc.go:432-465 | Everything marked is traversed; nothing is marked that some closed set with the roots lacks; it ends |
| Collector.Marker.TraverseTable | lua/gc.go:482-510 | What the table keeps by itself is marked, and a weak table is in the list of its weakness, once; Collection.KeepsByMode says by the letters of __mode what that is |
| Collector.Marker.ConvergeEphemerons | lua/gc.go:514-527 | It ends, though ephemeron tables join as they are walked, and what is marked is exactly the least set with the roots closed under strong references and the ephemeron rule |
| Collector.ReachUnique | lua/gc.go:514-527 | There is only one such set |
| Collector.Marker.ClearValues | lua/gc.go:531-537 | Just the entries of reached weak-valued tables whose values were not reached are removed |
| Collector.Marker.ClearKeys | lua/gc.go:541-547 | Just the entries of reached weak-keyed tables whose keys were not reached are removed |
| Collector.Marker.RemoveWhere | lua/gc.go:570-582 | One table loses the entries found dead, and no other |
| Collector.SweepBoth | lua/gc.go:531-537 | Clearing two lists of tables one after the other clears both |
| Collection.CollectedEntries | lua/gc.go:297-319 | Which entry of which table a whole collection keeps, if and only if, by the letters in its metatable's __mode: with v those whose value was reached, judged before resurrection for tables reached before it; with k those whose key was reached after it |
| Collection.KeepsByMode | lua/gc.go:482-510 | What a table keeps by itself: its metatable, its keys unless there is a k, its values if there is neither letter |
| Collection.ReachedByMode | lua/gc.go:482-527 | Of a reached table, without k every key is reached, without either letter every value, and with k alone the values of reached keys |
| Collection.WeaknessByMode | lua/gc.go:482-510 | k is for weak keys, v for weak values, both for both |
| Collection.ResurrectionReach | lua/gc.go:301-317 | Clearing weak values before resurrection does not change what is resurrected |
| Collection.NothingDangles | lua/gc.go:278-334 | After a collection no reached object refers, even weakly, to an object not reached |
| Finalizers.GlobalState.NoteMetaTable | lua/gc.go:254-275 | A metatable with __gc notes a table or userdata for finalization, once, and none while closing |
| Finalizers.GlobalState.Cycle | lua/gc.go:285-331 | A collection finds what the roots reach, splits the finalizable objects into kept and dying without loss, and queues the dying newest first after those due |
| Finalizers.GlobalState.Collect | lua/gc.go:278-334 | A collection, and then all that is due is called in order whatever finalizers do; one in progress is not entered again |
| Finalizers.GlobalState.RunFinalizers | lua/gc.go:355-362 | Just the objects due at the start are taken, in order, whatever finalizers do |
| Finalizers.GlobalState.CallFinalizer | lua/gc.go:368-393 | A finalizer may change the heap and set metatables; the queues stay what the run so far leaves |
| Finalizers.GlobalState.Close | lua/gc.go:342-352 | Every object noted has been finalized exactly once: those due first, then the rest newest first |
| Finalizers.ApplyTidy | lua/gc.go:254-362 | Every step of setmetatable, collection, call and Close keeps each noted object in one queue, once, the live ones in order |
| Finalizers.NeverTwice | lua/gc.go:254-362 | Over any run no object is finalized twice and none noted is lost |
| Finalizers.AllAtClose | lua/gc.go:342-362 | A run that closes the state and empties the queue has finalized all that was noted |
| Finalizers.NewestFirst | lua/gc.go:329-331 | What one collection or Close adds to the queue is newest first |
| Finalizers.SplitMultiset | lua/gc.go:303-312 | Kept and dying are together the finalizable objects |
| Shapes.World.Dictionary | lua/shape.go:103-110 | A private copy with the same keys in the same slots; no other shape changes |
| Shapes.World.With | lua/shape.go:37-62 | The shape gains the key last; shared shapes never change, a dictionary grows in place, no other shape gains keys, and a new dictionary is nobody else's |
| Shapes.World.Buried | lua/shape.go:68-79 | A copy of a dictionary in which exactly the keys of nil slots are tombstones, and every live key keeps its slot |
| Shapes.World.BuryDeadKeys | lua/gc.go:585-590 | A dictionary with dead keys not yet buried gets tombstones for just the keys of nil slots, any other shape stays; every field reads as before and the slots stay where they were |
| Shapes.World.Compact | lua/tables.go:176-190 | Every field reads as before, no slot is nil, and nil fields have no slot |
| Shapes.World.PutString | lua/tables.go:135-172 | One field reads as the new value and every other of every table as before, through growth, the move to a dictionary and compaction; dead stays at most the number of nil slots |
| Shapes.World.TryPut | lua/tables.go:321-358 | It stores if and only if the field held a value; otherwise nothing changes |
| Shapes.World.NewTableAt | lua/tables.go:109-122 | A table made at a site has the layout that the site last saw, with every slot nil; no other table changes |
| Shapes.EvolvesTransitive | lua/shape.go:37-62 | Over any run shared shapes stay and dictionaries only gain keys in new slots |
| Shapes.StoredReads | lua/tables.go:135-172 | Storing in a slot keeps dead at most the number of nil slots and changes what one key reads |
| Lookup.TagMethod | lua/tag_methods.go:84-91 | The metatable's field; an absent one is flagged |
| Lookup.TableAt | lua/vm.go:13-36 | The generic path answers as indexing is defined: own fields, then __index tables, functions or an error, at most 100 deep; only flags change |
| IndexMeaning.IndexMeans | lua/vm.go:13-36 | Along up to 100 tables that lack the key, each the __index of the one before, the generic path gives the last one's field, calls a function in its __index, gives nil if it has none, or errors on a number there |
| IndexMeaning.IndexLoops | lua/vm.go:13-36 | Along more it is an error |
| IndexMeaning.IndexOther | lua/vm.go:13-36 | A string is indexed by __index of the strings' metatable, a number not at all |
| IndexMeaning.IndexIgnores | lua/vm.go:13-36 | Reading never depends on __newindex |
| IndexMeaning.ReadAlong | lua/vm.go:13-36 | The generic path on such tables, whatever is flagged |
| IndexMeaning.IndexCalled | lua/vm.go:13-65 | A concrete run: a field absent from a table calls the function in __index of its metatable, and storing it stores it |
| Lookup.FastTagMethod | lua/tables.go:192-197 | The event's field, or nil where the flags hide it, which is by the bit of __index whatever the event |
| Lookup.ShiftedMask | lua/tables.go:192-197 | The test as written, (flags & 1) << event, is bit 0, and is the intended one only for __index |
| Lookup.FastFieldExact | lua/tables.go:192-197 | It is the field if and only if the field is nil or the metatable is not flagged to lack __index; for __index it always is |
| Lookup.StoreAtExact | lua/vm.go:38-65 | The generic store goes where it should if and only if no table on the way lacks the key and has a metatable with __newindex that is flagged to lack __index |
| Lookup.SetTableAt | lua/vm.go:38-65 | The store goes where the fields not hidden say, changes that field and no other, and nothing where it does not store |
| IndexMeaning.NewIndexMeans | lua/vm.go:38-65 | Along up to 100 tables that lack the key, each the __newindex of the one before, a store goes to the last one, or calls the function in its __newindex, or errors on a number there |
| IndexMeaning.StoresTooLong | lua/vm.go:38-65 | Along more it is an error |
| IndexMeaning.NewIndexIgnores | lua/vm.go:38-65 | Storing never depends on __index, as indexing is defined |
| Lookup.NeverRaw | lua/vm.go:38-65 | As indexing is defined, a table that has __newindex and lacks the key is never stored in |
| Lookup.ReadThenStore | lua/vm.go:38-65 | Reading one absent field makes a store to another ignore __newindex |
| Lookup.IgnoredNewIndex | lua/vm.go:38-65 | A concrete run of that, from an empty state on: the store is raw where the function in "__newindex" should be called |
| FieldCache.StaysSound | lua/field_cache.go:20-47 | A cache sound for some shapes is sound for all that they evolve to |
| FieldCache.NeverStale | lua/field_cache.go:20-47 | So over any run of stores: a cache once sound is never stale |
| FieldCache.ChainAnswers | lua/field_cache.go:99-115 | What a sound chain answers is what indexing its first table does |
| FieldCache.MetaAnswers | lua/field_cache.go:80-96 | What the cache answers through a metatable is what indexing through it does |
| FieldCache.CacheAnswers | lua/field_cache.go:70-77 | A sound cache of the table's shape answers what indexing does; it goes out of range exactly where the own field is nil, the metatable has no shape and the cache no metatable |
| FieldCache.IndexTable | lua/field_cache.go:119-132 | The table in __index and the slot it is in, if and only if it has a shape |
| FieldCache.Site.From | lua/field_cache.go:99-115 | Walks the chain level by level as the chain is defined |
| FieldCache.Site.FillIndex | lua/field_cache.go:189-231 | What it caches is sound for the key; it succeeds if and only if there is no metatable, or its __index table's shape has the key, or a chain of shared shapes, none longer than it holds, leads to one that has it or to the end |
| FieldCache.Site.Fill | lua/field_cache.go:161-182 | The cache is sound afterwards and what it answers is what indexing does; a table whose shape may still gain the key leaves the cache alone; of another the shape is cached if and only if it has the key, or the table has no metatable or one whose part can be cached; else nothing is answered and only the chain is kept |
| FieldCache.Site.GetField | lua/field_cache.go:49-66 | Whatever it answers is the generic path's answer, for any value and cache; it goes out of range if and only if a condition on the table and cache before the call holds; a field the table has is always answered, and without a metatable so is one that its shape has a slot for or can never gain |
| FieldCache.Site.GetStringField | lua/field_cache.go:140-156 | What it answers for a string is what indexing through the string metatable does, and it never goes out of range |
| FieldCache.Site.SetField | lua/field_cache.go:239-264 | It stores if and only if the key has a slot, no __newindex can apply and no dictionary field becomes nil; indexing then asks for a raw store in that table, and just that field changes |
| FieldCache.ReadAgain | lua/field_cache.go:80-96 | A site that answered nil for a table goes out of range once the table gets a metatable with no string keys |
| FieldCache.IndexedOutOfRange | lua/field_cache.go:80-96 | A concrete run of that, from an empty state on |
| CacheRun.Program.Execute | lua/field_cache.go:49-66 | Whichever instruction with a constant key runs, all caches stay sound and a reading is answered in the present state |
| CacheRun.Program.Step | lua/field_cache.go:20-47 | So they do over tables made, raw and generic stores, reads that set flags, metatables set and keys buried |
| CacheRun.Program.Play | lua/field_cache.go:20-47 | Any run of those events, in any order, keeps all caches sound, answers each reading, and no answer ever given differs from the generic path's |
| Pattern.MostPrefersLongest | stdlib/pattern.go:220-231 | The preferred way of * and + has the most repetitions for which the rest matches; there is none if and only if the rest matches after none |
| Pattern.LeastPrefersShortest | stdlib/pattern.go:233-242 | The preferred way of - has the fewest |
| PatternMeaning.BalanceExact | stdlib/pattern.go:200-218 | A %b string ends exactly where its brackets first balance |
| PatternMeaning.WaysAreMatches | stdlib/pattern.go:281-367 | The ways the matcher is proved to prefer among are exactly the matches of a relation without order or backtracking, captures and errors included |
| PatternMeaning.OutcomeMeans | stdlib/pattern.go:281-367 | Sound and complete: an end is a match with the captures left, no match means nothing matches, an error is one some way meets |
| PatternMatcher.MatchState.ClassEnd | stdlib/pattern.go:80-108 | The end of the single-character class, or its error |
| PatternMatcher.MatchState.MatchBracketClass | stdlib/pattern.go:159-182 | Whether the character is in one of the set's items, or in none for a complement |
| PatternMatcher.MatchState.SingleMatch | stdlib/pattern.go:184-198 | Whether there is a character and it is in the class |
| PatternClasses.SmallLetters | stdlib/pattern.go:110-157 | Which bytes each class has, by their codes and by relations: %d 48 to 57, %a is %l or %u, %w is %a or %d, %p is %g less %w, and so on |
| PatternClasses.Capitals | stdlib/pattern.go:110-157 | A capital's class is exactly what the small letter's is not |
| PatternClasses.OthersStand | stdlib/pattern.go:110-157 | Any other byte after % stands for itself |
| PatternClasses.SetMeans | stdlib/pattern.go:159-182 | A set has exactly what its items have, a range the bytes from one end to the other, and after ^ exactly all others |
| PatternClasses.ItemsBack | stdlib/pattern.go:159-182 | A set is read as the items it is written with |
| PatternClasses.CaptureLimit | stdlib/pattern.go:244-256 | A pattern has at most 32 captures |
| PatternMatcher.MatchState.MatchBalance | stdlib/pattern.go:200-218 | The end of the balanced string, if there is one |
| PatternMatcher.MatchState.StartCapture | stdlib/pattern.go:244-256 | The first way with the capture opened; without one the captures are as before |
| PatternMatcher.MatchState.EndCapture | stdlib/pattern.go:258-266 | The first way with the last open capture closed; without one it is open again; an error if none is open |
| PatternMatcher.MatchState.CaptureToClose | stdlib/pattern.go:69-77 | The last capture not finished |
| PatternMatcher.MatchState.MatchCapture | stdlib/pattern.go:268-277 | The end of the capture's text where it is there again |
| PatternMatcher.MatchState.MaxExpand | stdlib/pattern.go:220-231 | The first of the ways from the most repetitions down |
| PatternMatcher.MatchState.MinExpand | stdlib/pattern.go:233-242 | The first of the ways from the fewest repetitions up |
| PatternMatcher.MatchState.Match | stdlib/pattern.go:281-289 | The preferred way with its captures, or none with level and captures as before; a pattern shorter than 200 bytes is never too complex |
| PatternMatcher.MatchState.DoMatch | stdlib/pattern.go:293-367 | The same of the body whose loop stands for tail calls |
| PatternSearch.Find | stdlib/pattern.go:404-442 | The leftmost match, in the preferred way; none only if the pattern matches nowhere; ^ anchors |
| PatternClasses.DigitsFound | stdlib/pattern.go:404-442 | A concrete search: %d+ finds the last three bytes of "abc 123" |
| PatternSearch.Gsub | stdlib/pattern.go:481-523 | The text of the pieces and the rest of the subject, and the number of matches replaced or kept |
| PatternSearch.PlanTiles | stdlib/pattern.go:481-523 | The pieces cover the subject in order without gap or overlap, to its end unless the count or an anchor stops them |
| PatternSearch.PlanRight | stdlib/pattern.go:481-523 | Each piece is right: a match is the preferred one there and does not end where the last one did, and a byte is copied only where there is no such match |
| PatternSearch.PieceGives | stdlib/pattern.go:528-553 | A match that is replaced gives the replacement, all else the text it covers |
| PatternSearch.RenderKept | stdlib/pattern.go:528-553 | Matches that are kept give back the text they cover |
| ChunkDump.DumpState.WriteString | internal/chunk/dump.go:124-136 | A string new to the table is written out and joins it; one in it is written as its place |
| ChunkDump.DumpState.WriteDebug | internal/chunk/dump.go:148-170 | The debug information, the source left out where it is the parent's; nothing of it where stripped |
| ChunkDump.DumpState.DumpFunction | internal/chunk/dump.go:180-191 | The bytes of the function and those nested in it, with the string table they leave |
| ChunkDump.Dump | internal/chunk/dump.go:14-19 | The chunk: header and main function |
| ChunkLoad.CheckHeader | internal/chunk/load.go:333-347 | It accepts exactly the input that starts with the platform's header; of the five errors each is raised exactly where it applies and none before it does |
| ChunkLoad.LoadState.ReadString | internal/chunk/load.go:106-143 | Of a written string it gives the string, with the table the dumper had after it |
| ChunkLoad.LoadState.ReadList | internal/chunk/load.go:146-160 | Of a written list, read in batches, its elements |
| ChunkLoad.LoadState.ReadConstants | internal/chunk/load.go:230-261 | Of written constants, the constants |
| ChunkLoad.LoadState.ReadDebug | internal/chunk/load.go:200-228 | Of written debug information, that, or none where it was stripped |
| ChunkLoad.LoadState.ReadFunction | internal/chunk/load.go:279-317 | Of a written function, the function but for inherited sources, with the dumper's string table, reading just its bytes, or that it is truncated if any are lacking; on any input it ends |
| ChunkLoad.InheritRestores | internal/chunk/load.go:324-331 | Inheriting after the recursion gives every function the source left out of it |
| ChunkLoad.InheritStrips | internal/chunk/load.go:324-331 | And "=?" throughout where all were stripped |
| ChunkLoad.Load | internal/chunk/load.go:32-48 | Of a chunk, whatever follows, the function or the stripped function, and what follows; of a chunk cut short anywhere, that it is truncated |
| ChunkRoundTrip.DumpThenLoad | internal/chunk/load.go:32-48 | Round trip: loading the dump of any prototype tree that fits its encodings gives it back, or its stripped form, and consumes exactly the dumped bytes |
| ChunkRoundTrip.DumpThenCut | internal/chunk/load.go:32-48 | Cutting the dump of any prototype tree short anywhere is found out, and nothing is loaded |
| ChunkLayout.HeaderOf | internal/chunk/load.go:333-347 | The header byte by byte |
| ChunkLayout.TagsOf | internal/chunk/dump.go:60-100 | The constants' tags, each its own |
| ChunkLayout.IntegerBytes | internal/chunk/dump.go:29-58 | The byte of worth 256^k comes k-th on a little platform and k-th from the end on a big one |
| ChunkLayout.StringsOf | internal/chunk/dump.go:124-136 | A string's size counts a zero byte after it, a repeated one is its first place with the highest bit set, and a missing one is zero |
| Chunk.EncodeDecode | internal/chunk/dump.go:29-58 | Fixed-size integers decode to what they encode, in either byte order |
| Tables.Table.ExtendArray | lua/tables.go:209-218 | The array part takes its entries from the hash part; every key reads as before |
| Tables.Table.MaybeResizeArray | lua/tables.go:227-245 | It grows if and only if the array would be half full, to at most 2 * occupancy + 1; every key reads as before |
| Tables.Table.PutAtInt | lua/tables.go:260-270 | One key reads as the new value and every other as before |
| Tables.Table.Put | lua/tables.go:292-317 | One key reads as the new value and every other as before, for any key but strings; a float that equals an integer is that key; nil and NaN are errors that change nothing |
| Tables.SameKey | lua/types.go:433-440 | Two keys are one if and only if they are the same or equal the same integer |
| Tables.Table.FloatReads | lua/tables.go:272-290 | Keys 1.0 and 1, and so every integer and its float, always read the same |
| Tables.Table.TryPut | lua/tables.go:321-358 | It stores if and only if the key held a value, and never grows the table |
| Tables.Table.UnboundSearch | lua/tables.go:360-379 | What doubling and bisection in 64-bit integers find: a border if and only if no sum wraps, or one does where the key after the position reached and the negative key looked at hold nothing |
| Tables.Table.Length | lua/tables.go:381-398 | A border of the map, under the same exact condition; always one where the array part ends with nil or the hash part is empty |
| Tables.Table.Bisect | lua/tables.go:360-379 | From a position that holds a value and one that does not: what wrapped sums find, and exactly when it is a border |
| Tables.Table.BorderInArray | lua/tables.go:381-398 | An array part that ends with nil has a border in it, and bisection finds one |
| Tables.FoundExact | lua/tables.go:360-379 | The bisection's result is a border if and only if it is calm |
| Tables.SteadyBelow | lua/tables.go:360-379 | Where no key from 2^61 on holds a value nothing leads the search astray |
| LengthWitness.LengthMisses | lua/tables.go:360-379 | A concrete table whose length is 3 * 2^60 though the next key holds a value |
| Traversal.Table.NextEntry | lua/tables.go:411-451 | The first live entry after the key's position, or that the key is none of the table's, if and only if it is not |
| Traversal.Table.NextHashKey | lua/tables.go:453-472 | The same for a key of the hash part, by the hint or by searching the snapshot |
| Traversal.Table.SnapshotKeys | lua/tables.go:475-483 | The hash part's keys, each once, in any order |
| Traversal.Table.NextMapKey | lua/tables.go:486-497 | The first key of the snapshot from a place on that is still present |
| Traversal.ResumesNext | lua/tables.go:411-451 | After an entry the traversal resumes at the next position, whatever was cleared and buried since, if and only if its key was not buried behind an earlier slot with the same tombstone |
| Traversal.ResumesOnce | lua/tables.go:411-451 | Where a traversal resumes after a key is determined |
| Traversal.VisitsAll | lua/tables.go:411-497 | A traversal visits every key that holds a value throughout, none twice, and only keys that held a value at its start |
| Traversal.Traverse | lua/tables.go:411-497 | A whole traversal, with any clearing, burying and other traversals between the calls, which may depend on the keys visited and so differ from call to call, ends; it visits every key live at its end, none twice, and none that was not live at its start |
| Traversal.MarksApartExact | lua/tables.go:411-451 | No clearing and burying makes a traversal resume too early if and only if no live slot has the hash of an earlier one |
| Traversal.PositionsVisited | lua/tables.go:411-497 | In terms of positions: every one live at the end, in ascending order |
| Traversal.EmptyingIsGentle | lua/gc.go:585-590 | Clearing every entry and burying every key is one of the clearings allowed |
| Traversal.ExtendedReads | lua/tables.go:209-218 | Growing the array part leaves a table that can be traversed, each key reading as before, though a snapshot left behind may then list keys of the array part |
| Sort.ScanUp | stdlib/table.go:238-260 | The scan stops at an element not before the pivot, within range, or reports a bad order function |
| Sort.ScanDown | stdlib/table.go:238-260 | And the other at one not after it |
| Sort.SortPartition | stdlib/table.go:238-260 | Everything up to the pivot is not after it and everything from it on not before it; any order function keeps it in range and a rearrangement |
| Sort.Prepare | stdlib/table.go:262-295 | Two or three elements are sorted; otherwise the ends and the pivot are sentinels for the scans |
| Sort.Narrows | stdlib/table.go:262-312 | With the smaller side sorted, only the other side of the pivot is left to sort |
| Sort.SortAux | stdlib/table.go:262-312 | With a strict weak order the range ends sorted and no error is raised; with any, it is a rearrangement of lo..up; recursion is at most logarithmically deep; whatever pivots are chosen |
| Specialise.FuseMulAdd | lua/specialise.go:50-56 | Exactly the multiplications by a constant that feed the addition after them are fused, and the addition stays |
| Specialise.SpecialiseCode | lua/specialise.go:91-171 | Each instruction by its operand kinds, fused where it feeds the next |
| Specialise.SpecialExact | lua/specialise.go:91-171 | Just the arithmetic with a register among its operands is specialised, and all else stays as it was |
| Specialise.FusedExact | lua/specialise.go:50-56 | Fused at a pc if and only if a register times a constant is there and its register plus another register comes next |
| Specialise.Setting.ArithMeans | lua/vm.go:556-664 | Both codes compute on numbers the arithmetic of numbers and change nothing else, and take the slow path on all else |
| Specialise.StepSimulates | lua/vm.go:556-664 | One step of specialised code, from any pc, is one of the original, or two for a fused step, and never two with hooks set |
| Specialise.RunSimulates | lua/vm.go:556-664 | Every run of specialised code from any pc, jumps into a fused pair included, is a run of the original to the same machine |
| Pack.PackHeader.Number | stdlib/pack.go:52-62 | A numeral, as far as it fits, or the default |
| Pack.OptionBack | stdlib/pack.go:74-127 | Every option spelled out with its size, numerals up to the largest included, is read back as that option and size, with the format after it and order and alignment as they were |
| Pack.OptionSizes | stdlib/pack.go:74-127 | No option is read with a size its kind may not have: integers are of 1 to 16 bytes, floats of 4 or 8 |
| PackLayout.IntegerLetters | stdlib/pack.go:74-127 | The letters of integers by size and sign: a small one is signed, its capital not |
| PackLayout.OrderLetters | stdlib/pack.go:74-127 | What the letters for order and alignment set |
| PackLayout.DefaultSizes | stdlib/pack.go:74-127 | The sizes where no numeral is given |
| Pack.PaddingAligns | stdlib/pack.go:131-151 | The padding brings the total to a multiple of the alignment, which is a power of two, and is less than it; X aligns as the option after it |
| Pack.AppendInt | stdlib/pack.go:154-172 | The low bytes of the integer in the order asked for, its sign beyond 8 |
| PackLayout.OrderedBytes | stdlib/pack.go:154-172 | The byte of worth 256^k is k-th from the front in little order and k-th from the back in big order |
| PackLayout.IntegerLayout | stdlib/pack.go:154-244 | A format of one signed integer of any size in either order: each of its bytes, or an overflow error if and only if they are too few |
| PackLayout.TextLayout | stdlib/pack.go:184-244 | A counted string is its length and itself, a zero-terminated one itself and a zero, a fixed one itself and the zeros it lacks |
| PackLayout.FloatLayout | stdlib/pack.go:184-244 | A float is its bits, of 32 for f and of 64 for n and d |
| Pack.UnpackInt | stdlib/pack.go:262-290 | The integer of those bytes, with its sign, or none where it does not fit 64 bits |
| Pack.IntegerBack | stdlib/pack.go:262-290 | Every integer packed in 1 to 16 bytes, either order, signed or not, is read back |
| Pack.StringPack | stdlib/pack.go:184-244 | What a format packs values as, or the error it raises |
| Pack.StringPackSize | stdlib/pack.go:246-258 | The size of a fixed-length format, or the error it raises |
| Pack.SizeExact | stdlib/pack.go:246-258 | That size is the length of whatever the format packs |
| Pack.UnpackItem | stdlib/pack.go:313-336 | What each option reads, or its error: data too short, an unfinished string, an integer that does not fit |
| Pack.ItemBack | stdlib/pack.go:313-336 | What an option packed is read back where it is next, whatever follows |
| Pack.StringUnpack | stdlib/pack.go:303-342 | What a format reads of any data from any position, or the first error |
| Pack.UnpacksBack | stdlib/pack.go:184-342 | From any position: where a format packed values there, whatever is before and after, it reads them back, and says where they end |
| Pack.PackThenUnpack | stdlib/pack.go:184-342 | Round trip for every format and values it packs: integers, floats by bits, counted, zero-terminated and fixed strings, these filled with zeros |
| OpenUpvalues.Descends | lua/stack.go:223-238 | The list is strictly descending, so no slot has two open upvalues |
| OpenUpvalues.LuaState.FindUpValue | lua/stack.go:223-238 | The slot's upvalue: the one there is, and then nothing changes, or a new one in its place |
| OpenUpvalues.Inserts | lua/stack.go:223-238 | Linking a node in after another keeps the list linked and descending |
| OpenUpvalues.LuaState.Close | lua/stack.go:96-101 | None at or above the level is open, each closed one reads what its slot held, and all others are as before |
| ToBeClosed.Thread.NewTBC | lua/tbc.go:18-31 | false and nil need no closing; a value without __close is an error; any other joins the list |
| ToBeClosed.Thread.HasTBC | lua/tbc.go:35-38 | Whether a variable at or above the level is to be closed |
| ToBeClosed.Thread.CloseTBC | lua/tbc.go:44-67 | Calls each close the last variable with the latest error until one raises; those below the level stay |
| ToBeClosed.Thread.CloseProtected | lua/tbc.go:85-99 | The retry loop ends with just the variables below the level, each call got the latest error, and the last error is returned |
| ToBeClosed.Lightens | lua/tbc.go:85-99 | Closing a variable makes the list lighter whatever its __close leaves above it |
| ToBeClosed.EachOnce | lua/tbc.go:44-99 | Each variable registered is closed once or still there, for any pattern of errors |
| ToBeClosed.InReverse | lua/tbc.go:44-67 | Without errors they close innermost first, each with the error given |
| ForLoop.ForLimit | lua/numbers.go:278-308 | The limit as an integer that the same integers are within; it skips if and only if the start is past the limit, NaN counting as less than any number |
| ForLoop.CountLeft | lua/numbers.go:228-273 | The iterations left, computed in uint64 without overflow for any step, minint included |
| ForLoop.ForPrep | lua/numbers.go:228-273 | A zero step is an error; the loop is skipped if and only if it runs no times, and the count is how many more times it runs |
| ForLoop.ValuesInOrder | lua/vm.go:876-893 | FORLOOP counts through init, init + step and so on, and the control variable never wraps |
| ForLoop.Loop | lua/numbers.go:228-308 | The body runs for exactly the integers of 64 bits within the limit, in order |
| ForLoop.LimitExact | lua/numbers.go:278-308 | Those are the values that comparing with the limit gives if and only if the limit is not NaN or the step is positive |

## Left out

- KernelProof.KernelSameFrames: of side exits in bodies with dead code only what KernelSimulates says is stated.
- KernelProof.KernelSimulates: kernels are modelled on a map from slots to machine numbers; instruction words, frame layout, the budget's polling of interrupts and the arguments that an intrinsic's code leaves to Go are parameters or not modelled.
- KernelPlan.PlanKernel: a loop whose typings all differ from a guess is refused; that another guess would have served is not reported, as in the program.
- KernelTypes.Guess: that the guess is likelier to succeed is a matter of performance.
- IntegerDivision.FlooredMeaning: minint // -1 wraps, as the program's IntFloorDiv does.
- Collector.Marker.Propagate: objects are tables, userdata, threads and functions with the values they keep; what a thread's dead stack slots hold is not modelled.
- Collector.Marker.RemoveWhere: entries are a list of pairs, so a removal leaves no key to bury (burying is in Shapes), and how many were removed is not counted.
- Finalizers.GlobalState.CallFinalizer: an object taken from the queue counts as finalized, whether or not its metatable still has a function in __gc; errors in finalizers are warnings and are not modelled.
- Finalizers.GlobalState.Close: closing the main thread's to-be-closed variables first is modelled in ToBeClosed.
- Shapes.World.NewTableAt: the size of the backing array is not modelled.
- Lookup.TableAt: up to the metamethod it would call, whose result is any value.
- Lookup.SetTableAt: the same for stores.
- PatternMatcher.MatchState.Match: that a pattern of 200 bytes or more is too complex depends on the subject; the error is then a third outcome of its own.
- PatternMeaning.WaysAreMatches: which error comes first is stated by the order of the ways, not by the relation.
- PatternSearch.Find: searching for plain text, and pushing the captures as values, are not modelled.
- PatternSearch.Gsub: a replacement is any function of a match that keeps it or gives its text; addString's escapes in replacement strings and gmatch are not modelled.
- ChunkLoad.Load: of input that is no chunk, whole or cut short, only CheckHeader's errors and that it ends are stated.
- ChunkLoad.LoadState.ReadFunction: expected values are ghost parameters of the readers, never read by them.
- Tables.Table.Put: string keys are in Shapes; iteration over a Go map is in any order.
- Tables.Table.UnboundSearch: an array part has fewer than 2^62 elements, which no Go slice of values exceeds.
- Tables.Table.LinearSearch: positions stop at 2^63; a table with values at all of 1 to 2^63 - 1, more than any memory holds, is not modelled further.
- Traversal.Traverse: it is for tables where no live slot has the hash of an earlier one, by Traversal.MarksApartExact just those in which no clearing can mislead it; adding fields during a traversal is undefined in Lua too.
- Sort.SortAux: elements are compared by any function of two values, without side effects; how the pivot is randomised is any function.
- Specialise.SpecialiseCode: table instructions with constant keys are left plain; their caches are in FieldCache.
- Specialise.StepSimulates: other instructions and arithmetic on other values are parameters, the same in both codes.
- Pack.PackThenUnpack: a float is its bits, and its rounding to 32 bits is given.
- ToBeClosed.Thread.NewTBC: whether the value is false and whether it has a `__close` metamethod are parameters.
- ForLoop.ForLimit: limits that are strings, and the error for one that is no number, are not modelled.
- ForLoop.ForPrep: integer start and step; loops on floats are not modelled.
- One table, three views: Shapes has its string keys, Tables its array and hash parts, Traversal the positions of all; each is complete for what it states, and they are not glued into one class.
- The code generator of the compiler, and the closure cache that equates closed upvalues by value.
- Coroutines, debug hooks, interrupts and allocation accounting: control flow around the models.
- Go heap measurement and the pacing of collections.
- table.move, table.concat, string.format and the rest of the standard library.
- Machine code encoding, executable memory, the write barrier and the amd64 backend.
