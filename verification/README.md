# SystemTap's eBPF back end, modelled and proved in Dafny

SystemTap compiles probe scripts to eBPF with a small optimising compiler: `bpf_unparser` turns the
script into a graph of basic blocks over an unbounded set of registers, `program::generate` lowers,
threads, lays out and register-allocates that graph, and `output_probe` writes the instruction slots.
This project models that compiler together with four self-contained parts around it (the bit sets the
allocator works on, the MD4 code behind the cache keys, the soft-error accounting in the code around every
handler, and the eviction loop of the module cache), and proves that each does what it is for.

## How the model is built

**Programs.** `Ir` holds instructions, values and blocks; `Programs` the class `Program` with its block
vector, back-links and counters. The passes are methods that change a `Program` step by step, in the
order the C++ does. Each is proved equal to a function on blocks, and the properties are proved about
that function, for all programs.

**The machine.** `Machine` gives programs a meaning: registers hold 64-bit words, memory is bytes by
address, a call takes R1..R5, sets R0 and may leave anything in R1..R5, and every call is recorded in a
trace. Arithmetic, helpers and map addresses are parameters (`Sem`), so a theorem about runs speaks of
every such machine; `Script.Standard` fixes the arithmetic to section 4.1 of RFC 9669. A set of protected
addresses (`guard`) makes any access to them a fault; that is how "the program keeps off the spill area"
is said. `SameBehaviour` is the relation all passes are proved against: one program halts exactly when
the other does, with the same R0, the same calls in the same order, and the same memory outside a given
area; and when they run on without end, each makes the calls the other makes, in the same order.
`Simulation` has the two ways to prove it, in lockstep and with stuttering steps.

**The whole.** `Generation.Generate` runs the passes in the order of `program::generate`, and its
postcondition is that the result behaves like the input on every run. Temporaries may be read before they
are set: the theorem says from which start of the input a start of the result comes (`GenStart`), with
every register taken from its home, a hard register or a spill slot. `Flattening` carries that to the
slots run by program counter. `Returning.Compile` closes the chain for scripts of assignments,
conditionals and expressions over local variables: from the syntax tree, through code generation, every
pass and the encoder, to bytecode that returns the value the script has.

**Handlers and probes.** `Handlers` has the blocks `add_prologue` and `add_epilogue` emit,
`HandlerEmitter` emits them, `HandlerRuns` runs them on any machine with the map and perf-event helpers,
and `Errors` says over whole sessions what they come to. `ProbeCompiler.CompileProbe` takes the body of a
probe through `translate_probe`, with prologue and epilogue around it, through `Generate` and
`OutputProbe`; `ProbeBytecode.BytecodeSession` proves the error accounting of any sequence of such
buffers, run by program counter. `HelperMachine` builds machines for which all this is asked.

**Files.** Code generation: `Script`, `Division`, `Codegen`, `CodegenMeaning`, `CodegenForm`, `Statements`,
`StatementForm`, `Unparser`, `Returning`, `WideLiterals`, `IdleOperators`. Strings: `Strings`, `NulTest`, `StringCode`,
`StringEmitter`, `StringMeaning`. Passes: `Zeroing`, `Fixup`, `FixupStandard`, `Jumps`, `Threading`,
`Reorder`, `ReorderMeaning`, `Liveness`, `Coloring`, `Renaming`, `Spilling`, `RegAlloc`, `Allocation`,
`AllocationMeaning`, `Emission`, `Linear`, `Flattening`, `Generation`. Handlers: `Handlers`,
`HandlerRuns`, `HandlerEmitter`, `HandlerSpace`, `Errors`, `Probes`, `ProbeRuns`, `ProbeBytecode`,
`ProbeCompiler`, `HelperMachine`. Beside the compiler: `Arithmetic`, `Bits`,
`Bitset`, `Md4`, `MdfourWords`, `Mdfour`, `Cache`.

Nothing was executed: every statement below is what the verifier proves about the model.

## Where the code and its stated intent differ

The model follows the code. Where an intended property fails, a lemma says exactly when it holds.

- `fixup_operands` turns every instruction with a second operand wider than 32 bits into a word store,
  not only stores, and exchanges an immediate into a register operand. Lowering one instruction keeps its
  meaning on all machines with commutative operators if and only if `Fixup.FixReady` holds
  (`Fixup.FaithfulIff`). On the machine of RFC 9669 there are two more instructions it keeps,
  `R0 = 0 | R0` and `R0 = -1 & R0`, and no others (`FixupStandard.StandardFaithfulIff`). The code of a
  script meets `FixReady` if and only if no literal wider than 32 bits stands where an instruction other
  than a move would carry it (`Returning.ReturnSource`); `r op k` with such a literal returns r and stores
  k where r points (`WideLiterals.WideLiteralLost`), which is the script's value only where
  `IdleOperators.Idle` holds of r and k, operator by operator (`WideLiterals.WideLiteralIff`).
- `/` and `%` are compiled to unsigned instructions, which give a value for a zero divisor too. They give
  the script's signed quotient and remainder exactly for the operands of `Division.DivisionAgreesIff` and
  `Division.RemainderAgreesIff`; the compiled script has the value meant by C wherever its divisions have
  such operands (`Returning.ReturnsMeant`).
- `add_epilogue` stores a key twelve bytes below the frame pointer and asks for eight. It keeps off the
  spill area if and only if `max_tmp_space` is at least 12 (`HandlerSpace.EpilogueKeepsOffIff`); the key
  falls into a spill slot exactly when `max_tmp_space` is 8, and then into the first one
  (`HandlerSpace.KeyMeetsSlotIff`). So the epilogue of a failed probe spares the slots in use if and only
  if there are none or more than 8 bytes were asked for (`ProbeBytecode.EpilogueSparesIff`), and
  `CompileProbe` promises the accounting where nothing was spilled or the body cannot fail.
- `thread_jumps` runs forever on a cycle of two or more forwarders. Its loop ends if and only if the only
  endless chains are blocks that forward to themselves (`Jumps.PropagationEnds`).
- `zero_spilled` is meant to clear every spill slot. It does if and only if nothing was spilled or
  `max_tmp_space` is a multiple of 8, since `spill` records `max_reg_space` before it rounds the slot's
  offset (`Zeroing.ZeroSpilledCovers`).
- `merge_copies` is meant to merge copies first. It never merges anything: the two registers of a copy
  always interfere, because the destination is added to what is live after the source
  (`Coloring.CopiesInterfere`), so for every program the partition it leaves is the one it found
  (`RegAlloc.CopiesIdle`).
- `finalize_allocation` allows ten dereferences and its comment expects at most three; two suffice
  (`Coloring.Allocator.Finalize`).
- Three remarks that follow from one definition each, kept as lemmas so that they are checked:
  `mk_binary` tests a bare operator for commutativity, which never counts as commutative, so it never
  exchanges operands (`Codegen.NeverExchanged`). `fold_jumps` leaves the operands of the comparison on the
  jump it makes, and the encoder writes them into fields the jump does not use
  (`Generation.FoldedFields`). The literal case of unary minus in `visit_unary_expression` is never taken:
  a negated literal becomes a move and a negation (`Codegen.NegatedLiteral`).
- `mdfour_tail` writes only the low word of the bit length. Its padding is that of section 3 of RFC 1320
  if and only if the length in bytes, modulo 2^61, is below 2^29 (`Md4.PaddingIff`).
- `emit_string_copy` copies whole words. Padded or not, what it leaves reads as the string
  (`StringMeaning.GivenReads`); it is byte for byte what `emit_simple_literal_str` would store if and only
  if the source's terminator word is zero after the terminator (`StringMeaning.CallersAgree`).
- With the 65536-byte stack of the user-space target a slot offset can pass the 16-bit field of an
  instruction; `Generate` promises encodable code only while `max_tmp_space` and `max_reg_space` are at
  most 32768.

## Model

| member | source | states |
|---|---|---|
| Programs.Program.NewBlock | bpf-base.cxx:820-826 | a new empty block at the end; incoming-edge sets stay exact |
| Programs.Program.NewEdge | bpf-base.cxx:667-671 | the slot of the source block is set and the back-links of all blocks stay exact |
| Programs.Program.RedirectNext | bpf-base.cxx:682-688 | one edge changes target; the back-links of the old and the new target, and of all others, stay exact |
| Programs.Program.DeleteEdge | bpf-base.cxx:673-680 | the slot is emptied and no back-link to it is left anywhere |
| Liveness.LifeData.Collect | bpf-opt.cxx:495-511 | `used` holds the registers read before they are set, `killed` those set, for every block |
| Liveness.LifeData.Sweep | bpf-opt.cxx:521-548 | one sweep adds only live registers; when it reports no change the sets solve the data-flow inequations, and otherwise it has added something |
| Liveness.LifeData.FindLifetimes | bpf-opt.cxx:489-551 | the loop ends, and r is in live_in[b] if and only if on some path from the start of b r is read before it is set; live_out is the union over the successors |
| Liveness.ClosedIsComplete | bpf-opt.cxx:513-550 | any solution of the inequations contains every register live along any path |
| Coloring.AddCopy | bpf-opt.cxx:436-458 | the table and its index go on holding every counted pair, once, with its count in 16 bits |
| Coloring.FindCgraph | bpf-opt.cxx:553-571 | the pairs of different registers some instruction copies, each recorded once with the number of instructions that copy it, modulo 65536, and no others |
| Coloring.EntriesSorted | bpf-opt.cxx:412-426 | sorting puts the pairs in ascending order of count, then of registers |
| RegAlloc.SortedCgraph | bpf-opt.cxx:460-465 | the copy graph merge_copies goes through: in that order, with every copied pair recorded and no others |
| Coloring.Allocator.FindBlockIgraph | bpf-opt.cxx:593-622 | after one block, the graph and the call-crossing set hold exactly what the instructions so far give |
| Coloring.Allocator.FindIgraph | bpf-opt.cxx:624-636 | two registers are adjacent if and only if they are live together at some instruction or one is set while the other is live; cross_call holds exactly the registers live across a call |
| Coloring.CopiesInterfere | bpf-opt.cxx:606-620 | the two registers of any copy interfere |
| Coloring.CopiesStay | bpf-opt.cxx:664-689 | where all recorded pairs interfere, merging copies leaves partitions, graph and call-crossing marks alone |
| RegAlloc.CopiesIdle | bpf-opt.cxx:553-571 | for every program, the copy graph is one for which merging copies changes nothing |
| Coloring.Allocator.MergeCopies | bpf-opt.cxx:664-689 | the loop joins the classes of each pair in turn where nothing speaks against it |
| Coloring.Allocator.Interferes | bpf-opt.cxx:709-723 | the scan finds no conflict if and only if no member of one class is adjacent to the other class's representative |
| Coloring.ScanSuffices | bpf-opt.cxx:711-723 | a scan without conflict means no member of one class interferes with any member of the other, though it looks only at the merged rows |
| Coloring.JoinKeeps | bpf-opt.cxx:725-730 | joining two classes after such a scan keeps every class free of interference, the rows covering their classes, and the call-crossing mark of every class |
| Coloring.Allocator.Merge | bpf-opt.cxx:691-734 | the loops come to `MergedUpTo`; afterwards no class holds two interfering registers, and of any two classes left a member of one interferes with a member of the other; rows and marks say no more than their members do |
| Coloring.MergeKeeps | bpf-opt.cxx:691-734 | merging keeps classes free of interference, rows and marks exact, and leaves no two classes without a conflict |
| Coloring.FirstFitIs | bpf-opt.cxx:752-784 | first fit gives a class the lowest hard register, from R6 on if it is live across a call, that the scan lets it join, and changes no other class; it gives none exactly when there is none |
| Coloring.Allocator.Color | bpf-opt.cxx:752-784 | the loop does what first fit does to the classes, and reports whether it found a register |
| Coloring.Allocator.Allocate | bpf-opt.cxx:736-791 | the loop is first fit over the order, up to the first register that gets none; it keeps classes free of interference; 0 means every temporary has a hard register below R10, otherwise every hard register the result may have is taken: a member of its class interferes with that register or with a temporary placed there |
| Coloring.FitKeeps | bpf-opt.cxx:736-791 | any number of first fits keeps classes free of interference and the marks exact |
| Coloring.NoFitIsBlocked | bpf-opt.cxx:736-791 | where first fit finds nothing, real interference blocks every hard register the class may have, and any two classes left interfere |
| Coloring.Allocator.Finalize | bpf-opt.cxx:875-895 | the chase reaches the hard register of the class for every register, in two steps |
| Coloring.ColoringIsSafe | bpf-opt.cxx:736-791 | under a finished colouring no instruction writes a hard register that holds a live value, and nothing live across a call is in R0..R5 |
| Renaming.Lockstep | bpf-opt.cxx:875-895 | for every number of steps, the renamed program is at the same block with every live register, memory and the calls so far the same |
| Renaming.RenameBehaviour | bpf-opt.cxx:875-895 | renaming by a safe colouring keeps the behaviour of every run |
| Renaming.DeadDoesNotMatter | bpf-opt.cxx:489-551 | runs from states that agree on the registers live at the entry behave alike |
| RegAlloc.SlotOff | bpf-opt.cxx:821-828 | slot offsets are aligned, lie below the temporary area and waste less than eight bytes |
| RegAlloc.SlotsDisjoint | bpf-opt.cxx:821-828 | the slots of different spills have no byte in common |
| RegAlloc.ChooseSpillReg | bpf-opt.cxx:793-813 | the last unspilled register before the one that failed, or an error exactly when there is none |
| RegAlloc.SortRegs | bpf-opt.cxx:932-934 | the sorted list is a permutation of the registers |
| RegAlloc.SortPreferred | bpf-opt.cxx:647-662 | it is in order of preference: live across calls first, then more uses, counted in 16 bits, then lower number |
| RegAlloc.Analyse | bpf-opt.cxx:908-920 | the live sets, the interference graph and the call-crossing set a round starts from are exact |
| RegAlloc.Spill | bpf-opt.cxx:815-873 | fails exactly when the slot is beyond the stack, leaving the code; otherwise every block is rewritten through fresh temporaries, and max_reg_space is raised to the offset before rounding |
| RegAlloc.ColorRound | bpf-opt.cxx:906-938 | on success the colouring gives every temporary a register below R10 and is safe; otherwise it got stuck at the register returned, with exactly the classes that merge and first fit make of the registers before it in order of preference: shut out of every hard register by real interference |
| Spilling.ReloadRuns | bpf-opt.cxx:845-858 | the load inserted before an instruction brings the spilled value into the new temporary |
| Spilling.SaveRuns | bpf-opt.cxx:860-868 | the store inserted after it puts the new value in the slot and nothing elsewhere |
| Spilling.SpillBehaviour | bpf-opt.cxx:834-870 | spilling one register keeps the behaviour of every run that keeps off the slot, and the new program touches no other protected byte |
| Spilling.SpillWf | bpf-opt.cxx:834-870 | the result is a well-formed program |
| Spilling.SpillClosed | bpf-opt.cxx:834-870 | a solution of the liveness inequations becomes one by dropping the register and adding the frame pointer |
| AllocationMeaning.SpillLinks | bpf-opt.cxx:834-870 | a further spill keeps the link between the original program and the current one, from the start in which the register holds what its slot holds, using up only its own slot |
| AllocationMeaning.RenameLinks | bpf-opt.cxx:875-895 | so does the final renaming, from the start in which every register holds what its hard register holds |
| AllocationMeaning.EntryIs | bpf-opt.cxx:897-960 | the start of the original program has the same hard registers, memory and calls; a spilled temporary has its slot, any other its hard register |
| AllocationMeaning.CleanEntryKept | bpf-opt.cxx:897-960 | when no temporary is live at the entry, both programs start from the same state |
| Allocation.SpillEntryLive | bpf-opt.cxx:834-870 | a spill makes nothing live at the entry but the frame pointer, and the spilled register dead |
| Allocation.SpillRound | bpf-opt.cxx:940-952 | a failed round spills, of the original temporaries not yet spilled, the last before the failed one, into the next slot, and marks it and all new registers; it reports an error only if the slot is beyond the stack or there is none |
| Allocation.RegisterAllocate | bpf-opt.cxx:897-960 | always ends; each spill was needed. On success all registers are hard and, on every machine and from every start, the program behaves, outside the slots in use, as the original one does from the start this one stands for, if that keeps off these slots; max_reg_space is what the spills need. It fails only where, after the spills made, some register is shut out of every hard register and there is nothing left to spill or no room |
| Fixup.FaithfulIff | bpf-opt.cxx:116-194 | lowering one instruction keeps its meaning on every machine with commutative operators, in every state, if and only if a wide operand stands in a word store and an exchanged operand is a register |
| FixupStandard.StandardFaithfulIff | bpf-opt.cxx:116-194 | on any one machine with the arithmetic of RFC 9669 it does so exactly for these, for the disjunction of 0 with R0 into R0, and for the conjunction of -1 with R0 into R0 |
| Fixup.WideUnfaithful | bpf-opt.cxx:130-143 | every other instruction with a wide second operand does something else after lowering, in some state, on every machine without protected bytes |
| Fixup.SwapReads | bpf-opt.cxx:151-156 | an exchanged immediate is not read: the operator takes R0 in its place, in every state |
| Fixup.SwapUnfaithful | bpf-opt.cxx:151-156 | so there is a machine and a state for which the exchange of an immediate shows |
| FixupStandard.SwapExposed | bpf-opt.cxx:151-156 | on the machine of RFC 9669 it shows in some state, but for the two instructions named |
| Fixup.FixupOneRuns | bpf-opt.cxx:116-194 | under the hypothesis, one lowered instruction gives the same result below the new registers |
| Fixup.FixupBehaviour | bpf-opt.cxx:116-194 | lowering a program that meets the hypothesis keeps every run, and touches no further memory |
| Fixup.FixupForm | bpf-opt.cxx:116-194 | the result is well formed |
| Fixup.FixupLowers | bpf-opt.cxx:116-194 | it has dest == src0 in binary operators, register first operands in tests and stores, and wide immediates only in moves |
| Fixup.FixupClosed | bpf-opt.cxx:116-194 | the new registers are never live between blocks |
| Fixup.FixupOperands | bpf-opt.cxx:116-194 | the loop over the linked instructions produces exactly the specified program and register count |
| Jumps.PropagationEnds | bpf-opt.cxx:196-245 | the propagation loop ends if and only if no chain of forwarders is endless but that of a block forwarding to itself |
| Jumps.NeverQuiet | bpf-opt.cxx:196-245 | with any other endless chain, every round changes something again |
| Jumps.Propagate | bpf-opt.cxx:196-245 | when the loop ends, every forwarder knows the end of its own chain |
| Threading.EdgesReachEnds | bpf-opt.cxx:196-245 | every redirected edge leads to a block on the old chain that forwards no further, or to itself |
| Threading.ThreadBehaviour | bpf-opt.cxx:196-245 | threading keeps every run, and the calls of those that never end |
| Threading.ThreadClosed | bpf-opt.cxx:196-245 | a solution of the liveness inequations stays one |
| Threading.ThreadJumps | bpf-opt.cxx:196-245 | the pass redirects every edge to the end of its chain and keeps the back-links exact |
| Threading.FoldBehaviour | bpf-opt.cxx:247-266 | folding changes no step of any run |
| Threading.FoldJumps | bpf-opt.cxx:247-266 | a conditional jump with equal targets becomes a jump, everything else stays, back-links stay exact |
| Reorder.PlacesReachable | bpf-opt.cxx:268-382 | exactly the blocks reachable from the entry are placed, the entry first |
| Reorder.PlacedOnce | bpf-opt.cxx:268-382 | every position holds a different block: a reachable one, or an inserted jump to one that is placed |
| Reorder.ResultLaidOut | bpf-opt.cxx:268-382 | in the new order every fall-through edge leads to the next block |
| Reorder.PlaceKeeps | bpf-opt.cxx:268-382 | placing one block keeps the invariant of the worklist loop |
| ReorderMeaning.ReorderMatches | bpf-opt.cxx:268-382 | one step of the old program is one or two steps of the new one, to the same block and state |
| ReorderMeaning.ReorderBehaviour | bpf-opt.cxx:268-382 | reordering, with inverted tests and jumps added, keeps every run |
| ReorderMeaning.ResultWf | bpf-opt.cxx:268-382 | the result is well formed and still lowered |
| ReorderMeaning.ReorderClosed | bpf-opt.cxx:268-382 | a liveness solution moves along with the blocks, that of the entry unchanged |
| ReorderMeaning.ReorderBlocks | bpf-opt.cxx:268-382 | the loop ends with an empty worklist and the invariant, and the program is the layout renumbered |
| Zeroing.ZeroMemIs | bpf-opt.cxx:1004-1012 | the stores clear exactly the bytes from the first offset to the end of the last word |
| Zeroing.ZeroBehaviour | bpf-opt.cxx:1004-1026 | stores in front of an entry nothing leads back to are the same as starting with those bytes zero |
| Zeroing.ZeroLowered | bpf-opt.cxx:1004-1026 | the stores keep a lowered program lowered while their offsets fit 16 bits |
| Zeroing.ZeroSpilledCovers | bpf-opt.cxx:1014-1026 | all spill slots are cleared if and only if there are none or max_tmp_space is a multiple of 8 |
| Zeroing.ZeroStack | bpf-opt.cxx:1004-1012 | the stores of the temporary area are inserted in order in front of the entry block, which must have an instruction if there are any, as insn_before_inserter asserts |
| Zeroing.ZeroSpilled | bpf-opt.cxx:1014-1026 | so are those of the spill area |
| Emission.CleanBehaviour | bpf-opt.cxx:972-989 | dropping moves of a register to itself keeps every run |
| Emission.CleanKeeps | bpf-opt.cxx:962-998 | layout and the form the encoder needs survive |
| Emission.PostAllocCleanup | bpf-opt.cxx:962-998 | what stays is numbered by slots, a 64-bit load taking two |
| Emission.TargetId | bpf-translate.cxx:5024-5035 | the walk over empty blocks ends, never meets a block without successor, and finds the slot at which the target block starts |
| Emission.PatchBlocks | bpf-translate.cxx:5006-5042 | every jump carries the distance from the next slot to its target, and the slots are counted exactly |
| Emission.OutputProbe | bpf-translate.cxx:5002-5104 | after relocation the buffer is, slot for slot, the flat code of the program |
| Linear.OffsetFits | bpf-translate.cxx:5035-5035 | in a program of at most 32768 slots every jump offset fits its 16-bit field |
| Linear.EncodePlain | bpf-translate.cxx:5084-5100 | an instruction whose fields fit is encoded without loss |
| Linear.FlatWide | bpf-translate.cxx:5074-5083 | the two halves of a 64-bit load give back the immediate, whatever its sign |
| Flattening.FlatRuns | bpf-translate.cxx:5049-5102 | the slots of a block, run by program counter from any instruction, end where the block does |
| Flattening.FlatBehaviour | bpf-translate.cxx:5002-5104 | the flat code behaves like the graph of blocks, on every machine |
| Generation.Optimise | bpf-opt.cxx:1038-1041 | lowering, threading, folding and layout in sequence keep every run and leave a laid-out, lowered program |
| Generation.Generate | bpf-opt.cxx:1028-1049 | on success, on every machine with commutative operators and helpers that leave untouched bytes alone, the result behaves, outside the slots in use, as the input does from the start its own start stands for, if that keeps off these slots; it is numbered and laid out, and encodable if both areas are within 32768 bytes; every spill was needed, and it fails only when register allocation does, for the reason stated there |
| Generation.GenStartIs | bpf-opt.cxx:1004-1026 | that start has the stack and the spill slots cleared, the same hard registers and calls, and every other register from its slot or hard register |
| Generation.SpilledStartAtZero | bpf-opt.cxx:1014-1026 | when max_tmp_space is a multiple of 8 every spilled temporary starts at zero |
| Generation.CleanGenerated | bpf-opt.cxx:1028-1049 | when no temporary is live at the entry the two starts differ only in the cleared stack |
| Generation.FoldedFields | bpf-opt.cxx:247-266 | remark, one definition unfolded: a folded jump is encoded with the registers and the immediate of the comparison; they are zero exactly for a comparison of R0 with itself or with 0 |
| Generation.FlatGenerated | bpf-opt.cxx:1028-1049 | the same for the slots run by program counter |
| Script.OperatorsAgree | bpf-translate.cxx:2679-2717 | the opcode chosen for each operator computes, on wrapped words, what the script model gives the operator on 64-bit signed integers: the usual ones, shifts included, and for / and % what section 4.1 of RFC 9669 says |
| Division.DivisionAgreesIff | bpf-translate.cxx:2701-2702 | BPF_DIV on the machine gives the signed quotient rounded toward zero exactly when the divisor is not zero and both operands are positive or the dividend zero, or the divisor is 1, or the dividend is smaller than a negative divisor's absolute value, or they are equal; for a zero divisor, where C has none, it gives 0 |
| Division.RemainderAgreesIff | bpf-translate.cxx:2703-2704 | the same for BPF_MOD and the remainder; for a zero divisor it gives the dividend |
| Division.QuotientSplits | bpf-translate.cxx:2701-2704 | quotient and remainder as the model has them are the one solution of the law that defines them in C |
| Division.ValueIs | bpf-translate.cxx:2679-2717 | an expression whose divisions all agree has the value C gives it |
| Division.AfterIs | bpf-translate.cxx:2894-2928 | so does a statement leave the variables as C would |
| Script.ComplementAgrees | bpf-translate.cxx:2736-2743 | exclusive or with -1 is the complement |
| CodegenMeaning.MirrorHolds | bpf-base.cxx:989-1007 | exchanging the operands and mirroring the condition keeps its truth, for all eleven conditions |
| CodegenMeaning.JumpTests | bpf-base.cxx:1009-1049 | the jump chosen, with its inversion, tests the condition |
| CodegenMeaning.JcondRuns | bpf-base.cxx:982-1059 | the block goes to t exactly when the condition holds of the operands, and to f otherwise |
| CodegenMeaning.ComparisonsAgree | bpf-translate.cxx:457-476 | each comparison on words agrees with the comparison of signed integers |
| CodegenMeaning.ExprRuns | bpf-translate.cxx:401-408 | the code emitted for any expression runs to its end with the script's value in the result, leaving memory, calls and all older registers alone |
| CodegenMeaning.CondRuns | bpf-translate.cxx:427-497 | the code emitted for any condition reaches the true block exactly when the expression is nonzero, the false block otherwise |
| CodegenMeaning.BoolRuns | bpf-translate.cxx:499-515 | emit_bool leaves 1 or 0, the truth value |
| CodegenMeaning.BinRuns | bpf-translate.cxx:2708-2716 | the left value survives the evaluation of the right operand |
| CodegenMeaning.TernaryRuns | bpf-translate.cxx:2847-2863 | the first value is kept or replaced by the second as the condition says |
| Codegen.ExprContinues | bpf-translate.cxx:401-408 | generation goes on in an open block and changes no other block that was there |
| Codegen.CondEnds | bpf-translate.cxx:427-497 | emit_cond only appends to the current block and to new ones |
| CodegenForm.ExprFits | bpf-translate.cxx:401-408 | every block begun is finished, never leads to the entry, is part of no cycle of empty blocks, and reads only registers the expression reads or that were set on every path |
| CodegenForm.CondFits | bpf-translate.cxx:427-497 | the same for conditions, given what is set where the two destinations begin |
| CodegenForm.ExprReady | bpf-translate.cxx:401-408 | emitting an expression keeps the program fit for lowering if and only if no wide literal stands where an instruction other than a move carries it |
| CodegenForm.CondReady | bpf-translate.cxx:427-497 | the same for conditions, where mk_jcond chooses which operand is carried |
| Statements.StmtRuns | bpf-translate.cxx:2063-2112 | the code emitted for any statement runs to its end with the local variables as the statement leaves them, memory, calls and all other older registers alone |
| Statements.IfRuns | bpf-translate.cxx:2082-2112 | a conditional statement performs the branch its condition chooses and goes on at the join block |
| Statements.StmtContinues | bpf-translate.cxx:394-399 | generation goes on in an open block and changes no other block that was there |
| StatementForm.StmtFits | bpf-translate.cxx:2063-2112 | the same form as for expressions, and afterwards all variables the statement sets on every path are set |
| StatementForm.StmtReady | bpf-translate.cxx:2894-2928 | emitting a statement keeps the program fit for lowering if and only if the statement is slim |
| StatementForm.PerformAgrees | bpf-translate.cxx:342-357 | a statement that sets its variables before it reads them does the same from any starting values |
| StatementForm.DescendsEnds | bpf-opt.cxx:196-245 | in the form statements leave, every chain of empty blocks ends |
| Codegen.CondLeaves | bpf-translate.cxx:427-497 | emit_cond leaves no empty block behind |
| Codegen.NeverExchanged | bpf-base.cxx:895-916 | remark, one definition unfolded: mk_binary never exchanges its operands, though with the class bits is_commutative would be right about the operator |
| Codegen.NegatedLiteral | bpf-translate.cxx:2722-2735 | remark, one definition unfolded: a negated literal is a move and a negation |
| Unparser.Unparser.EmitExpr | bpf-translate.cxx:401-408 | the recursive visitor builds exactly the specified program, and the back-links stay exact |
| Unparser.Unparser.EmitCond | bpf-translate.cxx:427-497 | so does emit_cond |
| Unparser.Unparser.EmitBool | bpf-translate.cxx:499-515 | so does emit_bool |
| Unparser.Unparser.VisitBinary | bpf-translate.cxx:2679-2717 | so does the visitor of binary operators |
| Unparser.Unparser.VisitUnary | bpf-translate.cxx:2719-2750 | so does the visitor of - and ~ |
| Unparser.Unparser.VisitTernary | bpf-translate.cxx:2847-2863 | so does the visitor of conditional expressions |
| Unparser.Unparser.EmitStmt | bpf-translate.cxx:394-399 | so does emit_stmt |
| Unparser.Unparser.VisitIf | bpf-translate.cxx:2082-2112 | so does the visitor of if statements, with and without else |
| Unparser.Unparser.VisitAssignment | bpf-translate.cxx:2894-2932 | so does the visitor of assignments, for local variables |
| Unparser.Unparser.JumpIf | bpf-base.cxx:982-1059 | mk_jcond ends the block with the test and both edges |
| Unparser.Unparser.EmitBinary | bpf-base.cxx:895-930 | mk_binary appends the instruction, or the negation for 0 - x |
| Returning.ReturnHalts | bpf-translate.cxx:401-408 | the program that performs a statement, moves an expression to R0 and exits halts with the value the script has, from every state |
| Returning.ReturnSource | bpf-opt.cxx:1028-1049 | that program meets everything generate relies on if and only if the script is slim, whether or not it sets its variables first |
| Returning.ReturnLives | bpf-translate.cxx:342-357 | what is live at its entry is what the script reads before it sets it |
| Returning.BytecodeReturns | bpf-translate.cxx:5002-5104 | whatever generate made of it, the slots run by program counter return the script's value on every standard machine from every state, where a spilled variable starts at zero and any other with its hard register |
| Returning.ReturnsAlike | bpf-translate.cxx:342-357 | when the script sets its variables first, that value does not depend on where they live |
| Returning.Compile | bpf-translate.cxx:4914-4936 | from any slim script over local variables: when generate succeeds, what output_probe leaves in the buffer is, after relocation, code that returns the script's value, encodable on any stack of at most 32768 bytes; every spill was needed, and it fails only when register allocation does |
| Returning.ReturnsMeant | bpf-translate.cxx:2679-2717 | that value is the one C gives the script, wherever its divisions agree |
| WideLiterals.WideLiteralLost | bpf-opt.cxx:130-143 | r op k with a literal wider than 32 bits: the lowered program returns r and stores k where r points, for every operator, machine and state |
| WideLiterals.WideLiteralIff | bpf-opt.cxx:130-143 | so the run returns the script's value if and only if the operator, with this literal, leaves its left operand alone: never for + - ^, for * where r * (k - 1) is a multiple of 2^64, for & where k has all bits of r, for | where r has all bits of k, for shifts by a multiple of 64 or of a value the shift keeps, for / where r is 0, and for % where r, taken unsigned, is below k |
| IdleOperators.IdleIff | bpf-opt.cxx:130-143 | the condition, operator by operator, is exact for every word and every literal wider than 32 bits |
| Strings.CopiedIff | bpf-translate.cxx:3507-3516 | a word-wise copy is the image of the string if and only if the terminator's word is zero-filled |
| Strings.ImageText | bpf-translate.cxx:3442-3447 | the image of a NUL-free string reads back as the string and is its own copy |
| NulTest.NzIs | bpf-translate.cxx:3596-3605 | the or of a byte with its negation is zero for a zero byte and has its top bit set for any other |
| NulTest.TestRuns | bpf-translate.cxx:3606-3631 | the emitted sequence leaves zero if and only if one of the four bytes of the word is zero, changing only its scratch registers |
| StringCode.LiteralRuns | bpf-translate.cxx:3456-3495 | the emitted stores leave as many words of the string, its terminator and zeros as were emitted, and change no other byte |
| StringCode.BlocksCopy | bpf-translate.cxx:3559-3650 | each emitted block copies or clears its word, or stores the empty string, and branches on a zero byte |
| StringCode.CopyLeaves | bpf-translate.cxx:3557-3652 | from the first copying block the code reaches the return block with the words up to the terminator's copied, then zeros or what was there before, and nothing else in memory changed |
| StringCode.NullLeaves | bpf-translate.cxx:3538-3545 | a null source leaves what the empty string leaves |
| StringCode.PathsAgree | bpf-translate.cxx:3519-3526 | for a zero-filled source the copy at run time and the stores of the literal leave the same memory, padded or not |
| StringCode.LeftIff | bpf-translate.cxx:3507-3516 | padded or not, the bytes left are those of the literal if and only if the terminator's word is zero-filled in the source |
| StringMeaning.GivenReads | bpf-translate.cxx:3507-3516 | padded or not, and whatever was there, the destination reads as the string, or as the empty one for a null source |
| StringEmitter.EmitSimpleLiteral | bpf-translate.cxx:3448-3505 | the loops emit exactly the stores above, padded or not, then the address |
| StringEmitter.EmitNulTest | bpf-translate.cxx:3606-3631 | the loop emits exactly the sequence above |
| StringEmitter.EmitStringCopy | bpf-translate.cxx:3516-3661 | with and without zero padding, the blocks made and linked are those of the copy above, and generation goes on in the return block |
| StringMeaning.EmittedCall | bpf-translate.cxx:3516-3661 | what it leaves is a program in which the caller's block ends in the null test and the return block puts the address into the result |
| StringMeaning.CallDelivers | bpf-translate.cxx:3516-3661 | from the caller's block, through the null test, to the return block: the result holds the address, the destination the string or, for a null source, the empty one, and nothing else has changed |
| StringMeaning.CallersAgree | bpf-translate.cxx:3519-3526 | from the caller's block on, copying a string and storing it as a literal leave the same address; they leave the same memory if and only if the terminator's word is zero-filled in the source |
| Bits.BitwiseBit | bpf-bitset.h:48-52 | each bit of a word operation is the operation on the bits |
| Bits.CtzIs | bpf-bitset.cxx:56-63 | the count of trailing zeros is the lowest bit set |
| Bitset.ZipSets | bpf-bitset.h:177-202 | word by word, or, and, and-not are union, intersection and difference |
| Bitset.SetBit | bpf-bitset.h:48-51 | setting or resetting a bit adds or removes that number alone |
| Bitset.SetRef.Test | bpf-bitset.h:127-134 | membership, or an error exactly for numbers beyond the words |
| Bitset.SetRef.Set | bpf-bitset.h:206-208 | adds or removes one number, or fails beyond the words, and changes nothing outside the view |
| Bitset.SetRef.Union | bpf-bitset.h:177-184 | union, or failure with nothing changed when the sizes differ; nothing outside the view changes |
| Bitset.SetRef.Intersect | bpf-bitset.h:186-193 | intersection, in the same way |
| Bitset.SetRef.Subtract | bpf-bitset.h:195-202 | difference, in the same way |
| Bitset.SetRef.FindFirst | bpf-bitset.cxx:56-63 | the least member, or none |
| Bitset.SetRef.FindNext | bpf-bitset.cxx:65-79 | the least member above the given number, or none |
| Bitset.SetRef.FindNextZero | bpf-bitset.cxx:81-95 | the least number above the given one, within the words, that is no member |
| Bitset.SetRef.IsSubsetOf | bpf-bitset.cxx:41-54 | the subset relation, for sets of any two sizes |
| Bitset.VisitPairs | bpf-opt.cxx:613-620 | the nested iteration visits every unordered pair of members exactly once |
| Bitset.Table.constructor | bpf-bitset.cxx:114-118 | every row is empty |
| Bitset.Table.Row | bpf-bitset.h:246-251 | a view of that row and of nothing else, or an error |
| Bitset.Table.Set | bpf-bitset.h:246-251 | a bit set through a row view changes that row and no other |
| Md4.PaddingIff | mdfour.c:117-146 | the padding written is the standard's if and only if the length in bytes, modulo 2^61, is below 2^29 |
| Md4.PaddedBlocks | mdfour.c:117-146 | both paddings come to whole blocks and to the same number of them |
| MdfourWords.LshiftRotates | mdfour.c:33-33 | the shift-or of lshift is rotation to the left |
| MdfourWords.CodeOpsAlike | mdfour.c:28-37 | with shifts and masks as the macros have them, the three rounds and the additions are those of RFC 1320 |
| MdfourWords.FoldsAlike | mdfour.c:39-84 | so both make the same of every message |
| MdfourWords.JoinedIsLittle | mdfour.c:91-93 | shifting bytes into place and joining them is the little-endian word |
| MdfourWords.BytesAreCopied | mdfour.c:96-103 | shifting and masking gives its bytes back |
| Mdfour.FourTurns | mdfour.c:49-75 | four operations with the names turned are four steps of the standard, which turns the registers |
| Mdfour.Mdfour64 | mdfour.c:39-84 | the unrolled rounds are the compression function of section 3.4 of RFC 1320 |
| Mdfour.Copy64 | mdfour.c:86-94 | the loop of shifts and ors gives the words of a block, lowest byte first |
| Mdfour.Copy4 | mdfour.c:96-103 | the bytes of a word, lowest first |
| Mdfour.FillBuffer | mdfour.c:120-145 | the buffer holds the last one or two padded blocks |
| Mdfour.Hasher.constructor | mdfour.c:105-114 | a hasher that has seen nothing |
| Mdfour.Hasher.Copy | hash.cxx:47-47 | a copy has seen what the original has, in memory of its own |
| Mdfour.Hasher.Update | mdfour.c:148-190 | having seen m, it has then seen m followed by the input, wherever the block boundaries fall |
| Mdfour.Hasher.Tail | mdfour.c:117-146 | the state is the fold over all blocks of the padded message |
| Mdfour.Hasher.Result | hash.cxx:101-116 | the digest of RFC 1320 of everything added, for messages whose padding is standard, and the length modulo 2^32 |
| Mdfour.PrintKey | hash.cxx:109-115 | the loop prints two hexadecimal digits for each byte, an underscore and the length |
| Mdfour.KeyInjective | hash.cxx:109-115 | two keys are equal only for equal digests and lengths |
| Mdfour.ForkedDigest | hash.cxx:47-47 | hashing on from a copy gives the digest of the whole and leaves the original as it was |
| Mdfour.ChunkedDigest | hash.cxx:70-83 | any division of a message into updates gives the same digest |
| HandlerEmitter.AddPrologue | bpf-translate.cxx:4747-4830 | the emitted blocks are the handler's, generation stands at the body, and eight bytes of the frame were asked for |
| HandlerEmitter.AddEpilogue | bpf-translate.cxx:4832-4912 | so are the blocks of the epilogue, up to the exit |
| HandlerRuns.PrologueRuns | bpf-translate.cxx:4747-4830 | run on a machine with the map helpers, the prologue reaches the body exactly when both entries exist, the exit flag is not 1 and the count is at most the limit, and otherwise the epilogue with a clear error status; the maps and the messages are as they were |
| HandlerRuns.EpilogueRuns | bpf-translate.cxx:4832-4912 | the epilogue halts; with a set error status the message is sent, the count stored is one more, and a hard error is sent when it passes the limit; otherwise nothing changes |
| HandlerRuns.BlocksPrologue | bpf-translate.cxx:4747-4830 | the blocks of the prologue act so on every machine with the helpers |
| HandlerRuns.BlocksEpilogue | bpf-translate.cxx:4832-4912 | so do those of the epilogue, where twelve bytes of the frame are free |
| HandlerRuns.WholeHandler | bpf-translate.cxx:4914-4936 | prologue, body and epilogue together halt with the maps and messages of one handler of the session, for the outcome the body has in the state the prologue reaches |
| HandlerRuns.ServesHandles | bpf-translate.cxx:4914-4936 | code whose body ends from every state the prologue reaches is a handler, from every start |
| HandlerRuns.SerialHandlers | bpf-translate.cxx:4914-4936 | any sequence of handlers leaves maps and messages as the session's rules say, for some outcome of each body among those it may have |
| HandlerRuns.Session | bpf-translate.cxx:4747-4936 | from fresh entries, exactly a first part of the bodies run, the count in the map is the number of those that failed, and the hard error is sent once, exactly when the limit is passed |
| HandlerSpace.EpilogueKeepsOffIff | bpf-translate.cxx:4879-4898 | with the spill area protected, the epilogue of a failed handler runs without a fault if and only if max_tmp_space is at least 12 |
| HandlerSpace.EpilogueSafeIff | bpf-translate.cxx:4879-4898 | with any bytes protected beyond the eight asked for, it does so if and only if the four bytes of its key are not among them |
| HandlerSpace.KeyMeetsSlotIff | bpf-translate.cxx:4889-4892 | the key falls into a spill slot exactly when that is the first and max_tmp_space is 8 |
| ProbeBytecode.FrameSpared | bpf-opt.cxx:821-828 | the slots in use leave the eight bytes asked for alone, and the four below them if and only if there are no slots or more than 8 bytes were asked for |
| ProbeBytecode.EpilogueSparesIff | bpf-translate.cxx:4879-4898 | so with the slots in use protected the epilogue of a failed handler runs without a fault under exactly that condition |
| Probes.ProbeHandler | bpf-translate.cxx:4914-4936 | the code translate_probe makes has the blocks of a handler |
| Probes.ProbeSource | bpf-translate.cxx:4914-4936 | it meets everything generate relies on if and only if the statement is slim |
| ProbeRuns.StatementRuns | bpf-translate.cxx:4931-4935 | from the body's block it performs the statement and reaches the epilogue with the status the statement leaves |
| ProbeRuns.OutcomeFixed | bpf-translate.cxx:342-357 | a statement that sets its variables before it reads them has one outcome, whatever the registers held |
| ProbeRuns.ProbeServes | bpf-translate.cxx:4914-4936 | so the code is a handler with the outcomes of its statement, where twelve bytes of the frame are free, or four if the statement leaves the status alone |
| ProbeBytecode.ProbeHandles | bpf-translate.cxx:5002-5104 | whatever generate made of it, the slots run by program counter are a handler with these outcomes, on every machine with the helpers, under the condition on slots above or where the statement leaves the status alone |
| ProbeBytecode.BytecodeSession | bpf-translate.cxx:4747-4936 | any sequence of such buffers, from fresh entries: exactly a first part of the bodies run, each with an outcome of its statement, the count in the map is the number that failed, and the hard error is sent once, exactly when the limit is passed |
| ProbeCompiler.TranslateProbe | bpf-translate.cxx:4914-4936 | the emitters build exactly that program, from the locals, the limit of the constraint and the body |
| ProbeCompiler.CompileProbe | bpf-translate.cxx:4914-4936 | from the body of a probe to its buffer: under the condition above the buffer holds, after relocation, a handler with the outcomes of the body; every spill was needed, and it fails only when register allocation does |
| HelperMachine.MachineHelps | bpf-translate.cxx:4747-4912 | for any layout of the maps there is a machine with the map and perf-event helpers that leaves untouched bytes alone |
| HelperMachine.MachineRuns | bpf-translate.cxx:4747-4912 | and, where maps and messages are off the stack, it is one of those the probe theorems speak of |
| Errors.HandleKeeps | bpf-translate.cxx:4747-4912 | one handler keeps the count equal to the failed bodies run, within limit + 1, and the messages in step with it |
| Errors.SerialRun | bpf-translate.cxx:4747-4912 | of any sequence of handlers exactly a first part runs, ending where the limit is passed or exit was requested; the count is the number that failed, never above limit + 1, with one hard error if and only if it got there |
| Errors.MissingEntries | bpf-translate.cxx:4787-4818 | without the internal entries no body ever runs |
| Cache.LessTotal | cache.cxx:414-429 | the comparison is total and irreflexive |
| Cache.LessTrans | cache.cxx:414-429 | and transitive |
| Cache.Insert | cache.cxx:355-356 | an entry takes its place in the order unless it is there; the total grows by its size exactly when it is added |
| Cache.GroupFiles | cache.cxx:330-343 | every file is in the group of its key and in no other, in order |
| Cache.BuildContents | cache.cxx:348-357 | the entries are exactly the groups, and the running sum is the size of all files |
| Cache.SizesAgree | cache.cxx:348-357 | the sizes of the groups add up to the size of the files |
| Cache.CacheDir.Unlink | cache.cxx:432-437 | the named files are gone and no others |
| Cache.CacheDir.Evict | cache.cxx:359-375 | the shortest oldest-first run of entries that brings the cache below the limit goes, or all; the running size is always that of the files left |
| Cache.CacheDir.Clean | cache.cxx:330-375 | from the list of files to the cache left: whole groups, oldest first, as few as needed, every other file untouched |

## Left out

- `lower_str_values` and `alloc_literal_str`: string values in the intermediate form are not modelled; `Generate` starts after them.
- Generation.Generate: requires well-formed blocks, an entry that has an instruction and that nothing leads back to, operands that lowering can treat and no endless chain of forwarders; for scripts and probes of assignments, conditionals and expressions these are proved.
- Loops, functions, globals, arrays, aggregates, foreach, printf, context variables, try blocks, string operators and embedded assembly: not generated by the model; assignments are statements, so an expression has no side effects.
- Script.OperatorsAgree: the script model takes `/`, `%` and shift counts beyond 63 as the machine does; for `/` and `%` `Division` says when that is what C means.
- CodegenMeaning.TernaryRuns: models the branch of `visit_ternary_expression` for a first value without side effects, the only one expressions of the model can take.
- Returning.Compile: the program around the script is a move to R0 and an exit; `ProbeCompiler.CompileProbe` has the prologue and the epilogue. Both take a stack of less than 2^32 bytes, and the number of slots must be at most 32768 for the claim about runs.
- ProbeCompiler.CompileProbe: a probe's body is a statement over local variables that may set the error status; the message of `error`, its jump out of the body and `exit` are not generated, nor are the bodies of several probes joined into one program.
- Fixup.FixupOperands: the doubly linked instruction list of a block is a sequence that is rebuilt where the code relinks nodes, here and in RegAlloc.Spill and Emission.PostAllocCleanup; aliasing of list nodes is not captured.
- Liveness.LifeData.FindLifetimes: the passes work on plain sets of registers; that the word-packed sets agree with plain sets is proved once, in Bitset.
- ReorderMeaning.ReorderBlocks: the incoming-edge sets are not maintained through the layout, and the number of a register is unbounded rather than 16 bits wide.
- Zeroing.ZeroSpilledCovers: for stacks below 4 gigabytes, where offsets from the frame pointer do not wrap.
- Linear.FlatWide: the number of arguments of a call is not encoded in a slot, so the flat machine takes it from a table by slot.
- StringEmitter.EmitStringCopy: models the branch for a source that is not a literal, the other being `EmitSimpleLiteral`; source and destination must not overlap, as the code's own comment says; offsets are below 4096.
- Bitset.SetRef.Union: the two views must be the same or not overlap; partly overlapping views, which the compiler never makes, are left out, here and in `Intersect` and `Subtract`.
- HandlerRuns.SerialHandlers: handlers run one after the other; interleavings of handlers on several processors are not modelled. The ring buffer has a cell for every message, and keys are not added to the internal map or removed.
- Cache.CacheDir.Clean: file names, sizes, times and the key of a name are parameters; the interval check and the files with the limits are left out, and groups are taken in order of first appearance, which the ordered set makes irrelevant.
- Mdfour.Hasher.Result: the parameter log is left out.
- ELF output, the run-time loader and the interpreter of `stapbpf`, the other back ends, the parser and the elaboration passes: left out.
