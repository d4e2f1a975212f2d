# Verified models of the TinyCC back ends

This project models the algorithms of the TinyCC code generators, linkers and inline assemblers that have an exact
specification, and proves them against it: lists of pending jumps threaded through the emitted code, the synthesis of
constants and addresses, calling conventions, the operand allocator and the operand encoder of inline assembly,
procedure linkage tables, branch relocations and the sizing of stack frames. The targets are A64, A32 and Thumb, i386
and C67.

Code that the compiler builds up is a sequence of bytes or of instruction words behind the class `Text`, whose `data`
grows by `Emit` and is patched in place. A method follows the control flow of the C function it is named after; shifts
and masks appear as divisions and remainders by powers of two. What an instruction does is defined by its fields, and
only for the instructions that the code emits. A call of `tcc_error` is a failing result, and contracts say exactly when
it happens.

## How the files fit together

- `Text`, `CodeBytes`, `Patch`: the section under construction, little-endian words in it, writes in place and what they
  leave alone. `Bits`, `Division`, `Rounding`, `Base`: arithmetic and small shared types.
- `JumpChains`, `JumpMeaning`, `JumpEmitters`, `JumpRuns`: links and targets of four back ends, what the processors make
  of a jump, the emitting and patching routines, and a machine of plain lists that any interleaving of those routines
  refines.
- `Bimm64`, `A64Const`: bitmask immediates and constant loading on A64.
- `A32`, `A32Const`, `AsmSwap`: immediate operands of A32, constants in one to four instructions, address splitting, and
  the assembler's opcode swapping.
- `Aapcs`, `Vfp`: core-register and VFP-register argument passing on ARM, and `ArmFrame`: the instructions that build a
  frame around it. `Hfa`, `Pcs64`, `Prolog64`: the same questions on A64, and `VaList64`: variable arguments there.
- `AsmConstraints`, `AsmOptimal`, `ModRM`: operand allocation for inline assembly on i386 and ARM, whether it could have
  done better, and operand encoding on i386.
- `PltArm`, `PltArm64`, `PltI386`: procedure linkage tables. `RelocArm`, `RelocArm64`: branch and page relocations.
- `Epilog64`: the stack adjustment of an A64 function.

## What turned out differently from the promise

The code is modelled as it is. Where a natural property fails, a lemma names the case and the property is proved exactly
outside it.

- Caller and callee of the soft-float convention disagree when a type aligned to more than 16 bytes comes while r1, r2
  or r3 is the next register (`Aapcs.CallerCalleeAgree`, `Aapcs.WideAlignmentDisagrees`).
- `assign_vfpreg` can record a fourth hole; the source declares room for three (`Vfp.FourHoles`, and exactly when in
  `Vfp.HolesExact`). The model gives it four.
- `arm64_hfa_aux` has a branch for arrays, but every array has the basic type VT_PTR, so a structure with an array of
  floats is never homogeneous (`Hfa.ArrayMemberMissed`).
- The "+" or "&" of a register variable is not looked at, and the role it asks for may then go to another operand
  (exactly when in `AsmConstraints.AllApartExact`; `AsmConstraints.ReadWriteRegvarShared`). A tied input that refers to
  another tied input gets no register (`AsmConstraints.TiedToTied`).
- A tied input shares its register with the operand it names even if that is read from it too: another input, an output
  with a "+", or one whose address was put there (exactly when in `AsmConstraints.TiedApart` and
  `AsmConstraints.ReadsApartExact`; `AsmConstraints.InputTiedToInput`, `AsmConstraints.InputTiedToReadWrite`,
  `AsmConstraints.InputTiedToAddress`).
- On A64 a value of several registers that the caller stacks, with registers left, makes `va_start` or `va_arg` look for
  a later variable argument in one of those (`VaList64.VaArgExact`, `VaList64.PassedOverMissed`).
- The i386 assembler accepts esp as an index, which encodes no index at all (`ModRM.AddressExact`).
- A BLX to a Thumb function at an address that is 2 modulo 4 misses it by two bytes, since the H bit is set one place
  too high (`RelocArm.ArmExact`, `RelocArm.ThumbFunctionMissed`), and a distant ARM target of a Thumb call passes
  without an error (`RelocArm.ThumbCallsArm`, `RelocArm.DistantArmTarget`). A Thumb jump to ARM code misses the stub made for it
  unless its section lies at address 0, since the stub's offset is taken for its address (`RelocArm.StubReached`).
- In a linkage table for ARM, an entry behind a Thumb stub jumps through the second word of the GOT and not through its
  own: its offset is read from the wrong word (`PltArm.StubExact`).
- The first entry of an A64 table takes its page from the word before the ADRP; only alignment makes the two agree
  (`PltArm64.RelocatePlt`).
- An AND, BIC, MOV or MVN that sets the flags and is swapped can leave a carry that its own constant would not (exactly
  when in `AsmSwap.DataProcessingImmediate`).
- `mapcc` of ARM has no condition for the parity and overflow tokens that i386 knows, and `gjmp_cond` stops on them
  (`JumpRuns.FailsExactly`).
- On arm, `encbranch` accepts displacements twice as far as its field holds (`JumpChains.BranchRoundTrip`,
  `JumpRuns.ArmEndMark`).
- Local variables of more than 0x7ffffff0 bytes on A64: the sum that rounds their size up is no `int` any more. Wrapped
  around, it makes `gfunc_epilog` lower sp by 2^64, so by nothing (`Epilog64.PatchProlog`, `Epilog64.HugeFrame`). For
  some of the 64-bit sizes that this sum never takes the shift reaches five, which is not an instruction
  (`Epilog64.FrameWords`).

## Model

| member | source | states |
|---|---|---|
| JumpChains.BranchRoundTrip | arm-gen.c:381-401 | decoding an encoded branch gives the address back exactly for word-aligned addresses within 2^23 words |
| JumpChains.SetLinkReads | arm-gen.c:1590-1605 | a link redirected in place reads back as the new link and touches no byte outside its slot, in all three link encodings |
| JumpChains.SetTargetBranches | arm64-gen.c:245-258 | a patched slot branches to the label, by the architecture's decoding of it, exactly when the label is in reach |
| JumpChains.EmittedLink | i386-gen.c:157-166 | a freshly emitted jump holds its link at the position returned |
| JumpChains.ChainUnique | arm-gen.c:404-418 | the list that a head stands for is determined by the code |
| JumpChains.ChainFrame | arm64-gen.c:1536-1548 | a list survives every change outside its slots |
| JumpChains.AppendIsConcat | i386-gen.c:677-689 | redirecting the last link of one list to the head of a disjoint one concatenates the two, under every link encoding |
| JumpChains.PatchAllOutside | arm64-gen.c:245-258 | patching a list changes no byte outside its slots |
| JumpChains.PatchedChain | arm-gen.c:404-418 | after patching a list every one of its jumps goes to the label |
| JumpMeaning.TestMeets | i386-gen.c:691-696 | the condition of a Jcc, by the flags that CMP sets, is the C comparison of the same token, signed or unsigned, for all words |
| JumpMeaning.PassesMeets | arm-gen.c:474-505 | so is the ARM condition that mapcc chooses, by the flags of an ARM CMP |
| JumpMeaning.EmittedJump | arm-gen.c:1562-1588 | in all four back ends what is emitted decodes as a jump that is taken exactly under the condition asked for |
| JumpMeaning.JumpFrame | arm-gen.c:1590-1605 | a change of the link leaves the jump and its condition as they are |
| JumpMeaning.JumpsRewritten | i386-gen.c:677-689 | after links or targets have been rewritten every jump of the section is taken as before, but for those that ARM replaces by a nop |
| JumpMeaning.KeptGoes | arm-gen.c:404-418 | a patched jump, executed, goes to its label if the condition is met and to the next instruction if not |
| JumpMeaning.LinkedJumpGoes | c67-link.c:100-115 | on c67 it goes to the address that the linker puts into the moves |
| JumpEmitters.GjmpArm64 | arm64-gen.c:1520-1527 | emits the link word and returns its position |
| JumpEmitters.GjmpI386 | i386-gen.c:648-696 | emits opcode and link, and returns the position of the link; for the unconditional jump and each of the sixteen conditions the processor, by its own table of opcodes and flags, takes the jump after comparing two words exactly when they meet the condition |
| JumpEmitters.GjmpArm | arm-gen.c:1562-1588 | emits a branch to the old head, which by its condition field and the flags of a comparison is taken exactly when the words compared meet the condition; fails exactly when the head is out of reach or mapcc has no such condition |
| JumpEmitters.GjmpC67 | c67-gen.c:2050-2061 | emits a link split over the two moves of a register, the branch to that register and its delay slots, by the fields of the four words |
| JumpEmitters.GjmpAppendRaw | arm64-gen.c:1536-1548 | walks to the last link, replaces it and nothing else, and returns the new head |
| JumpEmitters.GjmpAppendArm | arm-gen.c:1590-1605 | the same through relative displacements; fails exactly when the second head is out of reach of the last slot |
| JumpEmitters.GjmpAppendC67 | c67-gen.c:2108-2129 | the same with both halves of the link, which the source ORs into fields known to be zero |
| JumpEmitters.GsymAddrArm64 | arm64-gen.c:245-258 | the walk ends, every slot of the list is patched, and it fails exactly when some branch is out of range |
| JumpEmitters.GsymAddrI386 | i386-gen.c:146-154 | the walk ends and every slot of the list holds the displacement |
| JumpEmitters.GsymAddrArm | arm-gen.c:404-418 | as for arm64, with a nop when the label is the next instruction |
| JumpEmitters.GsymAddrC67 | c67-gen.c:209-234 | the walk ends, the links are cleared, and a pair of relocations to the label is recorded for every slot |
| JumpRuns.PendingOnce | arm-gen.c:1562-1605 | a pending jump was emitted, is not bound, and is on one list only, once |
| JumpRuns.StepKeepsInv | arm-gen.c:1562-1605 | no operation loses or duplicates a jump, or lets two slots overlap |
| JumpRuns.RunConserves | i386-gen.c:677-689 | over any run the lists stay disjoint and free of repetition, no jump is lost, every jump keeps its condition and a bound one its label, and the code emitted only grows |
| JumpRuns.StartRefines | arm64-gen.c:1520-1527 | with no jump pending any code that has begun is a start |
| JumpRuns.EmitRefines | arm64-gen.c:1520-1527 | emitting other code leaves every list and every bound jump as it is |
| JumpRuns.JumpRefines | arm-gen.c:1562-1588 | emitting a jump puts its slot in front of the list and leaves the rest as it is |
| JumpRuns.AppendRefines | arm-gen.c:1590-1605 | gjmp_append is concatenation of the abstract lists, all other lists and labels unchanged |
| JumpRuns.BindRefines | arm-gen.c:404-418 | gsym_addr sends exactly the jumps of one list to the label |
| JumpRuns.ArmEndMark | arm-gen.c:381-391 | up to which position the end mark 0 of an arm list can be told from a link |
| JumpRuns.Run | arm64-gen.c:1520-1548 | any interleaving of the operations fails exactly when the list machine does, and otherwise ends with the lists and labels that machine has, with every byte outside the slots as it was emitted, and with every jump, pending or bound, taken exactly under the condition it was emitted with |
| JumpRuns.BoundJumpGoes | arm-gen.c:404-418 | after any run a bound jump of i386, arm or arm64, executed after a comparison, goes to its label exactly when the condition is met and to the next instruction otherwise |
| JumpRuns.LinkedBoundGoes | c67-gen.c:209-234 | on c67 it does once the linker has put in the address |
| JumpRuns.FailsExactly | arm64-gen.c:252-253 | inside the size limits an operation fails exactly if it is gsym_addr of arm64 and the label is out of reach of some branch, or gjmp_cond of arm and mapcc does not know the condition |
| Bimm64.EncodeBimm64 | arm64-gen.c:127-174 | returns a canonical encoding that decodes to the argument; fails only on values that no encoding decodes to |
| Bimm64.CanonicalUnique | arm64-gen.c:127-174 | two canonical encodings of one value are equal, so encoding what was decoded gives the same encoding |
| Bimm64.DetectPeriod | arm64-gen.c:137-148 | finds the least period among 2, 4, up to 64, and the element |
| Bimm64.ScanTrailing | arm64-gen.c:150-164 | the binary-search scans count exactly the trailing zeros, or ones |
| A64Const.Movi | arm64-gen.c:176-211 | a word whose execution loads the constant; zero exactly when no single instruction of the subset loads it |
| A64Const.CountFillers | arm64-gen.c:223-226 | the numbers of zero and of all-ones halfwords |
| A64Const.MovSequence | arm64-gen.c:227-241 | the sequence loads exactly the constant, in one instruction for every halfword that is not the filler |
| A64Const.Movimm | arm64-gen.c:213-242 | for every 64-bit constant the code emitted leaves it in the register and changes no other, in one instruction if possible, else in 4 less the better filler count |
| A32Const.EncodeImmediate | arm-gen.c:310-316 | a non-zero result executes, on every state of registers and flags, as the instruction with that constant, under the same condition and with the same flags set; zero exactly for constants that are no rotated byte |
| A32Const.PartnerImplements | arm-gen.c:276-306 | the partner opcode with the negated or inverted constant does the same on every state of registers and flags |
| A32Const.StuffConst | arm-gen.c:271-321 | sound on every state of registers and flags, condition included, and zero exactly when neither the constant, nor its partner, nor an all-ones form fits |
| A32Const.MasksDisjoint | arm-gen.c:333-338 | masks at least four steps apart share no bit |
| A32Const.FindPair | arm-gen.c:337-343 | finds two disjoint masks that cover the constant if any two do |
| A32Const.FindTriple | arm-gen.c:354-362 | finds three disjoint masks that cover the constant if any three do |
| A32Const.StuffConstHarder | arm-gen.c:325-379 | for every constant the code emitted adds or subtracts it, on every state and under the condition of the instruction, and has as many instructions as the least number of pieces of the constant or its negation |
| A32Const.CalcAddr | arm-gen.c:447-472 | old base and offset, and new base and offset after the code emitted, address the same byte on every state of registers and flags, which keep their flags; the new offset is in reach and aligned, also where the rounding wraps around an `int` |
| AsmSwap.FlagsExact | arm-asm.c:756-796 | swapping an arithmetic opcode keeps all four flags for every operand, except for ADD, SUB, CMP and CMN of 0 and 0x80000000 |
| AsmSwap.SwapValue | arm-asm.c:756-796 | both instructions of a swap write the same value |
| AsmSwap.ExceptionsEncodable | arm-asm.c:728-744 | the two exceptional constants are encoded directly and never reach the swap |
| AsmSwap.RotateToByte | arm-asm.c:732-740 | the rotation loop finds a byte and an amount that expand to the constant exactly when there are any |
| AsmSwap.DataProcessingImmediate | arm-asm.c:724-813 | the word assembled is executed under the same condition, writes the same register and sets the same flags, but for the carry, as the instruction written; the carry is the same too exactly when the opcode is not swapped, is arithmetic, does not set the flags, or its inverted constant is a byte under a condition that needs the carry; the error cases are exact |
| Aapcs.AssignRegs | arm-gen.c:1080-1153 | every argument gets the caller's plan, and exactly the registers that hold structures are popped |
| Aapcs.GfuncProlog | arm-gen.c:1413-1497 | the number of registers pushed and the frame offset of every parameter |
| Aapcs.PlanFollowsRule | arm-gen.c:1092-1147 | in every list, by sizes and alignments alone: an argument starts at the first core register from the counter on that is a multiple of its alignment in words, runs over into the start of the stack, or else lies at the first stack address that its alignment divides, in as many words as its size takes |
| Aapcs.AddrFollowsRule | arm-gen.c:1462-1490 | the callee looks for a parameter at the first such register slot or stack word |
| Aapcs.PushedExact | arm-gen.c:1421-1443 | the number pushed is that of the words of all parameters, made even, or four if they are more or there is an ellipsis |
| ArmFrame.Prolog | arm-gen.c:1434-1452 | the words emitted, executed from any state, build a frame with the caller's fp, sp and return address at fp, r0 up to r(n-1) behind them and then what the caller stacked, and change nothing above |
| ArmFrame.ParameterWord | arm-gen.c:1462-1497 | where caller and callee agree on a parameter, each of its words is in the frame at its offset, whether it came in a register or on the stack |
| ArmFrame.EpilogReturns | arm-gen.c:1529 | the load at the end of the function restores the caller's fp and sp and goes on at the return address, whatever else the body did |
| Aapcs.StepExact | arm-gen.c:1096-1150 | one argument and its parameter meet exactly when the alignment does not skip the register file |
| Aapcs.PushedEnough | arm-gen.c:1421-1443 | the words counted, without alignment gaps, are enough: every register used is pushed, and all four once anything is stacked |
| Aapcs.CallerCalleeAgree | arm-gen.c:1080-1153 | caller and callee agree on every word of every parameter exactly when no parameter aligned to more than 16 bytes comes at r1, r2 or r3; split parameters, hidden results and ellipses included |
| Aapcs.StandardTypesAgree | arm-gen.c:1462-1497 | they agree on every list of types aligned to at most 8 bytes |
| Aapcs.WideAlignmentDisagrees | arm-gen.c:1466-1484 | an int followed by a type aligned to 32 bytes is looked for in the wrong place |
| Aapcs.HiddenAddress | arm-gen.c:1416-1421 | the address for a returned structure comes in r0, which is pushed |
| Aapcs.ParametersDisjoint | arm-gen.c:1462-1497 | the parameters of every list lie in the frame in order and do not overlap |
| Vfp.AvailRegs.constructor | arm-gen.c:1084 | no hole, and s0 next |
| Vfp.AvailRegs.AssignVfpreg | arm-gen.c:946-970 | updates the record in place as the allocation function says and keeps its invariant, with at most four holes |
| Vfp.AssignFollowsRule | arm-gen.c:937-970 | holes and a counter make the same choice as a search for the lowest-numbered free registers that fit; failure only when nothing fits |
| Vfp.GrantsDisjoint | arm-gen.c:946-970 | over every argument list runs lie in s0-s15, start even when 8-aligned, share no register, and a refusal is final |
| Vfp.FourHoles | arm-gen.c:930-935 | floats and doubles in turn record a fourth hole |
| Vfp.FourthHole | arm-gen.c:952-956 | three holes stay enough in one call exactly when no 8-aligned argument comes with three recorded and an odd register next |
| Vfp.HolesExact | arm-gen.c:930-970 | over every argument list three holes are enough exactly when that never happens on the way |
| Vfp.FourthHoleLate | arm-gen.c:952-969 | the fourth hole is s13 or s15, and only a double after s13 is still granted |
| Hfa.HfaAux | arm64-gen.c:742-798 | by recursion over nested types, bit-fields included: a count is returned for rows of floats of one size without padding, with room, and for all of them |
| Hfa.NoGap | arm64-gen.c:759-771 | in a row without padding every field starts where the floats so far end |
| Hfa.ArmHfa | arm64-gen.c:800-813 | positive exactly for aggregates of one to four floats of one size side by side, nested types alike, and then the number of floats; the type's size is that number of elements |
| Hfa.ArrayMemberMissed | arm64-gen.c:785-796 | a structure of two floats in an array is such a row and does not qualify |
| Pcs64.PcsAux | arm64-gen.c:815-940 | fills the array with the code of every location and returns where the last stacked argument ends |
| Pcs64.PlaceArgument | arm64-gen.c:822-937 | rules B.2 to C.15 applied one after the other place an argument as the rules by class do |
| Pcs64.LocFollowsRule | arm64-gen.c:815-940 | in every list an argument goes to registers exactly when those it needs fit from the next one of its class on, an even one for alignment to 16, and then to those; else to the first doubleword of the stack that its alignment divides, leaving no register of its class |
| Pcs64.PlaceTakes | arm64-gen.c:815-940 | an argument takes registers or an 8-aligned stack slot that holds it from where the counters stand, and at most eight registers of a kind are used |
| Pcs64.LocationsDisjoint | arm64-gen.c:815-940 | over every list no register and no stack byte is given out twice, and after one argument of a class is stacked no later one gets a register |
| Pcs64.StackEnd | arm64-gen.c:815-940 | the result is exactly the end of some stacked argument, or zero |
| Pcs64.ReturnCodes | arm64-gen.c:942-955 | a result is in x0, in v0 or behind x8, as the source asserts |
| Pcs64.CodeRead | arm64-gen.c:1245-1251 | the one number per argument determines its frame offset and whether it is an address |
| Pcs64.FrameSlotsDisjoint | arm64-gen.c:1245-1251 | the frame slots of different parameters do not overlap, nor touch the saved x8, x29 and x30 |
| Pcs64.SavedPairs | arm64-gen.c:1205-1240 | the register pairs the prolog saves include every register that carries a parameter, and there are none of a kind that carries none |
| Prolog64.GfuncProlog | arm64-gen.c:1205-1283 | the words emitted, executed from any state, put every parameter at the offset noted for it: registers side by side, floats of an aggregate packed, and stacked ones where the caller left them; x8 is saved when it is needed, with an ellipsis so are all registers that va_arg may look for, and nothing outside the frame changes |
| Prolog64.StoreElements | arm64-gen.c:1273-1282 | the stores for an aggregate of floats or doubles lay them side by side |
| VaList64.VaOffsets | arm64-gen.c:1242-1264 | the offsets for va_start are those of the last parameters that came in registers |
| VaList64.OffsetsExact | arm64-gen.c:1242-1264 | they are those of the allocator's counters exactly when no parameter went to the stack past a free register of its class |
| VaList64.VaArgExact | arm64-gen.c:1291-1411 | for all lists of parameters and of variable arguments va_arg finds every argument where the caller put it exactly when the caller stacked none that fits into registers it had passed over, or that it aligned in another way |
| VaList64.NaturalExact | arm64-gen.c:1329-1411 | with natural alignment they are found exactly when the caller stacked none that fits into registers it had passed over |
| VaList64.SinglesFound | arm64-gen.c:1329-1411 | so they are found whenever each is a value of one register or goes by its address |
| VaList64.PassedOverMissed | arm64-gen.c:1242-1264 | after seven ints and a structure of 16 bytes a variable int is not found |
| AsmConstraints.ConstraintPriority | i386-asm.c:1162-1209 | the priority of a constraint is that of its least urgent letter; fails exactly on unknown letters |
| AsmOptimal.NamedLetters | i386-asm.c:1364-1401 | by the names of the registers: which ones suit a, b, c, d, S, D, q and the general letters, and that esp and ebp are never given out |
| AsmOptimal.NarrowFirst | i386-asm.c:1175-1206 | a letter whose registers are some of those of another letter comes before it in priority |
| AsmOptimal.FirstFitOptimal | i386-asm.c:1293-1448 | operands that ask for one register each, all for the same roles, are all placed exactly when there is any way to give each a register of its own that suits its letter and is not reserved, on i386 and on ARM |
| AsmOptimal.AllocationOptimal | i386-asm.c:1293-1473 | so the whole allocation of such operands succeeds exactly then, if none is behind a local pointer |
| AsmOptimal.FixedAfterGeneral | i386-asm.c:1293-1306 | the allocation for two inputs "r" and "a" succeeds |
| AsmConstraints.Prepare | i386-asm.c:1257-1291 | references and back references correspond, and it fails exactly on invalid or doubled references and unknown letters |
| AsmConstraints.SortOperands | i386-asm.c:1293-1306 | the order holds every operand once and is sorted by priority |
| AsmConstraints.ScanFirst | i386-asm.c:1341-1448 | an operand is settled by the first letter of its constraint that allows anything, with registers that are free in the roles asked for |
| AsmConstraints.ScanFails | i386-asm.c:1341-1448 | the scan fails exactly when no letter before the first error allows anything with the roles asked for so far |
| AsmConstraints.TakeKeeps | i386-asm.c:1308-1443 | a role of a register stays taken exactly when it is reserved or claimed, and claimed by one operand only |
| AsmConstraints.AllocateAll | i386-asm.c:1319-1454 | allocates as first fit over the operands in the given order does, and fails exactly when that does; every operand ends up settled, and every tied input follows its output |
| AsmConstraints.PickOutReg | i386-asm.c:1456-1473 | the lowest register free for output, chosen exactly when an output needs one; fails exactly when one is needed and none is free |
| AsmConstraints.AllocateSorted | arm-asm.c:3040-3167 | on ARM as on i386, with r0 to r8 and its own letters, and sp and fp reserved: the operands end as first fit in the given order leaves them, and it fails exactly when that does |
| AsmConstraints.AsmComputeConstraints | i386-asm.c:1246-1473 | succeeds exactly when the operands are acceptable and first fit in a priority-sorted order places them all; then no two operands that are not tied hold a register in the same role, none is clobbered or reserved, every such operand satisfies a letter, tied inputs have the register of the operand they name unless that is tied itself, and the output register is free |
| AsmConstraints.NeededApart | i386-asm.c:1246-1473 | in every successful allocation two operands that are not tied have the roles they need to themselves exactly when neither holds the one that an ignored modifier of the other, a register variable, asked for |
| AsmConstraints.AllApartExact | i386-asm.c:1246-1473 | all operands of a successful allocation that are not tied have them to themselves exactly when none of them holds what an ignored modifier asked for, so always when no modifier was ignored |
| AsmConstraints.TiedApart | i386-asm.c:1449-1453 | in every successful allocation a tied input and the operand it names, if that is not tied itself and has a register, are read from different registers exactly when that is an output without "+" that was given no address |
| AsmConstraints.ReadsApartExact | i386-asm.c:1653-1677 | over all operands, tied ones included: no two are read from one register exactly when every tie is of that kind and nobody else is read from a register variable whose "+" was ignored |
| AsmConstraints.InputTiedToInput | i386-asm.c:1272-1277 | the allocation for two inputs "r" and "0" succeeds and both are loaded into register 0 |
| AsmConstraints.InputTiedToReadWrite | i386-asm.c:1449-1453 | the allocation for an output "+r" and an input "0" does the same |
| AsmConstraints.InputTiedToAddress | i386-asm.c:1418-1453 | the allocation for an output "=m" behind a local pointer and an input "0" puts the address and the input in register 0 |
| AsmConstraints.ReadWriteRegvarShared | i386-asm.c:1335-1340 | the allocation for a register variable "+r" and an input "r" succeeds and puts both in register 0 |
| AsmConstraints.TiedToTied | i386-asm.c:1449-1453 | the allocation for "=r", "0", "1" succeeds and leaves the third operand without a register |
| ModRM.DecodeEncode | i386-asm.c:523-578 | the processor's decoding gives back register field, base, scale, displacement and every index but esp, whatever bytes follow |
| ModRM.AsmModrm | i386-asm.c:523-578 | emits those bytes |
| ModRM.SymbolRelocatable | i386-asm.c:551-576 | the displacement of a symbol takes the last four bytes, and whatever the linker writes there is the displacement that the processor reads |
| ModRM.AddressExact | i386-asm.c:547-577 | the effective address is right for all register values exactly when the index is not esp |
| PltArm.CreatePltEntry | arm-link.c:111-141 | any number of calls reserves that many entries with their GOT offsets, each behind a Thumb stub if asked for, and all behind a first entry |
| PltArm.RelocatePlt | arm-link.c:145-169 | every entry, executed, jumps through a GOT word: without a stub through the one at its offset, behind a stub through the second; the first entry, executed, through the third |
| PltArm.StubExact | arm-link.c:160-167 | an entry jumps through its own GOT word exactly when it has no stub, or its word is the second |
| PltArm.FirstExecutes | arm-link.c:122-129 | the words of the first entry and their literal, executed, jump through the third GOT word |
| PltArm.RelocateGot | arm-link.c:171-177 | every GOT word with a relocation leads to the first entry, and no other byte changes |
| PltArm.EntryJumps | arm-link.c:160-168 | three additions to pc and a load reach any 32-bit offset |
| PltArm64.CreatePltEntry | arm64-link.c:95-110 | as on arm |
| PltArm64.RelocatePlt | arm64-link.c:114-158 | succeeds exactly when every GOT word is within 2^20 pages, and then every entry jumps through its word, the first one exactly when its first two instructions share a page, as they do in an 8-aligned section |
| PltArm64.RelocateGot | arm64-link.c:160-166 | the same for doublewords |
| PltArm64.EntryJumps | arm64-link.c:144-155 | the page and its low bits, taken from the instruction fields, make up the address of the slot |
| PltI386.CreatePltEntry | i386-link.c:95-137 | entries with their GOT offsets, relocation offsets and jumps back, for both kinds of output |
| PltI386.RelocateTable | i386-link.c:151-159 | every jump of a static output goes through its offset from the GOT |
| PltI386.RelocateGot | i386-link.c:161-169 | every GOT word with a relocation is set to the push of the corresponding entry, and no other byte changes |
| PltI386.LazyBinding | i386-link.c:95-170 | an entry jumps through its GOT word, which first leads to its push, and the jump after that reaches the first entry, which goes through the second and third GOT words |
| PltI386.DynamicEntry | i386-link.c:102-119 | in a dynamic output the entries are right without relocation |
| RelocArm.RelocateArm | arm-link.c:191-227 | the displacement decoded afterwards is the old one plus val - addr, rounded down to a multiple of four, with the H bit of a word that was BLX already; the failure condition is exact |
| RelocArm.ArmExact | arm-link.c:209-225 | for every word and target, when the relocated branch reaches its target, and when it changes the state |
| RelocArm.FailsExactly | arm-link.c:213-217 | the relocation fails exactly when no branch that may be used has the displacement |
| RelocArm.ThumbFunctionMissed | arm-link.c:214-226 | a call at 0x8000 of the Thumb function at 0x9002 is relocated and goes to 0x9000 |
| RelocArm.RelocateThumb | arm-link.c:243-320 | the displacement decoded through S, J1 and J2 is the one wanted modulo 2^25 up to bit 0, the state changes exactly for calls of ARM code, the other opcode bits stay, and the failures are exact |
| RelocArm.StubReached | arm-link.c:262-291 | a jump of Thumb code to ARM code that is relocated without an error reaches its stub exactly when the section starts at address 0 |
| RelocArm.StubMissed | arm-link.c:262-291 | a jump in a section at 0x8000 is relocated without an error and does not reach it |
| RelocArm.Relocate | arm-link.c:190-322 | both kinds of branch relocated in place, with the exact failure condition; only the four bytes of the instruction change |
| RelocArm.ThumbReaches | arm-link.c:292-320 | a branch that stays in Thumb state reaches its target exactly when it is in range, which has been tested for Thumb targets |
| RelocArm.ThumbFailsExactly | arm-link.c:292-303 | for a Thumb target it fails exactly when no pair of halfwords has the displacement |
| RelocArm.ThumbCallsArm | arm-link.c:292-320 | a call of ARM code becomes BLX, and by the processor's rule for BLX reaches its target exactly when the addend is a multiple of four and the displacement is in range |
| RelocArm.UsualCall | arm-link.c:292-320 | with the addend -4 it reaches the target exactly within 16 MiB of the aligned pc |
| RelocArm.ThumbRoundTrip | arm-link.c:243-320 | packing and unpacking a scattered displacement are inverse |
| RelocArm.ThumbExact | arm-link.c:292-306 | that is the displacement wanted exactly when it is in range |
| RelocArm.DistantArmTarget | arm-link.c:304-306 | BL at 0x8000 to ARM code at 0x2008000 is relocated without an error and does not reach it |
| RelocArm64.RelocateBranch | arm64-link.c:268-280 | succeeds exactly for targets that are 4-aligned and within 128 MiB, and the branch decodes to the target |
| RelocArm64.RelocatePage | arm64-link.c:239-246 | succeeds exactly within 2^20 pages, keeps opcode and register, and the page computed is that of the value |
| RelocArm64.RelocateLow | arm64-link.c:247-267 | the 12-bit field, in units of the access size, is the value's low part; all other bits stay |
| RelocArm64.Relocate | arm64-link.c:239-280 | the three kinds relocated in place: fails exactly when out of range or misaligned, and changes only the four bytes of the instruction |
| RelocArm64.PairAddresses | arm64-link.c:239-267 | the two instructions together address the value exactly when it is aligned to the access size |
| Epilog64.DropLanes | arm64-gen.c:1489-1492 | rounding up whole lanes: ends after at most three, loses less than a sixteenth |
| Epilog64.DropBits | arm64-gen.c:1493-1496 | rounding up single bits: ends after at most five, and exactly when five are needed |
| Epilog64.FrameWords | arm64-gen.c:1479-1502 | for every 64-bit size d that can be rounded the two words subtract a multiple of 16 that is at least d and less than 17d/16, d itself below 2^24, and for the others nothing; they are instructions exactly outside two ranges of d above 2^35 |
| Epilog64.FrameSizeExact | arm64-gen.c:1478 | the rounded size as long as the sum is an `int`, and one and the same size just below 2^64 past that |
| Epilog64.PatchProlog | arm64-gen.c:1474-1502 | the two nops of the prolog become instructions that lower sp by at least the size of the local variables exactly when that is at most 0x7ffffff0, and otherwise leave sp as it is; no other byte changes |
| Epilog64.HugeFrame | arm64-gen.c:1478-1500 | for local variables of 2^31 - 1 bytes the two words leave sp where it is |

## Left out

- Everything outside the algorithms above: the value stack, symbols and types beyond size, alignment and layout, token
  parsing, error texts, listings, coverage and bounds checking, variable-length arrays, cache flushing.
- Emission of whole calls: only the plans of where arguments go are modelled, not the instructions that put them there.
- Apple, PE and non-EABI variants, and big-endian hosts; `nocode_wanted`; growth of section buffers.
- Hard-float ARM calls beyond the register allocator, in particular aggregates split after something is stacked.
- Conditional jumps on C67, whose branch code depends on a register comparison. Unconditional ones are modelled.
- JumpRuns.Run: sections have at most the size that an `int` can hold, on arm 2^25 - 4 bytes, up to where the end mark
  can be read back; which failures can occur there is in `JumpRuns.FailsExactly`. Callers append lists of different
  variables and bind labels inside the section. The comparison before a conditional jump is one of two words; flags that
  other instructions leave are not modelled.
- The code of interworking stubs that relocation adds; the size of the section they go to is a parameter of
  `RelocArm.Relocate`, and even as sizes of code are. Weak undefined symbols, for which that relocation does nothing.
- VaList64.VaArgExact: the instructions of va_start and va_arg are modelled by what they read and write, not decoded;
  the types that an assertion of `gen_va_arg` excludes are not covered.
- PltI386.RelocateGot: takes the relocations of the table as given; that they come in the order of the entries, one to
  a GOT word, is the caller's business in tccelf.c.
- AsmOptimal.FirstFitOptimal: the letter "A", which takes two registers, mixed roles, and constraints with several
  letters are not covered.
- Prolog64.GfuncProlog, ArmFrame.Prolog: addresses do not wrap around; of a floating-point value the 128 bits of its
  register count. The stack adjustment that `gfunc_epilog` of ARM writes into the prolog is not modelled.
- AsmConstraints.AsmComputeConstraints: operands of equal priority come in whatever order the exchange sort leaves them;
  which of the error messages is given is not modelled. `find_constraint` is a parameter. There are sixteen registers on
  both targets, of which i386 counts the upper eight as reserved.
- ModRM.AsmModrm: pc-relative expressions and the 64-bit forms are not modelled; a symbol only forces a 32-bit
  displacement.
- AsmSwap.DataProcessingImmediate: register operands and shifts are not modelled.
- Overflow of a C `int`, which the standard leaves undefined, is modelled as wrap-around in `Epilog64.FrameSize`,
  `A32Const.CalcAddr` and the relocations.
- Aapcs.CallerCalleeAgree, Pcs64.PcsAux: sizes, offsets and counters, `int` or `unsigned` in the source, are unbounded
  here; for argument lists whose sizes add up to 2^31 bytes and more the C sums would overflow.
- Bimm64.EncodeBimm64 and the other 64-bit code work on integers below 2^64; no operation of theirs overflows there.
- Zero-size aggregates as arguments, `arm64_sym` with large addends and `arm64_check_offset`.
