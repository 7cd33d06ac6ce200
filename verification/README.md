# A model of the AMX just-in-time compiler and its runtime

The repository compiles AMX bytecode, the code of Pawn programs, to 32-bit x86 code and runs it. This project
models four parts of it and proves what they are for.

**The translation** (`Word32`, `X86`, `Amx`, `Emit`, `Disasm`, `Translate`, `Opcodes`, `Relation`, `Layout`, `Insns`, `Division`,
`SimMem`, `SimAcc`, `SimStack`, `SimBlock`, `SimControl`, `SimCalls`, `SimIndirect`, `Simulation`, `InstrTable`,
`Compiler`, `Correctness`). `Amx` is a step machine for the bytecode, written from the comment above each `case`.
`Opcodes` says for which operation the cells of an instruction stand, by opcode number, apart from the switch that
reads them. `X86` is a step machine for the instructions the compiler emits. `Emit` holds the emitted sequence of every opcode.
`Compiler.CompilerImpl` is the compiler: it decodes, emits, binds labels and fills the instruction table.
The simulation says that whatever the bytecode does, the emitted code does. The relation between the two states
leaves memory below STK alone, and takes a native return address on the AMX stack for the AMX return address it
stands for.

**The runtime** (`Runtime`, `ExecEnter`, `ExecSwitch`, `ExecRuns`, `ExecLeave`, `Extent`, `Sysreq`, `Nesting`).
Exec, ExecHelper, HaltHelper and SysreqDHelper are modelled instruction by instruction. `Nesting` puts the pieces
together: a history is a sequence of events in which the host and native functions call Exec, compiled code calls
native functions, runs return and runs are halted at any depth. Every call of Exec that ends, ends at its own caller.

**The allocator of executable memory** (`Bits`, `FreeRuns`, `Bitmap`, `Freeing`, `Blocks`, `MemNode`, `RedBlack`, `Removal`,
`Ledger`, `VMemMgr`). The two bit arrays of a node are arrays of words, changed in place a bit or a word at a time;
what they mean is a map from first block to length. Nodes sit in a top-down red-black tree and in a list.
`VMemMgr.Manager` ties all of it to one map, `live`, from address to number of blocks.

**The constant pool, the labels and the hooks** (`AATree`, `ConstPool`, `Bind`, `Subhook`). The pool's ghost field
`image` is what `fill` will write, and `issued` is every answer `add` has given.

Integers have the source's width: a `Word` is an integer below 2^32, and addition, subtraction and shifts wrap
explicitly. Division truncates, as the processor's does.

## What the code does not do

These are results: the code is modelled as it is.

- SDIV and SDIV.ALT add the divisor to the first remainder and divide again. When that sum is not a cell, ALT is not
  the residue. `Division.SDivExact` gives the condition, both ways, for all operands, and `Division.SDivFails` an
  input.
- CMPS with a count of zero is decided by whatever the flags were. `SimControl.CmpsExact` gives the condition for
  the whole emitted sequence, and `SimControl.CmpsOfNothingFails` a failing run. The AMX machine has no flags, so a
  program step with that count is outside the simulation.
- `largestBlock`, meant as the largest block that a node can still hand out (`vmem.cpp:391`), is not always one. A
  failed search leaves the longest run that a used block ends, and a release leaves the larger of the old value and
  the bytes freed. `MemNode.Node.FindFree`, `Free` and `Trim` give the value left and, in terms of the state before
  the call, exactly when it is a bound of all free runs. `MemNode.TwoReleases` is a run after which it is not: 128
  bytes are free in one run, and 64 is recorded. Where it is a bound, `VMemMgr.Manager.PassedOverFairly` shows that
  no node with room is passed over.
- Releasing an address in a block where no allocation starts breaks the books. `Blocks.ReleaseExact` says so, both
  ways.
- Sizes within 31 of 2^32 round to zero and are refused.
- `ConstPool::add` takes up to five gaps off one list and uses the last of them. `ConstPool.Pool.TakeGap` says which,
  `ConstPool.GapsLost` when one is lost, and `ConstPool.LosesGap` is a run that loses one.
- `bind` keeps only the first link of a chain for reuse. `Bind.Assembler.Bind` says so through `unusedLinks`.

## Model

| member | source | states |
|---|---|---|
| `Correctness.ProgramSimulated` | src/amxjit/compiler_impl.cpp:220-1174 | For every program that parses and whose jumps lead to instructions, placed at any ascending addresses, any number of bytecode steps up to the next call of a native function is matched by a run of the assembled code to a corresponding state. |
| `Correctness.ProgramStepSimulated` | src/amxjit/compiler_impl.cpp:220-1174 | The same for one step that is no call of a native function. |
| `Correctness.ProgramReady` | src/amxjit/compiler_impl.cpp:220-1174 | What the nested execution discipline asks of an image holds for the image of every such program. |
| `Opcodes.OperationExact` | src/amxjit/compiler_impl.cpp:249-1158 | The compiler takes an instruction for an operation if and only if its cells, by opcode number, operands, case table and table of natives, stand for it. |
| `Opcodes.Decoded` | src/amxjit/disasm.cpp:297-392 | An instruction that the decoder reads has the opcode and the operand cells found at its address, in order, and the size they take. |
| `Correctness.NativeByIndex` | src/amxjit/compiler_impl.cpp:1058-1067 | From the cells 123 and v, with direct calls on and the address of native v known: the run stops at the call of that address, with the AMX structure and the address of the parameters as arguments and FRM and STK synced. |
| `Correctness.NativeByAddress` | src/amxjit/compiler_impl.cpp:1077-1089 | From the cells 135 and v the same, at the call of v. |
| `Correctness.NativeLookedUp` | src/amxjit/compiler_impl.cpp:1046-1076 | Otherwise the index, from PRI or the operand, is pushed and SysreqCHelper is called. |
| `Correctness.BranchTaken` | src/amxjit/compiler_impl.cpp:648-700 | From the cells of JEQ to JSGEQ: the code goes on at the operand exactly when the comparison with that opcode number holds of PRI and ALT. |
| `Correctness.SwitchTaken` | src/amxjit/compiler_impl.cpp:1090-1120 | From the cells of SWITCH and its table: the code goes on at the address behind the first value that is PRI, and at the default when none is. |
| `Simulation.StepSimulated` | src/amxjit/compiler_impl.cpp:249-1158 | Semantic preservation of one step, for every instruction but a call of a native function, which the AMX machine takes as the end of what it specifies: PRI, ALT, FRM, STK, HEA and all data that is defined stay related at the next instruction boundary; a return to the host reaches ExecReturn and a stop reaches HaltHelper; native stack and runtime block are untouched. |
| `Simulation.RunSimulated` | src/amxjit/compiler_impl.cpp:249-1158 | The same over runs of any length, up to the next call of a native function. |
| `Simulation.HaltSynced` | src/amxjit/compiler_impl.cpp:1783-1818 | A run that stops at any call depth leaves PRI, ALT, FRM, STK and the error code in the AMX structure, esp and ebp at the values ExecHelper prepared, and arrives at exec_exit_label. |
| `SimMem.MemSimulated` | src/amxjit/compiler_impl.cpp:276-427 | Every load, store, reference, index and byte or half-word access does in memory what its opcode says, with the displacement arithmetic modulo 2^32. |
| `SimAcc.AccSimulated` | src/amxjit/compiler_impl.cpp:701-961 | Every opcode on the accumulators, the shifts, products, quotients and signed and unsigned comparisons included, leaves what the opcode says in PRI and ALT and nothing else changed. |
| `SimStack.StackSimulated` | src/amxjit/compiler_impl.cpp:444-578 | Pushes, pops, swaps, STACK, HEAP, PROC and the control registers keep the relation, with bytes below the new STK forgotten. |
| `SimStack.SimProc` | src/amxjit/compiler_impl.cpp:573-578 | PROC pushes FRM relative to the data section and makes STK the new frame. |
| `SimBlock.MovsCopies` | src/amxjit/compiler_impl.cpp:962-982 | Repeated moves of width 1, 2 or 4 copy exactly the whole block when the blocks do not overlap. |
| `SimBlock.SimMovs` | src/amxjit/compiler_impl.cpp:962-982 | MOVS, whatever width its byte count selects, copies the block and keeps ALT, which it parks below STK. |
| `SimBlock.StosdFills` | src/amxjit/compiler_impl.cpp:1012-1023 | Repeated stores fill the block with the cell. |
| `SimBlock.SimFill` | src/amxjit/compiler_impl.cpp:1012-1023 | FILL writes PRI to every cell of the block at ALT and keeps ALT. |
| `SimBlock.CmpsbCompares` | src/amxjit/compiler_impl.cpp:983-1011 | Repeated byte comparison leaves flags that report the sign of the first difference, and over nothing leaves them as they were. |
| `SimControl.CmpsRuns` | src/amxjit/compiler_impl.cpp:983-1011 | The code of CMPS, run whole, puts the sign of the comparison in PRI when there is something to compare, and otherwise what the flags it was entered with say. |
| `SimControl.CmpsExact` | src/amxjit/compiler_impl.cpp:983-1011 | For every count and every flags on entry, PRI is the comparison of the blocks if and only if the count is positive or the zero flag is set and the carry flag is not. |
| `SimControl.CmpsOfNothingFails` | src/amxjit/compiler_impl.cpp:983-1011 | A failing run: with a count of zero and the carry flag set, PRI becomes -1 for two empty blocks. |
| `SimControl.SimCmps` | src/amxjit/compiler_impl.cpp:983-1011 | CMPS of a positive count leaves -1, 0 or 1 in PRI, as the unsigned order of the first differing bytes says. |
| `SimControl.SimBranches` | src/amxjit/compiler_impl.cpp:638-700 | Each of the twelve conditional jumps is taken exactly when its signed or unsigned condition holds, and falls through to the next instruction otherwise. |
| `SimControl.ChainRuns` | src/amxjit/compiler_impl.cpp:1108-1114 | The chain of compares reaches the first record whose value is PRI, duplicates included, or falls off its end. |
| `SimControl.FilterRuns` | src/amxjit/compiler_impl.cpp:1090-1120 | The range test in front of the chain changes nothing: with it, control goes to the first matching record or the default. |
| `SimControl.SimSwitch` | src/amxjit/compiler_impl.cpp:1090-1120 | SWITCH goes where a plain scan of the case table as decoded goes. |
| `SimCalls.SimCall` | src/amxjit/compiler_impl.cpp:624-632 | CALL pushes a native address that stands for the AMX return address, and arrives at the callee. |
| `SimCalls.SimRet` | src/amxjit/compiler_impl.cpp:579-585 | RET restores the frame and resumes behind the call whose return address is on the stack, or at ExecReturn for the outermost one. |
| `SimCalls.SimRetn` | src/amxjit/compiler_impl.cpp:586-603 | RETN does the same and drops the arguments, whose size it reads from the stack. |
| `SimCalls.SimHalt` | src/amxjit/compiler_impl.cpp:1024-1029 | HALT arrives at HaltHelper with the error code in edi. |
| `SimCalls.SimBounds` | src/amxjit/compiler_impl.cpp:1030-1045 | BOUNDS halts, with its error code, exactly when PRI is negative or greater than the bound; otherwise execution goes on. |
| `SimIndirect.LookupRuns` | src/amxjit/compiler_impl.cpp:1858-1872 | JumpLookup returns the table's answer in eax, keeps every other register, and writes only below the stack pointer. |
| `SimIndirect.HelperRuns` | src/amxjit/compiler_impl.cpp:1837-1855 | JumpHelper goes to the instruction's code when the table has the address, and otherwise back behind its call, as if there had been no jump. |
| `SimIndirect.IndirectSimulated` | src/amxjit/compiler_impl.cpp:604-607 | JUMP.PRI, and SCTRL 6, jump exactly to instruction boundaries and continue for any other address. |
| `SimIndirect.SimCodePtr` | src/amxjit/compiler_impl.cpp:485-487 | LCTRL 8 puts the native address of the instruction at PRI in PRI, 0 when none starts there, and keeps everything else. |
| `SimIndirect.SimJumpPtr` | src/amxjit/compiler_impl.cpp:508-510 | SCTRL 8 goes on at the instruction whose native code PRI points to. |
| `Division.SDivExact` | src/amxjit/compiler_impl.cpp:733-743 | For every dividend and divisor: the sequence faults exactly on a zero divisor or an unrepresentable quotient; otherwise eax is the quotient truncated toward zero, and ecx is the residue with the divisor's sign if and only if the truncated remainder plus the divisor is a cell. |
| `Division.SDivFails` | src/amxjit/compiler_impl.cpp:733-743 | A failing input: 0x7ffffffe divided by 0x7fffffff leaves an ALT that is not the residue. |
| `Division.SecondRemainder` | src/amxjit/compiler_impl.cpp:739-742 | Over the integers, the second division of remainder plus divisor gives that residue. |
| `Division.ModuloUnique` | src/amxjit/compiler_impl.cpp:734-736 | The residue is the only number congruent to the dividend in the range that the divisor's sign fixes. |
| `Disasm.DecodeInstruction` | src/amxjit/disasm.cpp:297-368 | The loop that appends operands yields the instruction at the address, or nothing for an opcode it does not know. |
| `Disasm.Disassembler.Decode` | src/amxjit/disasm.cpp:381-392 | Each call yields the instruction at the current address and moves behind it; the error flag is set exactly for an unknown opcode within the code section. |
| `Disasm.CountInstructions` | src/amxjit/compiler_impl.cpp:1422-1429 | The first pass counts as many instructions as the stream has. |
| `Disasm.StreamIsContiguous` | src/amxjit/disasm.cpp:297-392 | Decoded instructions follow one another without gaps, and an undisturbed stream reaches the end of the section. |
| `Disasm.ReadTable` | src/amxjit/disasm.cpp:237-250 | The loop reads the records of a case table, default first, with addresses made relative to the code. |
| `Disasm.FindMinValue` | src/amxjit/disasm.cpp:268-278 | The least case value in signed order, and one that occurs; the default record does not take part. |
| `Disasm.FindMaxValue` | src/amxjit/disasm.cpp:280-290 | The greatest likewise. |
| `Compiler.CompilerImpl.Compile` | src/amxjit/compiler_impl.cpp:220-1158 | The two passes succeed exactly for the programs whose instructions are all known; then code and labels are those of the runtime and the instructions assembled one after the other, the index has one entry for each, and the first pass has reserved exactly as many. What each instruction is, `Opcodes.OperationExact` says. |
| `Compiler.CompilerImpl.Finish` | src/amxjit/compiler_impl.cpp:1157-1174 | The table filled from the index is that of the assembled program at its addresses. |
| `Compiler.ParseOrdered` | src/amxjit/disasm.cpp:381-392 | The instructions of a program that parses follow one another without gaps. |
| `Compiler.AssemblyLaidOut` | src/amxjit/compiler_impl.cpp:246-258 | Assembling such instructions puts the code of each behind its label, in order, with nothing but alignment in between, and gives the index an entry for each with the position of its code. |
| `Compiler.AlignedStarts` | src/amxjit/compiler_impl.cpp:246-258 | A procedure starts as far behind the code in front of it as alignment asks, any other instruction right behind it. |
| `Compiler.AssembleIsCompiled` | src/amxjit/compiler_impl.cpp:220-1174 | The assembled image of such instructions, at any ascending addresses, satisfies every assumption of the simulation, table and return addresses included, provided jumps lead to instructions. |
| `Compiler.CompilerImpl.EmitSwitch` | src/amxjit/compiler_impl.cpp:1090-1120 | The emitted test and chain are those of the records, with the bounds that the two scans find. |
| `Compiler.EmitKeeps` | src/amxjit/compiler_impl.cpp:249-258 | Alignment, label and code of one more instruction keep the layout of all those before it. |
| `Compiler.TableAscends` | src/amxjit/compiler_impl.cpp:1166-1173 | The filled table is strictly sorted by AMX address and sorted by pointer. |
| `Compiler.TableFinds` | src/amxjit/compiler_impl.cpp:108-127 | Looking an address up yields the code of the instruction there, and fails exactly when no instruction starts there. |
| `InstrTable.GetJITInstrPtr` | src/amxjit/compiler_impl.cpp:108-127 | Binary search agrees with a scan of the table. |
| `InstrTable.GetAddressByJITInstrPtr` | src/amxjit/compiler_impl.cpp:129-148 | The reverse search yields the first entry with the pointer, or 0. |
| `InstrTable.PtrRoundTrip` | src/amxjit/compiler_impl.cpp:108-148 | Pointer to address to pointer is the identity; the address is the least of those that share the pointer, and the same one when nothing shares it. |
| `ExecRuns.ExecFails` | src/amxjit/compiler_impl.cpp:1484-1504 | A call that fails a check returns that check's error code, by number, checks being made in the source's order, with the native stack, the runtime block and the callee-saved registers as they were. |
| `ExecRuns.ExecEnters` | src/amxjit/compiler_impl.cpp:1442-1677 | A call that passes arrives at the public function's code: the AMX machine starts from the registers in the AMX structure with the argument size pushed, and the native stack and the runtime block hold all that is needed to return. |
| `ExecLeave.SyncRuns` | src/amxjit/compiler_impl.cpp:1680-1697 | A normal return puts PRI, ALT, FRM and STK, each in its own field, in the AMX structure. |
| `ExecLeave.ExecReturns` | src/amxjit/compiler_impl.cpp:1555-1584 | From exec_exit_label, whichever way it was reached, Exec arrives at its own ret with the result stored, the error code in eax and cleared in the AMX structure, and the runtime block and the callee-saved registers as its caller had them. |
| `Extent.RunExtent` | src/amxjit/compiler_impl.cpp:249-1158 | No run of emitted code, table lookups included, changes which bytes the data section has. |
| `Sysreq.NativeReached` | src/amxjit/compiler_impl.cpp:1992-2030 | SYSREQ.D arrives at the native function on the native stack, with the AMX structure as its first argument and the address of its parameters as its second, FRM and STK synced, and ALT and both AMX stack pointers saved. |
| `Sysreq.LeaveRuns` | src/amxjit/compiler_impl.cpp:2031-2056 | After the native function, control is back on the AMX stack with ALT restored, and goes on or to HaltHelper as the error code says. |
| `Nesting.RunReturns` | src/amxjit/compiler_impl.cpp:1679-1717 | A run whose outermost function returns ends at Exec's ret, with PRI as result and PRI, ALT, FRM, STK and HEA of the final AMX state in the AMX structure. |
| `Nesting.RunHalts` | src/amxjit/compiler_impl.cpp:1783-1818 | So does a run that is halted at any call depth, with its error code. |
| `Nesting.RunCalls` | src/amxjit/compiler_impl.cpp:1077-1089 | A run that comes to a native call stops at the native function's entry: its arguments are the AMX structure and the address of the parameters, FRM, STK and HEA are those of the AMX state at the call, and the enclosing Exec can be resumed from there. |
| `Nesting.NativeResumes` | src/amxjit/compiler_impl.cpp:2031-2053 | When the native function returns without error, the bytecode goes on behind the call with the result in PRI and with ALT, FRM and STK as at the call. |
| `Nesting.NativeStops` | src/amxjit/compiler_impl.cpp:2055-2056 | When it returns with an error, the run halts with that error. |
| `Nesting.FailingCall` | src/amxjit/compiler_impl.cpp:1586-1604 | A nested call of Exec that fails its checks keeps every pending call resumable. |
| `Nesting.RunningCall` | src/amxjit/compiler_impl.cpp:1442-1717 | One that runs ends at its own ret with result and error reported, or suspended at a native function, and keeps every pending call resumable. |
| `Nesting.ReturnKeeps` | src/amxjit/compiler_impl.cpp:1992-2056 | The same for what follows the return of a native function. |
| `Nesting.EventKeeps` | src/amxjit/compiler_impl.cpp:1442-1717 | Every event of a history keeps the invariant. |
| `Nesting.HistoryKeeps` | src/amxjit/compiler_impl.cpp:1442-1717 | The invariant holds after every step of every history. |
| `Nesting.StaysActive` | src/amxjit/compiler_impl.cpp:1442-1717 | While more calls pend than when Exec was called, that very call is at the bottom of them. |
| `Nesting.CallReturns` | src/amxjit/compiler_impl.cpp:1442-1717 | The nested execution discipline: in every history, the first time no more calls pend than when Exec was called, control is at Exec's ret with that caller's return address on top, and its registers, its stack and the whole runtime block are as they were. |
| `Bits.OrRun` | deps/asmjit/src/asmjit/base/vmem.cpp:245-251 | The shifted mask sets exactly one run of bits of a word. |
| `FreeRuns.EndedIs` | deps/asmjit/src/asmjit/base/vmem.cpp:796-846 | LongestEnded is the length of a run of free blocks that a used block ends, and no such run is longer. |
| `FreeRuns.BoundsIff` | deps/asmjit/src/asmjit/base/vmem.cpp:843-846 | A number bounds all free runs if and only if it bounds those that a used block ends and the one behind the last used block. |
| `FreeRuns.FreedBounds` | deps/asmjit/src/asmjit/base/vmem.cpp:1038-1041 | After blocks are freed, a number bounds all free runs if and only if it did before and bounds the run that they form with the free blocks on either side. |
| `Bitmap.SetBits` | deps/asmjit/src/asmjit/base/vmem.cpp:239-264 | Exactly the bits of the range are set, across word boundaries. |
| `Bitmap.ScanWord` | deps/asmjit/src/asmjit/base/vmem.cpp:821-839 | The search within one word, the last one cut short. |
| `Bitmap.Scan` | deps/asmjit/src/asmjit/base/vmem.cpp:796-846 | The word-at-a-time search finds the least start of enough free blocks, across word boundaries and a partial last word, and fails only when there is none; then max is the length of the longest free run that a used block ends. |
| `Freeing.FreeBlocks` | deps/asmjit/src/asmjit/base/vmem.cpp:991-1022 | Exactly the bits of the allocation that starts there are cleared in both arrays. |
| `Freeing.FindKept` | deps/asmjit/src/asmjit/base/vmem.cpp:1096-1111 | The first loop of shrink finds the last block to keep, unless the allocation has no more blocks than that. |
| `Freeing.ShrinkBlocks` | deps/asmjit/src/asmjit/base/vmem.cpp:1085-1137 | Exactly the tail is freed, with the continue bit in front of it; nothing changes when there is no tail. |
| `Blocks.ExtentWithin` | deps/asmjit/src/asmjit/base/vmem.cpp:1001-1022 | From any block of an allocation the continue bits lead to its end and no further. |
| `Blocks.AllocEncodes` | deps/asmjit/src/asmjit/base/vmem.cpp:874-877 | Setting the bits of a free run makes the arrays encode one more allocation. |
| `Blocks.ReleaseEncodes` | deps/asmjit/src/asmjit/base/vmem.cpp:1001-1022 | Clearing the bits of an allocation makes them encode all the others. |
| `Blocks.ReleaseExact` | deps/asmjit/src/asmjit/base/vmem.cpp:991-1044 | What release clears from a block on leaves arrays that encode some allocations, and as many blocks fewer as it counts, if and only if an allocation starts at that block. |
| `Blocks.ShrinkEncodes` | deps/asmjit/src/asmjit/base/vmem.cpp:1113-1137 | Clearing the tail makes them encode the shortened allocation, which can be released as any other. |
| `Blocks.EmptyNode` | deps/asmjit/src/asmjit/base/vmem.cpp:1046-1063 | No block is used if and only if nothing is allocated. |
| `MemNode.Node.FindFree` | deps/asmjit/src/asmjit/base/vmem.cpp:796-846 | First fit within a node; a failed search means there is no room, and leaves in largestBlock the longest run that a used block ends, which is a bound if and only if the run behind the last used block is no longer. |
| `MemNode.Node.Take` | deps/asmjit/src/asmjit/base/vmem.cpp:874-885 | Blocks handed out overlap no allocation of the node, its used bytes are the set bits times the density, and largestBlock is 0. |
| `MemNode.Node.Free` | deps/asmjit/src/asmjit/base/vmem.cpp:991-1044 | Releasing an allocation forgets that one and returns its bytes to the node. largestBlock is the larger of its old value and the bytes freed, which is a bound if and only if it was one of every run before and is one of the freed run joined to its free neighbours. |
| `MemNode.Node.Trim` | deps/asmjit/src/asmjit/base/vmem.cpp:1081-1145 | From a block of an allocation on, exactly the first blocks stay; nothing happens when nothing can be freed or the block is in no allocation. largestBlock and its bound are as after a release. |
| `MemNode.TwoReleases` | deps/asmjit/src/asmjit/base/vmem.cpp:1038-1041 | A run after which two adjacent blocks are free and largestBlock is one block. |
| `RedBlack.SingleRotates` | deps/asmjit/src/asmjit/base/vmem.cpp:333-343 | A single rotation of the grandparent removes an outer red violation and keeps black heights and order. |
| `RedBlack.DoubleRotates` | deps/asmjit/src/asmjit/base/vmem.cpp:348-351 | A double rotation does so for an inner one. |
| `RedBlack.RepairRound` | deps/asmjit/src/asmjit/base/vmem.cpp:535-546 | A colour flip followed by the repair it needs leaves no violation and the same items. |
| `RedBlack.LinksGood` | deps/asmjit/src/asmjit/base/vmem.cpp:542-546 | Whenever a repair is due, the pointers t, g and p are the node above the grandparent, the grandparent and the parent, though t and g go stale in between. |
| `RedBlack.LinksMove` | deps/asmjit/src/asmjit/base/vmem.cpp:552-562 | The way the loop updates them keeps this so. |
| `RedBlack.InsertNode` | deps/asmjit/src/asmjit/base/vmem.cpp:508-569 | Insertion keeps order, no red-red edge, equal black heights and a black root, and adds exactly the node. |
| `RedBlack.InsertedSorted` | deps/asmjit/src/asmjit/base/vmem.cpp:508-569 | The row of items grows by one item and stays sorted. |
| `RedBlack.FindNodeByPtr` | deps/asmjit/src/asmjit/base/vmem.cpp:692-714 | With disjoint ranges, the search returns the node that contains an address, and none if and only if there is none. |
| `Removal.RotateAbove` | deps/asmjit/src/asmjit/base/vmem.cpp:636-649 | The rotation of the node above, with its recolouring, makes the node at hand red and keeps everything else. |
| `Removal.Visits` | deps/asmjit/src/asmjit/base/vmem.cpp:609-653 | One round of the descent, in each of its cases, leaves a red node at hand and the same items. |
| `Removal.TakeOut` | deps/asmjit/src/asmjit/base/vmem.cpp:655-665 | The last node goes, after its payload has replaced that of the node sought: exactly the range sought is gone. |
| `Removal.RemoveNode` | deps/asmjit/src/asmjit/base/vmem.cpp:592-670 | Removal keeps order, no red-red edge, equal black heights and a black root, and removes exactly the requested address; the node that goes is the one reported as the last, whose item takes the place of the one removed. |
| `Ledger.LiveApart` | deps/asmjit/src/asmjit/base/vmem.cpp:766-891 | Allocations of one node or of two lie apart. |
| `Ledger.UnlinkedTracks` | deps/asmjit/src/asmjit/base/vmem.cpp:672-687 | The list that is left after a removal records the same allocations, though the node unlinked may be another than the one that was empty. |
| `VMemMgr.Manager.Alloc` | deps/asmjit/src/asmjit/base/vmem.cpp:766-891 | Allocation keeps every invariant, adds one new address with as many blocks as the size needs, and accounts for them. The place is the first fit in the first node, from the optimal one on, that is not passed over; a new node is made only when all are. The optimal node moves as in the search. |
| `VMemMgr.Manager.FindRoom` | deps/asmjit/src/asmjit/base/vmem.cpp:780-849 | Every node in front of the one found, and every node when none is found, was passed over for one of the three reasons; the optimal node moves behind those of them, from the old one on without a gap, that have less than a standard node left, and no further. |
| `VMemMgr.Manager.PassedOverFairly` | deps/asmjit/src/asmjit/base/vmem.cpp:785-794 | A node that is passed over has no room, unless its largestBlock is no bound. |
| `VMemMgr.Manager.Release` | deps/asmjit/src/asmjit/base/vmem.cpp:981-1066 | Releasing an address in the first block of an allocation forgets that one alone, and drops its node exactly when no other live address is there. The optimal node is the released one when that was full and in front of it, and otherwise the same node, or its neighbour when it is dropped. NULL is accepted, and an address in no node is an error. |
| `VMemMgr.Manager.ReleaseAndReuse` | deps/asmjit/src/asmjit/base/vmem.cpp:1024-1036 | After a release from a full node in front of the optimal one that other allocations stay in, an allocation of at most the bytes freed is served by that node. |
| `VMemMgr.Manager.ReleaseAt` | deps/asmjit/src/asmjit/base/vmem.cpp:1024-1063 | A node is dropped exactly when its last allocation is released, and its size leaves the total; the search starts again at a node that was full, when it lies in front of the optimal one. |
| `VMemMgr.Manager.PullBack` | deps/asmjit/src/asmjit/base/vmem.cpp:1024-1036 | The search starts again at a node that was full when that node lies in front of the optimal one, and only then. |
| `VMemMgr.Manager.Drop` | deps/asmjit/src/asmjit/base/vmem.cpp:592-690 | Dropping an empty node keeps tree and list in step, whichever node the tree gives up, and the optimal node is the one before or, for the first, behind. |
| `VMemMgr.Manager.Shrink` | deps/asmjit/src/asmjit/base/vmem.cpp:1068-1148 | For every address in a node: from its block on, the first blocks that cover the size stay of the allocation it is in, and in a block of no allocation nothing changes; size 0 releases, NULL is accepted, and an address in no node is an error. |
| `VMemMgr.Manager.LiveBlocksApart` | deps/asmjit/src/asmjit/base/vmem.cpp:766-1148 | In every state the manager can be in, live blocks are disjoint. |
| `VMemMgr.Manager.LiveBlockInside` | deps/asmjit/src/asmjit/base/vmem.cpp:766-1148 | They are aligned to the density, not empty, and inside one mapped range. |
| `VMemMgr.Manager.Accounts` | deps/asmjit/src/asmjit/base/vmem.cpp:870-885 | Conservation in every state: used bytes are the live blocks times the density, and those of a node its set bits times the density; allocated bytes are the sizes of the nodes. |
| `AATree.Rebalances` | deps/asmjit/src/asmjit/base/constpool.cpp:30-60 | Skew and then split restore the level invariants of a node one of whose subtrees grew. |
| `AATree.LevelBounds` | deps/asmjit/src/asmjit/base/constpool.cpp:76-123 | A tree of level n is at most 2 n high and has at least 2^n - 1 nodes. |
| `AATree.HeightFits` | deps/asmjit/src/asmjit/base/constpool.h:63 | Fewer than 2^32 - 1 nodes are at most 62 high, so the stacks of 64 entries never overflow. |
| `AATree.Get` | deps/asmjit/src/asmjit/base/constpool.cpp:62-74 | The search finds the constant with the data, and none if and only if there is none. |
| `AATree.Put` | deps/asmjit/src/asmjit/base/constpool.cpp:76-123 | Insertion keeps levels and order, adds exactly the constant, and keeps within its stack. |
| `AATree.Iterate` | deps/asmjit/src/asmjit/base/constpool.h:114-151 | The walk with its explicit stack visits each node exactly once, in sorted order, and keeps within its stack. |
| `ConstPool.Pool.AddGap` | deps/asmjit/src/asmjit/base/constpool.cpp:179-223 | The gaps made are those of the run of unused bytes split by alignment, each aligned to its size, disjoint from all others, and unused. |
| `ConstPool.Pool.TakeGap` | deps/asmjit/src/asmjit/base/constpool.cpp:249-275 | Which gaps a request takes off the list, and that the last one taken is the one used; it is free and aligned. |
| `ConstPool.GapsLost` | deps/asmjit/src/asmjit/base/constpool.cpp:249-275 | A request takes a gap off its list that it does not use if and only if the list has two and there are at least two sizes from its own up to take one for. |
| `ConstPool.LosesGap` | deps/asmjit/src/asmjit/base/constpool.cpp:249-275 | A run of five adds after which two bytes inside the pool are in no gap and in no constant. |
| `ConstPool.Pool.Extend` | deps/asmjit/src/asmjit/base/constpool.cpp:277-289 | Without a gap, the pool grows to the next aligned offset, and what is skipped becomes gaps, by list. |
| `ConstPool.Pool.Share` | deps/asmjit/src/asmjit/base/constpool.cpp:302-322 | All halves, quarters and so on down to four bytes become known, and nothing known moves. |
| `ConstPool.Pool.Add` | deps/asmjit/src/asmjit/base/constpool.cpp:225-325 | The offset returned is aligned and the image has the constant there; a constant known before, on its own or as a part, keeps its offset and nothing changes; a new one goes to a gap or to the end, with the gap lists that leaves, and makes itself and its parts known and nothing else; other sizes are refused. |
| `ConstPool.Pool.Fill` | deps/asmjit/src/asmjit/base/constpool.cpp:327-354 | The bytes written equal, at every offset that add ever returned, the constant that was added. |
| `ConstPool.OnlyKnown` | deps/asmjit/src/asmjit/base/constpool.cpp:225-252 | Data has at most one offset. |
| `ConstPool.ItemsFit` | deps/asmjit/src/asmjit/base/constpool.cpp:225-325 | A tree has no more constants than the pool has bytes. |
| `Bind.Assembler.PatchSite` | deps/asmjit/src/asmjit/base/assembler.cpp:229-249 | A site gets position minus offset plus displacement, in one byte or four; a byte is written exactly when that distance is from -128 to 127, and otherwise left and reported. |
| `Bind.Assembler.Bind` | deps/asmjit/src/asmjit/base/assembler.cpp:192-274 | All links are patched, relocated ones in their record, no other byte changes, an error is reported exactly when the distance of some byte reference is not from -128 to 127, a bound label stays as it is, and one link is kept for reuse. |
| `Bind.JumpArrives` | deps/asmjit/src/asmjit/base/assembler.cpp:232-240 | After binding, a relative jump leads to the label. |
| `Bind.ShortJumpArrives` | deps/asmjit/src/asmjit/base/assembler.cpp:238-247 | So does a short jump, with its byte sign-extended, when the distance is from -128 to 127; otherwise its byte stays. |
| `Bind.TooFar` | deps/asmjit/src/asmjit/base/assembler.cpp:242-247 | Every reference fits if and only if no byte reference is further away than that. |
| `Subhook.OffsetReaches` | deps/subhook/subhook_x86.c:340-358 | The offset written leads from the jump to its destination, modulo 2^32. |
| `Subhook.Hook.Install` | deps/subhook/subhook_x86.c:525-542 | After installing, the function starts with the jump; installing twice is refused; nothing else changes. |
| `Subhook.Hook.Remove` | deps/subhook/subhook_x86.c:544-556 | After removing, the function has its own first bytes again. |
| `Subhook.Hook.ReadDst` | deps/subhook/subhook_x86.c:558-582 | The destination is read back from any jump written there, and NULL where there is none. |
| `Subhook.IsRelocated` | deps/subhook/subhook_x86.c:419-446 | An instruction copied, with the distance taken off its relative operand, still leads to the same address. |
| `Subhook.AllStep` | deps/subhook/subhook_x86.c:409-449 | One more instruction copied keeps those before it relocated. |
| `Subhook.Hook.MakeTrampoline` | deps/subhook/subhook_x86.c:392-459 | Whole instructions that cover the jump are copied and relocated, the trampoline fits its buffer and ends in a jump behind the last of them, and it fails exactly when an instruction is not known. |

## Left out

The translation and the runtime:

- x86 byte encoding: the target is a list of abstract instructions. Instruction k has an address; addresses increase strictly. How many no-operations align a procedure is a parameter.
- The runtime information block and the AMX structure are records, not bytes. The native stack is a map from word addresses.
- Shift counts of 32 and more, LIDX.B and IDXADDR.B shifts above 3, a HEAP or STACK address that overflows as a signed number: the AMX machine does not specify them.
- Memory below STK is not specified by the AMX machine, because block moves, fills and lookups write there; return addresses on the stack are not readable as cells.
- MOVS is specified for blocks that do not overlap and do not touch the cell below STK. Block operations and HALT need one cell of room below STK, indirect jumps 28 bytes and the callee's frame, native calls 8 bytes.
- Simulation.StepSimulated: a call of a native function ends what the AMX machine specifies; for SYSREQ.D and a direct SYSREQ.C, `Nesting` says what happens then.
- Simulation.RunSimulated: a run ends at a call of a native function, for the same reason.
- Correctness.ProgramSimulated: so it does here.
- Correctness.ProgramStepSimulated: as `Simulation.StepSimulated`.
- Targets: a jump or call whose target is no instruction is outside the simulation, because the assembler leaves its label unbound; so is a case table without a default record.
- Compiler.CompilerImpl.Compile: what has been emitted when an opcode is refused is not said, since it is thrown away; a native function for which the source has an intrinsic is called like any other.
- SYSREQ.PRI, and SYSREQ.C where it is not direct, are compiled, but the helper they call, which reads ecx after a C call, is not modelled. Neither are the intrinsics, floating point, sleep support, debug output and the code of the reverse lookup helper.
- What C functions do: they leave junk, any function of the state they are called in, in the caller-saved registers and below the stack pointer, on the AMX stack within a bounded frame. A native function respects the words above its arguments, and leaves the runtime block and the base, data and stp fields of the AMX structure as it found them, nested calls of Exec included. The word at which Exec's caller wants its result lies on the native stack above its arguments, or is NULL.
- The addresses that GetPublicAddress returns are instruction boundaries.

The allocator:

- Tree links are values rather than pointers: `RedBlack` and `Removal` work on a tree and the path walked, with the nodes' payload as items. The helper pointers t, g and p are tracked by the address of the node they point to. The threaded list is a sequence with the index of the optimal node.
- Mapping memory is a parameter: a fresh range or nothing. Density is 64. Locks, reset, permanent allocations and failures to allocate the node itself are not modelled.
- VMemMgr.Manager.Release: an address inside a node, but in no first block of an allocation, is excluded: by `Blocks.ReleaseExact` the books are then not in order afterwards.
- VMemMgr.Manager.Shrink: for size 0, which releases, the same address is excluded.

The pool, the labels and the hooks:

- Tree links are values here too, and the gap lists are sequences; the reuse of gap records, the zone and running out of memory are not modelled.
- ConstPool.Pool.Add: offsets are unbounded; a pool that comes within 16 bytes of 4 GB is not modelled.
- ConstPool.Pool.Fill: the visitor runs over the walk's result instead of being called from inside it.
- Bind.Assembler.Bind: the sites of a label's links are disjoint, which the assembler that makes them sees to; link chains are sequences. `_newLabel`, `_grow` and `_reserve` are left out.
- Subhook.Hook.MakeTrampoline: the disassembler is a function with a contract, a length of at most 15 and an operand inside the instruction; only the 32-bit build is modelled; protection and allocation of code memory are left out.
- The node and jump lists of asmjit's compiler, and the zone allocator.
