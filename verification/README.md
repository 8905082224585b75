# gpSP core, modelled in Dafny

This project models the part of the gpSP Game Boy Advance emulator where state, recursion and arithmetic meet: the
translation caches of the dynamic recompiler, the flag elimination pass of its Thumb translator, the event scheduler,
and pieces of the ARM7TDMI interpreter and of the savestate format. `dafny verify dfyconfig.toml` checks all of it.

| file | what it models |
|---|---|
| `Basics.dfy` | options, sums, minimum and maximum |
| `Word32.dfy` | 32-bit words as integers, with wrap-around and bitwise operations written out |
| `DeadFlags.dfy` | the backward liveness pass over the flag words of a block, and why running with only the kept flags means the same |
| `FlagArith.dfy` | carry and overflow of additions and subtractions, conditions |
| `ThumbFlags.dfy` | the Thumb interpreter as reference semantics, and the table of flag words checked against it |
| `ThumbValues.dfy` | what the Thumb data instructions compute: additions and subtractions by numbers, the others bit by bit |
| `BlockScan.dfy` | the scan for the end and the exits of a block, its static decoding against the interpreter, and which exits the translator emits |
| `ExitPoints.dfy` | the scan's test for the end of a block against the interpreter's own cases, in both instruction sets |
| `Emitter.dfy` | what the translator needs of the code emitter: how much it appends, where branches lie |
| `Blocks.dfy` | translated blocks as both caches hold them, how they are emitted, and which entry of the exit table a branch takes |
| `RomCache.dfy` | the ROM cache: chained hash index, bump allocation, recursion between lookup and translation, flush, retry, synchronisation |
| `RamTags.dfy`, `RamCache.dfy` | the RAM cache: tag mirrors and flush by bounds; block table growing down, recursion, closure of the code under its exits |
| `Timers.dfy`, `Serial.dfy`, `Scheduler.dfy` | timers with cascade, the serial port, and the update loop with video, sleep and halt |
| `CpuModes.dfy` | status words and their masks, banked registers, mode changes, interrupt entry and return |
| `BlockTransfer.dfy`, `UserTransfer.dfy` | LDM, STM, PUSH and POP, and the variant that transfers the registers of user mode |
| `Bson.dfy`, `Savestate.dfy` | the binary document format, its writer and its readers; the processor and scheduler documents |

Where the source changes state in place, the model is a class or an array with methods; each is tied to a function or a
predicate about which the lemmas speak. I/O, the code emitter, memory and the devices are left open: an emitted
instruction takes any number of bytes up to a maximum, polling a device says anything, a DMA takes any number of cycles.
The RAM cache is given what each of its lookups in the ROM cache comes to, as a function of their number and target.

Some promises turned out not to hold of the code. They are stated with the exact condition:

- The flag table misdescribes TST, `ADD pc, rs` and the undefined encodings outside the conditional branch row, and no
  others (`TableCorrectIff`); a compare followed by TST and a branch on carry takes the other way (`TstLosesTheCarry`).
- The scan takes the Thumb opcodes 0xDE00 to 0xDEFF for conditional branches and records a target for each. The
  interpreter has no case for them and stays where it is (`ThumbTargetIsReached`), and the translator has none either
  and emits nothing (`EmitsIff`). It finds the target of a branch by counting the branches emitted so far, so a branch
  takes the target recorded for it if and only if no such opcode comes before it in the block
  (`BranchTakesOwnEntryIff`, `ExitsCoveredUnlessSkipped`). At the start of the cartridge, 0xDE00 followed by a BEQ
  makes the BEQ lead to the instruction after it, whether it is to be taken or not (`RunMisled`).
- The scan's test for the end of a block overlooks some opcodes after which the interpreter does not go on: in Thumb
  code `ADD pc` and the undefined encodings (`ThumbLeavesIff`), in ARM code r15 as the result of a multiplication or as
  a base that is written back, BX with bits other than the manual's, and rows without a case, unless bits 12 to 15 are
  set (`ArmLeaversExit`). After every other opcode that always leaves nothing follows in a block (`NothingFollows`).
- Flushing the RAM cache misses a region whose upper code bound is zero although its first halfword starts a block
  (`FlushCompleteIff`); calling a function that only returns, at the start of external RAM, right after a flush gets
  there (`RunIntoTheCorner`).
- A block of RAM code is left with an exit unpatched when a lookup in the ROM cache fails, and later lookups find it.
  As long as the RAM cache is not flushed, this happens if and only if one of the lookups in the ROM cache fails
  (`RamCache.TranslateBlock`, `RamCache.LookupAddress`); such lookups take an ARM branch of RAM code that reaches back
  to the BIOS, and nothing else (`OnlyBranchesToTheBiosMatter`). A branch from 0x02000000 to 0x100 gets there: the first
  try abandons its block, and the second returns it unlinked (`RunIntoTheBios`).
- A tag names an entry of the block table inside the RAM cache only from 0x8001 up. The cache fills up before tags get
  below that if and only if each block takes enough bytes (`TagsLastIff`): 24 are enough for both cache sizes, and the
  ten of a gate on x86 are not (`GatesAloneOutrunTags`).
- Starting a timer in the middle of a slice lowers the cycles to run, and a CPU that then halts can have more cycles
  left than it was given. The video count then goes up (`TimeGoesForwardIff`), leaves its range exactly if more cycles
  are handed back than had gone of the phase (`RangeSurvivesIff`), and the cycles that the timer cut off are never
  accounted for (`StartTimerThenHalt`, `Machine.UpdateGba`).
- A timer whose period does not exceed the overshoot of 64 cycles can miss overflows (`NeverMissesIff`).
- BX to an even address that is no multiple of four goes on two bytes later in translated code than in the interpreter
  (`DualAgreesIff`).
- The handler of an interrupt taken in interrupt mode does not see its return address, unless the link register held
  that address already (`NestedIrqLosesReturn`).
- A savestate can pass every check and fail to load, when a register array has the wrong length (`SavedStateLoads`,
  `ShortStateAccepted`); what was read before is not taken back (`LoadHalfway`).

## Model

| member | source | states |
|---|---|---|
| DeadFlags.Eliminate | gpsp-master/cpu_threaded.c:2873-2885 | The in-place pass: after it, the low four bits of each flag word are exactly the flags that may be modified there and are live after it; words past the counted instructions are untouched. |
| DeadFlags.KeptIffUsed | gpsp-master/cpu_threaded.c:2846-2885 | A flag is kept if and only if the instruction may modify it and a later use, or the end of the covered part, is reached with no certain overwrite in between. |
| DeadFlags.LiveIffUsed | gpsp-master/cpu_threaded.c:2865-2885 | The recursive liveness computed by the mask is the path property: live means used before certainly overwritten. |
| DeadFlags.EliminationPreservesMeaning | gpsp-master/cpu_threaded.c:2846-2885 | For every block length, start state and number of steps, with any jumps inside the block: same place, same registers and memory with only the kept flags; flags agree where live, and all four after leaving the block. |
| ThumbFlags.TableCorrectIff | gpsp-master/cpu_threaded.c:2346-2482 | A row of the flag table is right about the interpreter in every state if and only if the encoding is not TST, `ADD pc`, or undefined outside row 0xDE. |
| ThumbFlags.ThumbEliminationPreservesMeaning | gpsp-master/cpu_threaded.c:2367-2482 | Any Thumb block free of those encodings runs the same under the interpreter's semantics with only the kept flags. |
| ThumbFlags.TstLosesTheCarry | gpsp-master/cpu_threaded.c:2453-2456 | A concrete block (CMP, TST, BCS) on which the table's claim about TST makes the reduced run branch differently. |
| ThumbFlags.RowsFit | gpsp-master/cpu_threaded.c:2346-2482 | Every row fits the twelve bits that the pass works on. |
| ThumbValues.DataBits | gpsp-master/cpu.cc:3159-3257 | Each of the sixteen register instructions leaves the result that its number says, told bit by bit or by the number, and the last bit shifted out in the carry; it changes no other register and goes on. |
| ThumbValues.ShiftBits | gpsp-master/cpu.cc:3100-3113 | So do the three shifts by a number, zero standing for 32 in LSR and ASR. |
| ThumbValues.ArithmeticIsExact | gpsp-master/cpu.cc:3115-3157 | Every opcode that adds or subtracts, found by its format bits, leaves the sum or difference of its operands modulo 2^32 with carry and overflow as the exact numbers say; comparisons drop the result. |
| FlagArith.AddIsExact | gpsp-master/cpu.cc:262-263 | Result and carry are the unsigned sum including carry-in; V says whether the signed sum including carry-in overflows. |
| FlagArith.SubIsExact | gpsp-master/cpu.cc:255-260 | The same for subtraction with inverted borrow. |
| FlagArith.AddChainExact | gpsp-master/cpu.cc:687-745 | An ADDS/ADCS chain over any number of words computes the exact sum and the final carry. |
| FlagArith.SubChainExact | gpsp-master/cpu.cc:687-745 | A SUBS/SBCS chain over any number of words computes the exact difference and the final borrow. |
| FlagArith.SubChainCompares | gpsp-master/cpu.cc:255-260 | After a SUBS/SBCS chain carry is set exactly when the multi-word number is not lower. |
| FlagArith.ConditionsAfterCompare | gpsp-master/cpu.cc:1530-1620 | After CMP a, b every ARM condition and every Thumb conditional branch is the comparison that section A3.2 of ARM DDI 0100 gives it. |
| BlockScan.JoinsLater | gpsp-master/cpu_threaded.c:2953-2966 | Finds a branch that lands right after the block, among all recorded exits but the most recent one. |
| BlockScan.Scan | gpsp-master/cpu_threaded.c:2915-2992 | The recorded exits are the direct exits of the scanned instructions in order, no gate lies inside the block, every instruction can be reached by falling through or by a branch from further up, the limits on size and exits hold, and the scan stopped for one of its reasons. Which instructions end it is what ExitPoints compares with the interpreter. |
| ExitPoints.ThumbLeavesIff | gpsp-master/cpu_threaded.c:2787-2796 | For every Thumb opcode, state and flags: the interpreter goes anywhere but to the next instruction if and only if the opcode is an exit point, and taken if it is a conditional branch; the exceptions are `ADD pc`, the undefined encodings outside row 0xDE and the two division calls. |
| ExitPoints.ArmLeaversExit | gpsp-master/cpu_threaded.c:2683-2701 | Every ARM opcode after which the interpreter's row gives r15 a value, or has no case, is an exit point, unless it is one of the unexpected ones that do not look like others. |
| ExitPoints.ArmFalseExits | gpsp-master/cpu_threaded.c:2683-2701 | An ARM exit point after which the interpreter goes on is a test, a store, a multiplication or a write of a status register. |
| ExitPoints.NothingFollows | gpsp-master/cpu_threaded.c:2929-2975 | In a scanned block no instruction follows one that always leaves, unless a branch from further up lands right there; so a block ends at a function's return. |
| BlockScan.OffsetsAgree | gpsp-master/cpu.cc:165-166 | The interpreter shifts the whole opcode, the scan a masked one: both get the same signed offset, for every word. |
| BlockScan.ArmTargetIsReached | gpsp-master/cpu.cc:3021-3038 | An interpreted B or BL goes on to the next instruction exactly if its condition fails, and otherwise to the target that the scan has recorded; BL alone sets r14, to the address after it; no other register changes. |
| BlockScan.ThumbTargetIsReached | gpsp-master/cpu_threaded.c:2789-2825 | Every Thumb branch but BL has a recorded target, and the interpreter goes there or on after the branch if and only if the opcode is not in row 0xDE; in that row it stays where it is, which only 0xDEFE records. |
| BlockScan.ThumbCallTargetIsReached | gpsp-master/cpu_threaded.c:2826-2839 | The two halves of BL, executed one after the other, arrive at the target recorded from both opcodes, with the return address in r14. |
| BlockScan.SwiTargetIsReached | gpsp-master/cpu_threaded.c:2946-2951 | The exit recorded for a software interrupt is where the interpreter goes, in both instruction sets. |
| BlockScan.EmitsIff | gpsp-master/cpu_threaded.c:2225-2341 | The translator's own cases, with the previous opcode as it tracks it, take an entry of the exit table for exactly those instructions that have a recorded exit and are not in row 0xDE, in both instruction sets. |
| BlockScan.FoldedLiteralIsTheLoadedWord | gpsp-master/cpu_threaded.c:1952-1966 | Executing the PC-relative load puts into the register the word that the translator folds into the code, if the page has not changed since; the exception, code at the very end of the BIOS, is spelled out. |
| Blocks.CounterKeepsUpIff | gpsp-master/cpu_threaded.c:3080-3096 | The translator's exit counter never runs ahead of the recorded exits, and at any instruction it has kept up with them if and only if a branch was emitted for each of them. |
| Blocks.BranchTakesOwnEntryIff | gpsp-master/x86/x86_emit.h:1991-2000 | An emitted branch takes the entry recorded for its own instruction if and only if no exit before it in the block was passed over; otherwise it has the target of an earlier instruction. |
| Blocks.ExitsCoveredUnlessSkipped | gpsp-master/cpu_threaded.c:3130-3141 | Every direct exit of the code of a block has a branch of its own, with its own target, if and only if no opcode of row 0xDE is in the block. |
| Blocks.IndexIsSound | gpsp-master/cpu_threaded.c:3134-3139 | The instruction that a target inside a block is patched to is the one of its instructions that covers the target. |
| Blocks.AlignedExitLandsOnTarget | gpsp-master/cpu_threaded.c:3134-3139 | A branch to an aligned target inside its own block goes to the code of the instruction at exactly that address. |
| RomCache.KeysTellBlocksApart | gpsp-master/cpu_threaded.c:2588-2594 | Two blocks have the same key exactly when they have the same instruction set and aligned address. |
| RomCache.AddressingIsSound | gpsp-master/cpu_threaded.c:2588-2594 | Slots are in range; alignment leads to the start of the instruction and keeps key and region; ROM is 0 to 0xFFFFFF and 0x8000000 to 0xDFFFFFF, RAM 0x2000000 to 0x3FFFFFF. |
| RomCache.OnlyTheBiosMatters | gpsp-master/cpu_threaded.c:2588-2590 | ROM code keeps out of RAM, which the closure theorem asks for, if and only if no ARM branch of the BIOS region reaches as far as RAM: cartridge code and Thumb code never do. |
| RomCache.OnlyFarBranchesLeadToRam | gpsp-master/cpu_threaded.c:2717-2718 | Among all direct exits at addresses that a ROM block can cover, exactly those ARM branches lead into RAM. |
| RomCache.ChainGoesUp | gpsp-master/cpu_threaded.c:2595-2608 | Along a chain of the hash table offsets strictly increase, so it has no cycle. |
| RomCache.LinkKeepsIndex | gpsp-master/cpu_threaded.c:2610-2618 | Appending a new header to its chain keeps the table, its chains and the map from keys to blocks in agreement. |
| RomCache.RomCache.FindInChain | gpsp-master/cpu_threaded.c:2595-2608 | The walk finds exactly the block the map has for the key, or the end of the chain of its slot. |
| RomCache.RomCache.Enter | gpsp-master/cpu_threaded.c:2610-2618 | Publishing a header adds one key to the map and leaves all other blocks in place and complete. |
| RomCache.RomCache.EmitBlock | gpsp-master/cpu_threaded.c:3081-3130 | Emission yields rising code offsets for all instructions, and a branch in the code of each instruction that the translator emits one for, with the target that the exit counter gives it, below the end of the cache; it overflows only if there is less room than the instructions can take. |
| Blocks.PatchInternal | gpsp-master/cpu_threaded.c:3130-3141 | An exit that stays inside the block is patched to the code of the instruction whose address its target is, and every such exit is; the others are left for later. |
| RomCache.RomCache.TranslateBlock | gpsp-master/cpu_threaded.c:3010-3173 | On success the block is a complete translation of the guest code scanned at its address, its own branches leading to the instructions at their targets, and the only incomplete published blocks are those on the stack below it; on failure the cache is empty. It succeeds whenever there is room for the block and for all blocks it leads to, and then leaves room for those still to come. The recursion ends because the room left shrinks. |
| RomCache.RomCache.PatchExits | gpsp-master/cpu_threaded.c:3160-3171 | Every emitted branch ends up at the block's own instruction at its target, a published block, the BIOS entry or the all-ones address; earlier patches stay good while later lookups translate more. |
| RomCache.RomCache.LookupTranslate | gpsp-master/cpu_threaded.c:2588-2631 | A lookup refines the map: a known key yields its entry and changes nothing, a new one is added to it, published blocks stay; null means the cache was flushed and is empty, and does not happen with room for the block and all it leads to; outside ROM and RAM it yields all ones. |
| RomCache.RomCache.Flush | gpsp-master/cpu_threaded.c:3380-3387 | Empties the map and takes back all code above the watermark. |
| RomCache.RomCache.SyncICache | gpsp-master/cpu_threaded.c:259-264 | One range covers every byte emitted or patched since the last synchronisation. |
| RomCache.RomCache.LookupAddress | gpsp-master/cpu_threaded.c:2651-2665 | With up to four tries: a result is the entry of the block at that aligned address, and leaves every published block a translation of the guest code at its address with every emitted branch patched, and all code synchronised; null leaves an empty cache; without a flush every earlier key keeps its entry. For every set of blocks that branch only among themselves: the result is not null if they fit into an empty cache, and nothing is flushed if there is room for those not there yet. |
| RomCache.RunMisled | gpsp-master/cpu_threaded.c:2225-2341 | A run on the cartridge code 0xDE00, 0xD010, 0x4770: the block has one branch, the BEQ's, and it is patched to the block's own third instruction instead of to 0x8000026. |
| RamTags.TagsNameSlots | gpsp-master/cpu_threaded.c:2523-2529 | The n-th tag handed out names the n-th slot below the end of the cache, exactly as long as tags stay at 0x8001 or above. |
| RamCache.SamePlaceIff | gpsp-master/cpu_threaded.c:2558-2564 | Two addresses of RAM share a tag if and only if they are of the same region and of the same halfword of it, external RAM repeating every 256 KiB and internal RAM every 32 KiB. |
| RamTags.SlotsDiffer | gpsp-master/cpu_threaded.c:2523-2529 | Different tags name different slots. |
| RamTags.TagsLastIff | gpsp-master/cpu_threaded.c:2523-2529 | For every cache size and every least size of a block: every tag that there is room for names an entry inside the cache if and only if the cache fills up before the 0x4000th block. |
| RamTags.GatesAloneOutrunTags | gpsp-master/x86/x86_emit.h:2311-2313 | With blocks of ten bytes, in a cache of either size, there is room for a valid tag whose entry is not in the cache. |
| RamTags.FlushCompleteIff | gpsp-master/cpu_threaded.c:3353-3377 | With valid tags within the bounds, a flush removes all of them if and only if the upper bound is not zero or the first halfword holds none. |
| RamTags.FlushMissesTheFirstHalfword | gpsp-master/cpu_threaded.c:3355-3361 | One tag at the start of a region with both bounds zero survives the flush of the region. |
| RamTags.ValidTagsAreUnique | gpsp-master/cpu_threaded.c:2504-2515 | No two halfwords of RAM hold the same valid tag. |
| RamTags.OwnedAfterAllocation | gpsp-master/cpu_threaded.c:2504-2515 | Handing out a tag keeps every valid tag unique to its halfword. |
| RamTags.TagMirror.UpdateLimits | gpsp-master/cpu_threaded.c:2999-3008 | The bounds become the least that include the old ones and the instruction. |
| RamTags.TagMirror.MarkCode | gpsp-master/cpu_threaded.c:2893-2909 | A scanned instruction has a tag afterwards, no valid tag changes, and nothing tagged loses its tag. |
| RamTags.TagMirror.Flush | gpsp-master/cpu_threaded.c:3353-3375 | Clears exactly the halfwords that the bounds say are in use, and resets the bounds. |
| RamCache.RunIntoTheCorner | gpsp-master/cpu_threaded.c:3355-3361 | A run that reaches the corner: flush, look up one returning instruction at 0x02000000, flush. Its tag is still there, and is the very tag handed out next. |
| RamCache.RunIntoTheBios | gpsp-master/cpu_threaded.c:3155-3171 | A run that abandons a block: a branch from 0x02000000 to 0x100 while lookups in the ROM cache fail. The lookup returns its block, which is not linked, without a flush, and so does every later lookup. |
| RamCache.OnlyBranchesToTheBiosMatter | gpsp-master/cpu_threaded.c:2558-2590 | RAM code keeps out of ROM if and only if none of its ARM branches reaches back to the BIOS region, other than to the software interrupt vector: RAM code never branches directly to the cartridge, and Thumb code never to ROM. |
| RamCache.OnlyFarBranchesLeadToRom | gpsp-master/cpu_threaded.c:2717-2718 | Among all direct exits at addresses that a RAM block can cover, exactly those ARM branches lead to ROM. |
| RamCache.EntriesAfterClaim | gpsp-master/cpu_threaded.c:2573-2577 | Filling in the entry of one tag leaves what every other valid tag names. |
| RamCache.CodeStaysLinked | gpsp-master/cpu_threaded.c:3143-3171 | Putting a block in place, or patching an exit of one that is being translated, leaves all other blocks linked. |
| RamCache.RamCache.Flush | gpsp-master/cpu_threaded.c:3342-3378 | Over every run: after a flush no halfword of either mirror holds a valid tag, unless some flush has met the corner; what the flush leaves in the mirrors is given exactly; the cache is empty and consistent. |
| RamCache.RamCache.AllocateTag | gpsp-master/cpu_threaded.c:2563-2572 | Room for the new entry is kept above all code, and the tag names just that place if and only if it is 0x8001 or above, as it always is with blocks of 24 bytes and more. |
| RamCache.RamCache.EmitBlock | gpsp-master/cpu_threaded.c:3085-3128 | Code and block table never overlap; the block has its offsets and branches as in the ROM cache; every instruction that was translated lies within the bounds, also when the code overflows; it overflows only if the room is less than the instructions can take. |
| RamCache.RamCache.MarkScanned | gpsp-master/cpu_threaded.c:2893-2923 | Every scanned instruction is tagged as code, so that a store to it is noticed, and no valid tag changes. |
| RamCache.RamCache.TranslateBlock | gpsp-master/cpu_threaded.c:3010-3173 | Without a flush the block is the translation of the scanned code, every instruction of it is tagged, and all blocks but those on the stack and those abandoned have every emitted branch patched: to own code, a block for that halfword and instruction set, the BIOS entry, what the ROM cache has answered for it, or the all-ones address. It fails, and abandons a block, if and only if a lookup in the ROM cache has failed; there is no flush if there is room for the block and it leads to no other RAM code. This survives nested translations and flushes in the middle of a block. |
| RamCache.RamCache.PatchExits | gpsp-master/cpu_threaded.c:3155-3171 | Ends with every exit of the block patched, or with the cache flushed, or with the block abandoned; the last if and only if a lookup in the ROM cache has failed. |
| RamCache.RamCache.FindExit | gpsp-master/cpu_threaded.c:3158-3164 | An exit to the BIOS vector gets the BIOS entry, one into RAM a block for that halfword, one into ROM the entry that the ROM cache has answered for it, one outside every cached region the all-ones address. Without a flush there is none if and only if a lookup in the ROM cache has failed. |
| RamCache.RamCache.LookupTranslate | gpsp-master/cpu_threaded.c:2558-2586 | A block with code is found again and nothing changes; a result is a block of the instruction set asked for, at the aligned address or a mirror of it. Otherwise, unless there was a flush, a new block translates the guest code at the aligned address, its tag names an entry with its offset also after everything its translation brought about, and it is the result, or is abandoned and there is none: the latter if and only if a lookup in the ROM cache has failed. |
| RamCache.RamCache.LookupAddress | gpsp-master/cpu_threaded.c:2651-2681 | With up to four tries, and all code synchronised: a result is the entry of a block at the aligned address or a mirror of it; afterwards a block has every emitted branch patched if and only if it was not abandoned. Without a flush, blocks have been abandoned if and only if a lookup in the ROM cache has failed, and there is a result all the same: a new block, which is left unlinked exactly then. Code looked up for the first time, with room for any block, that leads to no other RAM code, is translated without a flush. No lookup in the ROM cache is made if RAM code keeps out of ROM. |
| RamCache.RamCache.SyncICache | gpsp-master/cpu_threaded.c:265-269 | One range covers every byte emitted or patched since the last synchronisation. |
| Timers.UpdateTimers | gpsp-master/main.c:51-91 | The in-place pass over the timers is the function Pass, cascade included; interrupts come from exactly the timers that overflow and ask for one. |
| Timers.CountIsConserved | gpsp-master/main.c:51-91 | Over every run the count has gone down by what drove it and up by a period per overflow, modulo 2^32. |
| Timers.SlowTimersNeverMiss | gpsp-master/main.c:287-292 | With paced slices and periods above 64 the count stays within one period and the balance is exact. |
| Timers.NeverMissesIff | gpsp-master/main.c:287-292 | One overflow per pass is enough for all paced slices if and only if the period exceeds 64. |
| Timers.ChainIsOneCounter | gpsp-master/main.c:70-75 | In one pass, any number of cascaded timers is one counter whose period is the product of theirs. |
| Timers.ChainRunIsOneCounter | gpsp-master/main.c:51-91 | Over every paced run, a chain of slow timers is that one counter: same value, and the last timer overflows as often as it does. |
| Timers.CounterIsConserved | gpsp-master/main.c:51-91 | Over every run, the counter goes down by the cycles passed and up by a period per overflow. |
| Serial.GuestSetsItsBits | gpsp-master/serial.c:107-111 | On the 16-bit register: after any write the bits of the guest are those written, the top bit is clear, and outside multiplayer mode so are the status bits; the mode is the one the guest asked for. |
| Serial.WrittenTells | gpsp-master/serial.c:70-78 | What the guest reads back beyond its own bits: in multiplayer mode that all are ready, whether it is a child, and its number; in normal mode the adapter's answer, a line that stays equal to the guest's with an external clock, and goes down only when the guest raises its own as clock master; otherwise the line as it was. |
| Serial.MultiTimeIsExact | gpsp-master/serial.c:40-44 | A multiplayer exchange takes the cycles of 18 bits at the rate asked for, rounded down, for each player. |
| Serial.NormalTimeIsExact | gpsp-master/serial.c:35-39 | Which starts are answered in normal mode, and how long they take: 8 or 32 bits at the adapter's two rates, 32 at that of the GB Player. |
| Serial.SerialPort.WriteControl | gpsp-master/serial.c:107-190 | The register word after a write; a transfer starts when asked for, with the duration of its mode, and a pending one is never restarted: starts minus completions is one exactly while the countdown runs. |
| Serial.SerialPort.Update | gpsp-master/serial.c:200-247 | The countdown goes down by the cycles passed unless the device holds it up; a completion clears the busy bit, changes nothing else but the data line, and yields the interrupt-enable bit in the two modes that do so; without a polled device, every completed transfer asks for an interrupt or none does. |
| Serial.OverWhenDue | gpsp-master/serial.c:218-227 | Whether a transfer is over depends on the cycles in all, not on how they are sliced. |
| Scheduler.VideoKeepsTime | gpsp-master/main.c:146-253 | One pass, also one whose slice goes back, accounts for every cycle of it, keeps an event ahead and the vertical blank bit set exactly from line 160 on. |
| Scheduler.VideoNeverDrifts | gpsp-master/main.c:146-253 | Over every paced run, 280896 cycles per frame to the cycle, 160 lines drawn and one vertical blank per frame; a count within its phase stays so. |
| Scheduler.VideoInterrupts | gpsp-master/main.c:146-203 | When a pass raises an interrupt, told from the registers before and after it: the vertical and horizontal blank interrupts when their bit goes from clear to set, that of the line comparison when the line changes to the one set; each only if enabled. The match bit says exactly that, and the line drawn is the next one. |
| Scheduler.InterruptsOncePerFrame | gpsp-master/main.c:146-253 | Over every paced run an enabled vertical blank interrupt comes once a frame, as often as the blank, that of the horizontal blank once a line on all 228, that of the line comparison once a frame if there is such a line; and none that is not enabled. |
| Scheduler.TimeGoesForwardIff | gpsp-master/main.c:128-147 | In 32-bit arithmetic the video count does not go up if and only if the caller has no more cycles left than it was given. |
| Scheduler.RangeSurvivesIff | gpsp-master/main.c:128-153 | After a round the count lies within its phase if and only if the caller hands back no more cycles than had gone of the phase when they were planned. |
| Scheduler.StartTimerThenHalt | gpsp-master/main.c:128-153 | A run that breaks both: start a short timer, halt, update. The first round leaves 1654 cycles of a phase of 960, and 704 cycles are never accounted for. |
| Scheduler.SleepThenWake | gpsp-master/main.c:263-285 | A run of updates, for any length of a sleep put in at the start: frame after frame goes by, and the CPU wakes when exactly that many cycles are accounted for. |
| Scheduler.WordDecodes | gpsp-master/main.h:83-84 | The two flags of the returned word are read back exactly, and the cycles to run up to their fifteen bits. |
| Scheduler.DebtFalls | gpsp-master/main.c:287-293 | A round of no cycles makes progress: timers at or below zero come nearer to counting. |
| Scheduler.Machine.AdvanceVideo | gpsp-master/main.c:146-253 | The code's branches compute the next phase of the video unit and its interrupts, which are the ones VideoInterrupts speaks of. |
| Scheduler.Machine.TriggerTimer | gpsp-master/gba_memory.c:242-287 | Starting a timer loads its period and lowers the cycles to run so that they still do not pass its overflow. |
| Scheduler.StartedRunsOut | gpsp-master/gba_memory.c:199-276 | A timer just started overflows after its steps, of 1, 64, 256 or 1024 cycles each by the selection written; a cascaded one counts carries instead. |
| Scheduler.Machine.WriteDispStat | gpsp-master/gba_memory.c:853-855 | A write sets the enables and the line to compare with, and leaves the three bits of the video unit as they were. |
| Scheduler.Machine.RaiseInterrupts | gpsp-master/cpu.cc:1412-1459 | Interrupts are flagged; one is taken exactly if unmasked, enabled and flagged, and wakes a halted or stopped CPU but not a sleeping one. |
| Scheduler.Machine.Plan | gpsp-master/main.c:263-292 | The cycles to run end at one of the events and pass none of them; a sleep begins to count, goes on or ends. |
| Scheduler.Machine.Round | gpsp-master/main.c:130-292 | One round as a whole: timers, serial port, video, sleep and plan; the flags grow by exactly the interrupts of this slice, and one is taken exactly if unmasked, enabled and flagged. |
| Scheduler.Machine.UpdateGba | gpsp-master/main.c:120-300 | For every caller, also one with more cycles left than it was given: the loop ends; a frame completes at most 64 cycles after its exact multiple of 280896; the slices are those of the timers and the video unit. A sleep of n cycles ends exactly n cycles after it began to count; every update plans no more cycles than a pending serial transfer has left, so over a run of updates it is at most 64 cycles late; the count stays in range exactly under the condition above. Cycles accounted for are those executed, withheld and idle, less those dropped, which grow exactly if a timer has lowered the cycles to run or the CPU runs over by more than 64. The interrupts flagged are those from before, those of the timers and the video unit over the slices, and that of the serial port if it asked for one. |
| Scheduler.Machine.KeepOn | gpsp-master/main.c:130-293 | The rounds after the first, while the CPU is halted, stopped or asleep: each goes on for the cycles planned, and they end. |
| CpuModes.SetModeKeepsViews | gpsp-master/cpu.cc:1380-1410 | Whatever the two modes, every mode keeps its own stack pointer and link register, user and system sharing one. |
| CpuModes.GoodForever | gpsp-master/cpu.cc:787-820 | Over every sequence of MSR, SWI, interrupts, returns, BX and changes of flags, on 32-bit words: bit 4 of CPSR and of every saved status is set, bits 8 to 27 are clear, and the mode is the one CPSR names. |
| CpuModes.ApplyKeepsGood | gpsp-master/cpu.cc:787-820 | Each of those operations keeps it: the words of the two mask tables, `(source & mask) | (old & ~mask)`, and the words written by SWI and interrupt entry. |
| CpuModes.CpsrMasksSpare | gpsp-master/cpu.cc:791-799 | No mask of the table allows bit 4 or bits 8 to 27; of the mode bits and the bits that mask interrupts, all are allowed in a privileged mode if the control field is written, and none otherwise; the Thumb bit is allowed with the control field, and the flags with the flags field. |
| CpuModes.UserKeepsControl | gpsp-master/cpu.cc:787-815 | In user mode no MSR changes the mode or the interrupt mask, whatever it writes, or any banked register; the CPU leaves user mode only for an interrupt that was not masked before. |
| CpuModes.ExtractedBack | gpsp-master/cpu.cc:567-575 | Flags collapsed into the word and extracted again are the same. |
| CpuModes.FlagsAreTopBits | gpsp-master/cpu.cc:567-574 | The four flags are bits 31 to 28 of the word, N, Z, C and V downwards. |
| CpuModes.ModesAreNumbered | gpsp-master/cpu.cc:1367-1373 | A well-formed status register names the mode with the number that section A2.5 of ARM DDI 0100 gives in bits 0 to 4, and the invalid mode exactly if no mode has it. |
| CpuModes.BxSwitches | gpsp-master/cpu.cc:2093-2107 | BX goes to the address without its lowest bit, and the CPU is in Thumb state afterwards if and only if that bit was set; no other bit or register changes. |
| CpuModes.DualAgreesIff | gpsp-master/cpu_threaded.c:2637-2649 | For BX, translated code takes the instruction set that the interpreter takes, and goes to the same address if and only if that is aligned for it. |
| CpuModes.SwiEntered | gpsp-master/cpu.cc:3046-3055 | A software interrupt starts at address 8 in ARM state with interrupts masked and fast ones as they were; supervisor mode sees the return address and the interrupted status, and every other view stays. |
| CpuModes.IrqEntered | gpsp-master/cpu.cc:1421-1446 | The handler starts at address 0x18 in ARM state with interrupts masked, and sees its return address and the interrupted status; every other view is unchanged. |
| CpuModes.NestedIrqLosesReturn | gpsp-master/cpu.cc:1431-1437 | After interrupt entry the handler sees its return address if and only if the CPU was not in interrupt mode already, or the link register held that address; in interrupt mode it goes to a bank the handler does not see. |
| CpuModes.InterruptIsTransparent | gpsp-master/cpu.cc:607-637 | Whatever a handler does, if it leaves link register, saved status and the interrupted mode's registers as it found them, SUBS pc, lr, #4 resumes the interrupted program exactly. |
| CpuModes.SwiIsTransparent | gpsp-master/cpu.cc:3046-3055 | The same for a software interrupt and MOVS pc, lr, from any mode but supervisor mode, in both instruction sets. |
| CpuModes.Cpu.SetCpuMode | gpsp-master/cpu.cc:1380-1410 | The swapping loops compute the mode change the lemmas are about. |
| CpuModes.Cpu.CheckAndRaise | gpsp-master/cpu.cc:1412-1446 | Takes an interrupt exactly if one is pending and not masked. |
| CpuModes.Cpu.StoreCpsr | gpsp-master/cpu.cc:787-815 | MSR stores the masked word, takes the flags from it, then changes the mode and checks for interrupts if the mask covers the control byte. |
| CpuModes.Cpu.SoftwareInterrupt | gpsp-master/cpu.cc:3046-3055 | SWI banks return address and status word and enters supervisor mode with interrupts masked. |
| CpuModes.Cpu.ExceptionReturn | gpsp-master/cpu.cc:619-637 | Restores the saved status and its mode, except in user and system mode. |
| CpuModes.Cpu.Execute | gpsp-master/cpu.cc:783-820 | The methods together compute the operations that the invariant is about, the collapse of the flags before them included, and keep it. |
| BlockTransfer.BitCount | gpsp-master/cpu.cc:25-39 | Every entry of the table of bit counts is the number of registers listed in that byte. |
| BlockTransfer.StoredWords | gpsp-master/cpu.cc:1027-1036 | Each listed register is in the word at the lowest address plus four per listed register below it, and no other word changes, wrap-around included. |
| BlockTransfer.LoadedWords | gpsp-master/cpu.cc:1027-1036 | Each listed register holds that word, and no other register changes. |
| BlockTransfer.AddressIsWord | gpsp-master/cpu.cc:1001-1003 | The code's lowest address is right: listed register number c goes to word c, upwards, of those from the base up, after it, below it, or up to it, by the addressing mode. |
| BlockTransfer.WordIsFilled | gpsp-master/cpu.cc:1001-1036 | Every word of that range belongs to a listed register. |
| BlockTransfer.StoreReaches | gpsp-master/cpu.cc:1001-1036 | For n listed registers a store changes no word outside [base, base + 4n), (base, base + 4n], [base - 4n, base) or (base - 4n, base], by the mode; each listed register is in its word, the program counter two instructions ahead; the base moves by 4n. |
| BlockTransfer.LoadReaches | gpsp-master/cpu.cc:1001-1036 | A load takes each listed register from the same word and writes no other but the base; memory stays. |
| BlockTransfer.LoadUndoesStore | gpsp-master/cpu.cc:988-1045 | For all four addressing modes and every list, even with a misaligned base, the opposite load brings back the listed registers and the base. |
| BlockTransfer.BaseStored | gpsp-master/cpu.cc:1015-1025 | A base in its own list is stored as it was if it is the lowest register, as updated otherwise. |
| BlockTransfer.PopUndoesPush | gpsp-master/cpu.cc:1047-1102 | PUSH with lr and POP with pc return to lr with its lowest bit clear, with registers and stack pointer back. |
| BlockTransfer.Cpu.ExecArm | gpsp-master/cpu.cc:988-1045 | The ARM loops compute the store and load that StoreReaches and LoadReaches speak of, with the order of write-back. |
| BlockTransfer.Cpu.ExecThumb | gpsp-master/cpu.cc:1047-1102 | So do the Thumb loops with their extra register; PUSH is such a store below the stack pointer. |
| UserTransfer.StoresUserRegisters | gpsp-master/cpu.cc:1007-1042 | STM with the S bit stores what user mode sees, whatever the current mode but FIQ, and leaves the mode and every mode's stack pointer and link register alone. |
| UserTransfer.LoadsUserRegisters | gpsp-master/cpu.cc:1007-1042 | LDM with the S bit and without pc gives user mode the listed registers; no other mode sees its stack pointer or link register change. |
| UserTransfer.Exec | gpsp-master/cpu.cc:1007-1045 | The code switches to user mode for the transfer and back, with the base address read before. |
| Bson.WordReadsBack | gpsp-master/savestate.h:29-40 | A number written in four bytes reads back. |
| Bson.LengthReadsBack | gpsp-master/savestate.c:37-42 | The length by which the reader skips a value of any type is its encoded length. |
| Bson.ElementLayout | gpsp-master/savestate.h:29-90 | Type byte, name, terminating zeroes and lengths of every element are those of bsonspec.org. |
| Bson.Find | gpsp-master/savestate.c:25-65 | For every nested document, and for every value that is none but is walked over as one: the walk finds the first field of a name within the length it starts from, its type, the position of its value and what a further walk from there sees; or tells that there is none. |
| Bson.IntoAt | gpsp-master/savestate.c:46-65 | Following a name without looking at its type leads to the fields of a document, the items of an array, nothing in a blob, and from a number to the fields after it. |
| Bson.WholeSeesAll | gpsp-master/savestate.c:30 | In a document the length hides no field: what is seen is the first field of the name. |
| Bson.ContainsKey | gpsp-master/savestate.c:25-44 | True exactly if the first field of that name has the type asked for. |
| Bson.FindKey | gpsp-master/savestate.c:46-65 | A position exactly if such a field is seen, and the encoding of its value is there. |
| Bson.ReadInt32 | gpsp-master/savestate.c:67-74 | Reads the number that the value of a field begins with, of whatever type: a number itself, and the length of anything else. |
| Bson.ReadInt32Array | gpsp-master/savestate.c:76-98 | Succeeds exactly if the length found there is that of an array of the size asked for, whatever the type; reads the words that follow, which for an array are its items; otherwise writes nothing. |
| Bson.ReadBytes | gpsp-master/savestate.c:100-113 | Succeeds exactly if the length found there is the one asked for, whatever the type; reads the bytes that follow, which for a blob are its data; otherwise writes nothing. |
| Bson.Writer.WriteInt32Array | gpsp-master/savestate.h:54-69 | Appends the encoding of the array, with an item's name made of its index. |
| Bson.Writer.WriteBytes | gpsp-master/savestate.h:71-77 | Appends the encoding of the blob. |
| Bson.Writer.StartDocument | gpsp-master/savestate.h:79-83 | Opens a document with its length left open. |
| Bson.Writer.FinishDocument | gpsp-master/savestate.h:85-90 | Closes it and fills the length in, leaving everything else. |
| Savestate.ContentReadsBack | gpsp-master/main.c:325-455 | Processor, scheduler and four timers are accepted and read back exactly from a document with anything of the other parts in between and after. |
| Savestate.CheckCpu | gpsp-master/cpu.cc:3603-3613 | For every document: accepts exactly if the four fields are seen under the name, with the right types. |
| Savestate.CheckMain | gpsp-master/main.c:325-360 | For every document: accepts exactly if the required fields of the scheduler and of each timer are seen under their names, as numbers. |
| Savestate.Emulator.WriteCpu | gpsp-master/cpu.cc:3625-3636 | Appends the encoding of the processor document, whatever was written before. |
| Savestate.Emulator.ReadCpu | gpsp-master/cpu.cc:3616-3624 | After the check, succeeds exactly if the arrays have the lengths of their destinations, and restores all of them; if not, what was read before stays. |
| Savestate.Emulator.WriteEmu | gpsp-master/main.c:422-435 | Appends the encoding of the scheduler document. |
| Savestate.Emulator.WriteTimers | gpsp-master/main.c:437-454 | Appends the nested documents of the four timers. |
| Savestate.Emulator.ReadMain | gpsp-master/main.c:362-420 | After the check, restores scheduler and timers, with the defaults for fields that older states lack. |
| Savestate.Emulator.SaveState | gpsp-master/savestate.c:166-199 | The buffer holds the encoding of one document with everything in it, of exactly 425984 bytes. |
| Savestate.Emulator.LoadState | gpsp-master/savestate.c:115-164 | For every document: loads exactly if size, magic number and version are right, all checks accept, the arrays fit and the other parts can be read; restores what is seen there. A state that is not accepted changes nothing. |
| Savestate.SavedStateLoads | gpsp-master/savestate.c:115-199 | A state saved from any arrays is accepted and gives back what was saved; it can be read if and only if the arrays have the lengths of their destinations. |
| Savestate.SaveThenLoad | gpsp-master/savestate.c:115-199 | One emulator saves, another loads the same bytes: it succeeds exactly if the other parts accept and read them, and then holds the same processor, scheduler and timers. |
| Savestate.ShortStateAccepted | gpsp-master/cpu.cc:3603-3624 | A concrete document of full size, with one saved status register too few, that both checks accept. |
| Savestate.LoadHalfway | gpsp-master/cpu.cc:3616-3624 | Loading it fails after every check has accepted it, with the registers overwritten. |
| Savestate.SavedIsDocument | gpsp-master/savestate.c:166-199 | The saved buffer is a document that the readers can search. |

## Left out

- The emitter headers and assembly stubs: emission appends any number of bytes within bounds, patching records a target; the machine code itself is open.
- Lookups that cross from one cache to the other: the closure theorem of the ROM cache assumes that no direct exit of ROM code leads to RAM, which `OnlyTheBiosMatters` reduces to branches of the BIOS. In the RAM cache a lookup in ROM is open, may come back any number of times and may fail; the code behind the entry it yields is not followed.
- RamCache.RamCache.LookupTranslate: what it says of the entry found later is for offsets other than zero, which the code itself takes for "not translated"; a block of RAM is one for a halfword, which all mirrors of the region share.
- The BIOS entry: its lookup at start-up is not modelled; the ROM cache starts with some entry for it, and its code below the watermark.
- Block headers as bytes of the code buffer: they are a map from offsets to records.
- Stores by the guest that hit tagged memory, and SMC tags at halfword precision where ARM and Thumb code share a word.
- The guard address 0x203FFFF0 in the scan, which lies outside external RAM's usual mirror, is kept as the code has it; the region check of the scan and page loading are left out.
- Cheats, translation of single instructions, cycle counting inside blocks and register allocation.
- Memory accesses and software interrupts of the Thumb interpreter are arbitrary functions of opcode and state that touch no flag.
- ThumbFlags.RorReg: a rotation by 32 or more, which the code leaves to the host's shift, takes the amount modulo 32.
- Timer data registers, sound channels and frequency steps: an overflow that feeds sound may take any number of cycles. DMA transfers and device updates are taken not to write timer or video registers.
- Scheduler.Machine.UpdateGba: assumes that the cycles handed back do not take the video count past 2^30, where the returned word would run into its flags; that is about a minute of emulated time.
- The display status register is a record of the fields that matter; rendering, sound and cheats are not part of this model.
- Serial.SerialPort.WriteControl: the data exchanged, the protocol emulations, the RFU module and the GB Player sequence are left out; the status bits of multiplayer mode are for player numbers that fit their field. The write to RCNT is left out.
- Registers r8 to r12 of fast interrupt mode: the code does not bring them in when that mode is entered, unlike its comment; nothing is claimed about them. The invalid mode has no saved status register and operations on it are excluded.
- BlockTransfer.Cpu.ExecArm: does not model cycles and alerts; memory is plain RAM, without mirrors and I/O.
- UserTransfer.Exec: does not restore the status register after a load of the program counter; that step alone is CpuModes.Cpu.ExceptionReturn.
- Bson.Find: is about documents of well-formed fields, with names free of zero bytes and arrays of fewer than 2080 items; what the readers do with malformed bytes is left out.
- Bson.ReadInt32Array: requires the bytes that the length claims to be in the buffer; the code would read past it. The same goes for Bson.ReadBytes.
- Savestate.Emulator.LoadState: the checks and readers of input, memory and sound are arbitrary answers, and what they restore is left out, as are the palette conversion and the flush of the caches after loading.
- Memory map, colour conversion, netplay, instrumentation and the front ends: data or I/O.
