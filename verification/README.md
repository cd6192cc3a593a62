# Proofs about the course projects

Models of the algorithmic cores of this repository and proofs about them, in Dafny:

- the pipelined Y86-64 processor of lab7 and the instruction set it implements (`Y86*`, `Pipe*`);
- the memory allocator of lab9 (`HeapLayout`, `HeapBlocks`, `Malloc`);
- the Huffman coder with two-character keys (`Huffman*`, `BitPacking`);
- the LRU cache simulator of lab8 (`CacheSpec`, `CacheSim`);
- linear-time selection by medians of medians (`SelectSpec`, `Select`);
- the left-leaning red-black set of lab1 (`Llrb`, `LlrbSet`) and the red-black tree with parent
  pointers of hw5 (`RbShape`, `RbInsert`);
- the compressed radix tree of lab1 against the plain one (`Radix*`, `PlainRadix`, `Compressed*`);
- the key-value store on log-structured merge levels, from skip list to compaction (`SkipList`, `Lsm*`);
- the translation of HCL expressions to C (`CText`, `Hcl*`).

Pure code is modelled by functions; code that updates objects, arrays or linked nodes in place by
classes and methods, each proved against a function or a specification on values. What the
sources promise is then proved of those specifications, for all inputs and all runs.

`dafny verify dfyconfig.toml` checks everything.

## How the models are read

**Pipeline.** `Y86State.StateRec.Step` is step_state; `Y86Isa.StepState` is its meaning on values, and
`Y86Effects` says what instructions do by their bytes, without the functions that execute them.
`PipeStd` holds the control functions of pipe-std.c and `PipeMachine.Cycle` one clock edge.
`PipeSchedule` describes which instruction is in which stage without looking at data, so that
timing and contents are proved apart and joined in `PipeCorrect`. `PipeSim.Psim` is the simulator
with its pending updates and current and next pipeline registers; `PipeLimit.Step` is what one of its
steps does under a limit, seen on values.

**Allocator.** The heap is an array indexed by byte offset, with one number at the offset of each
4-byte word. The blocks and the ranks of the listed ones are ghost state; `Valid` says that the
boundary tags tile the heap, that the fifteen lists hold exactly the free blocks, and that no two
free blocks are adjacent.

**Key-value store.** A table is its entries, header fields and filter bytes; a level is a property
of a file. `Shown` is the entry a reader should see in the levels, `View` the value of a key in the
whole store. The hash function is an arbitrary parameter. `LsmRuns.Reachable` describes the states
that calls of save reach from the empty store. It leaves the order open in which the candidates of a
compaction are merged; this matters only for candidates with equal times and a key in common, and
no step of the run in `LsmStale` has any. `LsmSteps` and `LsmPieces` hold the steps of that run and the
merges in it.

**Radix trees.** `CompressedRadix` has the operations as recursive functions on digits,
`CompressedTree` the loops over bit positions of the source. `RadixHistory` runs both kinds of tree
on the same operations.

**HCL.** `HclGen` builds the node trees as node.c does, chains included, and prints them as tokens.
`CText` is a parser for the C expressions that occur. `HclLex` splits characters into tokens,
`HclWidth` measures the lines, and `HclTypes` tells what the checks accept by types alone.

## Where the code and its description differ

The models follow the code.

- sim_run_pipe is described as returning the number of instructions executed. gen_Stat turns a
  bubble into AOK, so every cycle counts (`PipeSim.Psim.SimRunPipe`), and an instruction limit is
  in fact a limit on cycles. When a limit stops the run before a halt is in write-back, the registers of
  the pipeline are at least five instructions behind (`PipeLimit.WrittenIsBehind`), and the check against
  the ISA simulator can fail (`PipeSim.RunTtySim`, `PipeLimit.LimitMakesCheckFail`).
- mem_sbrk takes an int: a request whose block size needs more than 31 bits reaches it as another
  number (`Malloc.SbrkArgumentIsExact`). A negative one is refused; otherwise the heap grows by too
  little, and a block that is smaller than the request is handed out (`Malloc.Heap.Malloc`).
- mm_realloc copies as many bytes as are requested, past the end of the old block
  (`Malloc.CopySizeIsRequest`); the old payload arrives all the same (`Malloc.Heap.Realloc`).
  A request of zero bytes keeps the block.
- A Huffman tree with one key has an empty code, so the text is lost
  (`HuffmanCoder.OneKeyLosesTheText`) and its table cannot be read back if the key is one character
  (`HuffmanCoder.TableTextRoundTripIff`). A chosen pair that the tokeniser never takes still gets a
  code, at a cost (`HuffmanText.MinimalForUsedKeysIff`, `HuffmanText.UnusedPairIsNotMinimal`).
- getOffsetFromSSTable promises the newest offset. Compaction gives each table that it writes the
  time of its newest entry, so tables can have equal times; tables keep their times when they move
  down, and the lookup takes the first of the newest tables in the list. So an older entry can be found
  (`LsmLevels.LookupIsVersionIff`), already after calls of put and save, which is public
  (`LsmStale.SavesMakeLookupStale`).
- put of an empty value is not seen while it is in the memtable: get goes on to the levels and may
  return an older value. Once the memtable is written out the key has no value (`LsmKv.Kv.Put`).
- node.c joins the arms of cases and the elements of sets with the same pointer, so some sets of
  cases are printed wrongly (`HclMeaning.TextIsMeantIff`), Boolean operators are printed as bitwise
  ones (`HclMeaning.TruthIsKeptIff`), elements of sets are never checked
  (`HclMeaning.AcceptedIsKeptIff`) and numerals with a leading zero become octal
  (`CText.NumeralReadsSameIff`).
- Numerals are printed past the line wrapper and its counter. `HclWidth.FunctionFitsIff` says exactly
  when the lines of a function stay within the last column all the same, and
  `HclText.ComparisonPassesColumn` gives one with a line of 77 characters.

## Model

| member | source | states |
|---|---|---|
| Y86Isa.OverflowFlagIsExact | icslabs/lab7/sim/misc/isa.c:482-515 | after an addition or a subtraction the overflow flag is set if and only if the exact signed result does not fit a 64-bit word |
| Y86Isa.ConditionsCompareSigned | icslabs/lab7/sim/misc/isa.c:590-611 | after `subq a, b` each of the six conditions holds exactly when b compares with a that way as signed integers, also when the subtraction overflows |
| Y86Isa.StoredWordIsReadBack | icslabs/lab7/sim/misc/isa.c:310-343 | a word stored little-endian at any address is read back from it, and no other byte of memory changes |
| Y86Effects.AndIsBitwise | icslabs/lab7/sim/misc/isa.c:470-472 | bit k of the and is set if and only if it is set in both words, for every k |
| Y86Effects.XorIsBitwise | icslabs/lab7/sim/misc/isa.c:473-475 | bit k of the exclusive or is set if and only if it is set in exactly one of the words, for every k |
| Y86Effects.AluValueIsUnique | icslabs/lab7/sim/misc/isa.c:460-480 | these bits, or the sum or difference modulo 2^64, determine the word |
| Y86Effects.AluInstruction | icslabs/lab7/sim/misc/isa.c:792-805 | addq, subq, andq and xorq, told by their bytes, leave that word in the second register (and the codes after them 0), the flags zero and sign of it and overflow of the exact sum or difference, and nothing else changes |
| Y86Effects.CompareAndJump | icslabs/lab7/sim/misc/isa.c:590-623 | subq and then a jump: taken exactly if the second operand compares with the first as the code of the jump says, as signed numbers |
| Y86Effects.CompareAndMove | icslabs/lab7/sim/misc/isa.c:590-623 | subq and then a conditional move: done exactly under the same comparison |
| Y86Effects.UnconditionalIsAlways | icslabs/lab7/sim/misc/isa.c:597-600 | whatever the flags are, jmp is taken and rrmovq is done |
| Y86Effects.WordIsLittleEndian | icslabs/lab7/sim/misc/isa.c:310-323 | a word read from memory is the number of its eight bytes, lowest first, modulo 2^64 |
| Y86Effects.WithoutOperands | icslabs/lab7/sim/misc/isa.c:677-682 | halt stops with the state as it is, nop advances, and first half-bytes above 12 are no instruction |
| Y86Effects.ConstantInstruction | icslabs/lab7/sim/misc/isa.c:709-732 | irmovq puts the constant behind it into the register; iaddq adds it, with the flags of addq |
| Y86Effects.StoreLoadMoves | icslabs/lab7/sim/misc/isa.c:733-791 | rmmovq and then mrmovq of one address move a register into another and change eight bytes of memory |
| Y86Effects.CallReturns | icslabs/lab7/sim/misc/isa.c:824-859 | call of a place where ret stands comes back behind the call with all registers and flags as they were |
| Y86Effects.PushPopMoves | icslabs/lab7/sim/misc/isa.c:860-908 | pushq and then popq move a register into another and leave rsp where it was |
| Y86Effects.IncompleteInstruction | icslabs/lab7/sim/misc/isa.c:643-675 | which instructions stop because they are not all in memory or name no register, with which status each, and that they change nothing |
| Y86Effects.PushOutside | icslabs/lab7/sim/misc/isa.c:824-846 | call and pushq with a stack address outside memory report it with rsp already moved |
| Y86Effects.PopOutside | icslabs/lab7/sim/misc/isa.c:847-908 | so does popq, and ret with nothing changed |
| Y86Effects.DataOutside | icslabs/lab7/sim/misc/isa.c:733-791 | rmmovq and mrmovq with an address outside memory change nothing |
| Y86Effects.StartFlagsAreEqual | icslabs/lab7/sim/misc/isa.c:532-541 | the flags that a machine starts with are those of two equal operands |
| Y86State.GetWord | icslabs/lab7/sim/misc/isa.c:310-323 | the byte loop reads the word as a signed little-endian value and fails exactly when one of its eight bytes is outside memory |
| Y86State.SetWord | icslabs/lab7/sim/misc/isa.c:333-343 | the byte loop stores the eight bytes of the word, or changes nothing and fails |
| Y86State.StateRec.Step | icslabs/lab7/sim/misc/isa.c:627-943 | the imperative step, instruction by instruction, leaves the state and returns the status that the instruction semantics gives for the old state, faults included |
| PipeMachine.ControlNeverConflicts | icslabs/lab7/sim/pipe/pipe-std.c:218-285 | whatever the five pipeline registers hold, no register is told to stall and to bubble in the same cycle, so P_ERROR never arises |
| PipeMachine.FetchReports | icslabs/lab7/sim/pipe/psim.c:1387-1437 | a fetch reports an address error exactly if the byte at pc or the one five further is missing, then first half-bytes above 11, then a halt |
| PipeMachine.MemoryReports | icslabs/lab7/sim/pipe/psim.c:1537-1590 | the memory stage adds an address error exactly for the six instructions that use memory and an address outside, and reads 0 then |
| PipeContents.FetchIsIsaDecode | icslabs/lab7/sim/pipe/psim.c:1387-1437 | for a supported state the fetch stage extracts the fields that step_state decodes |
| PipeContents.StagesImplementStep | icslabs/lab7/sim/pipe/pipe-std.c:9-216 | one instruction alone, taken through fetch, decode, execute, memory and write-back, writes what step_state writes and continues at the same pc |
| PipeContents.ForwardIsCurrent | icslabs/lab7/sim/pipe/pipe-std.c:98-118 | with older instructions in W, M and E, the forwarding network gives decode the value the register has once all of them are complete, unless the one in E is a load of that register |
| PipeSchedule.ShapeIsKept | icslabs/lab7/sim/pipe/pipe-std.c:218-285 | stalls, squashes and waiting for a return keep the rule which slots may follow an instruction that redirects fetching |
| PipeSchedule.WhenAdvances | icslabs/lab7/sim/pipe/pipe-std.c:218-285 | a clock defined by instruction numbers and hazards alone moves by exactly one in every cycle of the pipeline control |
| PipeSchedule.ScheduleIsOnTime | icslabs/lab7/sim/pipe/pipe-std.c:218-285 | up to the halt, the instruction that each stage holds in cycle t is the one this clock prescribes |
| PipeSchedule.LeavesCounts | icslabs/lab7/sim/pipe/pipe-std.c:218-285 | instruction i leaves decode after i + 1 cycles plus one per load/use pair, two per mispredicted jump and three per return before it, at most three lost cycles per instruction |
| PipeCorrect.FetchHolds | icslabs/lab7/sim/pipe/pipe-std.c:9-14 | an instruction fetched on the right path is the next one of the ISA run, after mispredicted jumps and returns too |
| PipeCorrect.DecodeHolds | icslabs/lab7/sim/pipe/pipe-std.c:98-118 | a right-path instruction that is not stalled leaves decode with the operands that the ISA run gives it |
| PipeCorrect.LoadUseIsScheduled | icslabs/lab7/sim/pipe/pipe-std.c:232-237 | the load/use stall is raised exactly when the instructions in E and D are consecutive on the right path and the second reads what the first loads |
| PipeCorrect.CycleKeepsHolds | icslabs/lab7/sim/pipe/psim.c:687-743 | one clock edge keeps the correspondence of registers, memory, condition codes and all five pipeline registers with the ISA run |
| PipeCorrect.EveryCycleCorresponds | icslabs/lab7/sim/pipe/psim.c:687-743 | in every cycle up to the halt, of terminating and non-terminating programs, the pipeline stores exactly what the ISA run prescribes for the scheduled occupancy |
| PipeCorrect.PipelineImplementsIsa | icslabs/lab7/sim/pipe/psim.c:687-773 | when step_state halts as its n-th instruction, the pipeline has that halt in write-back after n + 3 + lost cycles and not earlier, with the registers, memory and condition codes of the ISA run |
| PipeCorrect.LastEdges | icslabs/lab7/sim/pipe/psim.c:691-696 | memory is final one edge before the halt is in write-back and the condition codes two, so updates withheld near the limit change nothing |
| PipeCorrect.NopsQualify | icslabs/lab7/sim/pipe/psim.c:687-743 | for every n that fits there is a program of n instructions that meets the conditions of PipelineImplementsIsa |
| PipeSim.Psim.UpdateState | icslabs/lab7/sim/pipe/psim.c:597-648 | the pending register writes are done, memory result last, and the memory and condition-code updates are done exactly when their flags are set |
| PipeSim.Psim.DoStallCheck | icslabs/lab7/sim/pipe/psim.c:1594-1604 | each pipeline register gets the operation of the control logic, and none gets P_ERROR |
| PipeSim.Psim.SimStepPipe | icslabs/lab7/sim/pipe/psim.c:687-743 | the machine makes one step under the limit that is left: the clocked state becomes the pending one without the updates that the limit withholds, the new pending state is one cycle further, and withheld condition codes stay pending |
| PipeLimit.FarFromLimit | icslabs/lab7/sim/pipe/psim.c:687-743 | up to the last two steps before the limit a machine that starts idle runs as if there were no limit |
| PipeLimit.LimitReached | icslabs/lab7/sim/pipe/psim.c:687-773 | when the limit is reached, every register write has been done; memory is one edge behind if write-back was busy in the cycle before; the condition codes are one or two edges behind, depending on how busy it was in the two cycles before |
| PipeLimit.ShownAtLimit | icslabs/lab7/sim/pipe/psim.c:755-773 | when a limit stops a program before any halt is in write-back, registers, memory and condition codes are those of three ISA states, each given by the instructions that have passed its stage in the last cycles |
| PipeLimit.LimitIsPrecise | icslabs/lab7/sim/pipe/psim.c:687-702 | if write-back held instructions in both cycles before the last one, the three are one and the same ISA state |
| PipeLimit.WrittenIsBehind | icslabs/lab7/sim/pipe/psim.c:755-773 | a limit of L lets at most L - 5 instructions write their registers |
| PipeLimit.ShownAtHalt | icslabs/lab7/sim/pipe/psim.c:755-773 | in the first cycle that has a halt in write-back the registers, memory and condition codes are those of the ISA state that halts, and the two edges before it change none that can be withheld |
| PipeLimit.HaltedByIff | icslabs/lab7/sim/pipe/psim.c:755-773 | a program that halts as its n-th instruction has the halt in write-back before the limit if and only if the limit is at least n + 4 + lost cycles |
| PipeSim.Psim.SimRunPipe | icslabs/lab7/sim/pipe/psim.c:755-773 | for every machine and all limits: as many steps are made as the returned count says, none but the last reports anything but AOK, and without such a report one of the limits is reached; the count is the number of cycles |
| PipeSim.RunTtySim | icslabs/lab7/sim/pipe/psim.c:181-281 | for every supported program, halting or not, and every limit, the comparison with the ISA simulator succeeds if and only if a halt is in write-back before the limit or the three ISA states shown agree, each in its part, with the state that the ISA simulator has reached |
| PipeLimit.LimitMakesCheckFail | icslabs/lab7/sim/pipe/psim.c:224-276 | popq and a halt under the limit 1: the ISA simulator has popped, the pipeline has not, and the check fails |
| HeapLayout.LowerClassIsSmaller | icslabs/lab9/mm.c:121-130 | a block of a lower size class than a request is too small for it, so the search may start at the class of the request |
| HeapLayout.ClassIsRange | icslabs/lab9/mm.c:112-130 | the classes hold the sizes 8, 16, 24 to 32, 40 to 64 and so on, each twice as far as the one before, and the last one all others |
| HeapLayout.UnlinkKeepsLinks | icslabs/lab9/mm.c:132-140 | deleteBlock takes the block off its list and leaves every other block listed, in order and linked both ways |
| HeapLayout.PushKeepsLinks | icslabs/lab9/mm.c:141-152 | insertBlock puts the block at the head of its list and leaves all lists linked both ways |
| HeapLayout.FreeListsAreExact | icslabs/lab9/mm.c:132-152 | following a list from its head meets every free block of its size class exactly once, nothing else, and ends |
| HeapBlocks.SplitTiles | icslabs/lab9/mm.c:189-209 | cutting a block leaves boundary tags by which the blocks tile the heap, forwards and backwards |
| HeapBlocks.MergeTiles | icslabs/lab9/mm.c:289-317 | joining a block with its successor leaves boundary tags by which the blocks tile the heap |
| HeapBlocks.ExtendTiles | icslabs/lab9/mm.c:274-287 | a block appended at the break extends the tiling to the new break |
| HeapBlocks.CoalescedAfterMerge | icslabs/lab9/mm.c:289-317 | joining removes the seam: afterwards no two free blocks are adjacent except next to the block at hand |
| HeapBlocks.BlocksPartition | icslabs/lab9/mm.c:189-209 | every offset between the list heads and the break lies in exactly one block |
| HeapBlocks.LivePayloadsAreDisjoint | icslabs/lab9/mm.c:236-288 | payloads handed out are 8-byte aligned, inside the heap and pairwise disjoint |
| Malloc.SbrkArgumentIsExact | icslabs/lab9/mm.c:274-276 | the heap grows by the size the new block needs if and only if that size fits the int parameter of mem_sbrk |
| Malloc.SbrkArgumentOtherwise | icslabs/lab9/mm.c:274-276 | any other size reaches mem_sbrk as a negative number, which it refuses, or as a multiple of eight that is smaller than the request |
| Malloc.NewSizeIs | icslabs/lab9/mm.c:174-187 | a block takes its request rounded up to eight and eight bytes of tags; requests of 112, 448, 512 and 4096 get 16, 64, 128 and 8 more |
| Malloc.SbrkArgumentIsLow | icslabs/lab9/mm.c:270-271 | what reaches the int parameter is the size modulo 2^32, between -2^31 and 2^31 |
| Malloc.HugeRequestIsTruncated | icslabs/lab9/mm.c:274-276 | a request of 4 GiB makes the heap grow by eight bytes |
| Malloc.Heap.constructor | icslabs/lab9/mm.c:219-235 | after mm_init there are no blocks, all lists are empty and the heap invariant holds |
| Malloc.Heap.DeleteBlock | icslabs/lab9/mm.c:132-140 | the block is off its list, all other blocks, lists and live payloads are in order and unchanged |
| Malloc.Heap.InsertBlock | icslabs/lab9/mm.c:141-152 | the block is searched before all others of its class, which keep their order, and every live payload is unchanged |
| Malloc.Heap.FindAvailableBlock | icslabs/lab9/mm.c:153-173 | NULL exactly if no free block is large enough; otherwise a free block that fits, taken off its list, and every free block met before it is too small |
| Malloc.Heap.PlaceBlock | icslabs/lab9/mm.c:189-209 | the block becomes live, whole if less than 16 bytes would be left and else cut to the request, with the rest free and first in its class; no other payload changes |
| Malloc.Heap.Malloc | icslabs/lab9/mm.c:236-288 | the lists are searched before the heap grows: if a free block fits, the first one in search order is handed out, whole or split, and the break stays; with the search switched off none is. The block is new and overlaps no live one, live payloads are unchanged and no two free blocks adjacent; it is as large as the request exactly if it comes from the lists or the size reaches mem_sbrk unchanged; NULL means that mem_sbrk refuses and nothing changed; the flag is set exactly by a call that asks for more heap |
| Malloc.Heap.CoalescePrev | icslabs/lab9/mm.c:289-306 | a freed block is joined with a free block in front of it, if there is one |
| Malloc.Heap.Free | icslabs/lab9/mm.c:319-338 | exactly this block stops being live, no live payload changes, and no two free blocks are adjacent; the free block that now holds it is first in its class and the others keep their order; a block that is free already is left alone |
| Malloc.Heap.CoalesceBack | icslabs/lab9/mm.c:339-356 | a used block that has a free successor becomes as large as both and eight bytes more, otherwise nothing changes; all payloads stay |
| Malloc.Heap.ReallocInPlace | icslabs/lab9/mm.c:357-380 | the block swallows a free successor exactly if the flags say so, nothing else moves, the new flags follow from how tightly it fits, and the result says whether it fits |
| Malloc.CopySizeIsRequest | icslabs/lab9/mm.c:387-390 | the size_t read in front of a block contains its header in the upper half, so the whole request is copied and not the old payload only |
| Malloc.CopySizeCovers | icslabs/lab9/mm.c:387-390 | whatever stands in front of the old block, at least its payload and at most the request is copied |
| Malloc.Heap.Realloc | icslabs/lab9/mm.c:357-395 | the block is returned exactly if it fits after such growing; otherwise a new block fits, starts with the old payload, and the old one is given back; or NULL, and the old block is untouched; other payloads never change |
| HuffmanTree.TopIsSmallest | Advanced-Data-Structure/Lab0.handout/hftree.h:50-61 | the queue pops the node with the smallest count, ties broken by the smallest text, whatever order it keeps inside |
| HuffmanTree.TreeDependsOnLeavesOnly | Advanced-Data-Structure/Lab0.handout/hftree.cpp:66-73 | the tree depends on the leaves only and not on how the priority queue arranges its nodes |
| HuffmanOrder.LexLessIff | Advanced-Data-Structure/Lab0.handout/hftree.h:50-53 | a text is smaller exactly if it begins like the other and then ends or goes on with the smaller character |
| HuffmanOrder.BuildPutsSmallerLeft | Advanced-Data-Structure/Lab0.handout/hftree.h:30-48 | at every inner node of the tree the left side counts less than the right one, or as much and some text of it comes before all texts of the right side |
| HuffmanOrder.BitTellsSide | Advanced-Data-Structure/Lab0.handout/hftree.cpp:88-109 | the bit of a code at the place of an inner node is 0 exactly for the texts on its left side |
| HuffmanOrder.AabIs | Advanced-Data-Structure/Lab0.handout/hftree.cpp:36-77 | the text aab: b has the code 0 and a the code 1, the bits are 110, and the compressed bytes are 3, seven zeros and 0xC0 |
| HuffmanOptimal.PrefixFreeFits | Advanced-Data-Structure/Lab0.handout/hftree.cpp:93-109 | Kraft's inequality for every prefix-free list of codes |
| HuffmanOptimal.GreedyIsMinimal | Advanced-Data-Structure/Lab0.handout/hftree.cpp:66-73 | the merge loop adds up no more than count times length for any code lengths that meet Kraft's inequality |
| HuffmanOptimal.MergeIsOptimal | Advanced-Data-Structure/Lab0.handout/hftree.cpp:66-73 | the merge loop adds up no more than the total of any prefix-free code for the queued nodes |
| HuffmanCode.TableIsPrefixFree | Advanced-Data-Structure/Lab0.handout/hftree.cpp:93-109 | the table has a code for exactly the leaf texts, and no code is a prefix of another one |
| HuffmanCode.BuildOfLeaves | Advanced-Data-Structure/Lab0.handout/hftree.cpp:58-73 | the finished tree has exactly the queued leaves, each once |
| HuffmanCode.TotalOfTable | Advanced-Data-Structure/Lab0.handout/hftree.cpp:93-109 | the total of count times code length is the sum of the inner node weights |
| HuffmanCode.TableIsOptimal | Advanced-Data-Structure/Lab0.handout/hftree.cpp:58-77 | the table is a prefix-free code for the queued texts and no prefix-free code for them has a smaller total |
| HuffmanText.TokensSpellText | Advanced-Data-Structure/Lab0.handout/hftree.cpp:43-56 | the tokens put together are the text, and each is one character or a chosen pair |
| HuffmanText.TokensAreGreedy | Advanced-Data-Structure/Lab0.handout/hftree.cpp:43-56 | a token has two characters exactly if the two that follow the tokens before it are a chosen pair |
| HuffmanText.TableGivesSameTokens | Advanced-Data-Structure/Lab0.handout/utils.h:98-111 | compress, which looks pairs up in the finished table, cuts the text as the constructor did when it counted |
| HuffmanText.LengthIsTotal | Advanced-Data-Structure/Lab0.handout/utils.h:117-126 | the number of bits written is the total of count times code length |
| HuffmanText.CompressionIsMinimal | Advanced-Data-Structure/Lab0.handout/utils.h:88-143 | with the built table the text takes no more bits than with any prefix-free code for the same keys |
| HuffmanText.MinimalForUsedKeysIff | Advanced-Data-Structure/Lab0.handout/hftree.cpp:35-64 | judged on the tokens that occur, the built table is minimal if and only if no key has count zero; a chosen pair that the tokeniser never takes costs bits |
| HuffmanText.UnusedPairIsNotMinimal | Advanced-Data-Structure/Lab0.handout/hftree.cpp:35-64 | with the overlapping pairs ab and bc chosen, the text abc never uses bc, and some prefix-free code for its tokens takes fewer bits than the built table, for every order of the queue |
| HuffmanText.DecodeUndoesEncode | Advanced-Data-Structure/Lab0.handout/hftree.cpp:93-109 | walking the tree along the bits gives back the tokens |
| HuffmanFormat.LengthIsReadBack | Advanced-Data-Structure/Lab0.handout/utils.h:134-142 | the length in front, written lowest byte first, is read back if it fits the bytes |
| HuffmanFormat.UnpackedPacked | Advanced-Data-Structure/Lab0.handout/utils.h:117-142 | the bits are read back from the bytes, the padding of the last byte left out |
| HuffmanFormat.EntryIsReadBackIff | Advanced-Data-Structure/Lab0.handout/utils.h:69-85 | a table line is read back if and only if it is not a single character with an empty code |
| HuffmanFormat.LoadUndoesRender | Advanced-Data-Structure/Lab0.handout/utils.h:54-86 | loading a table whose lines are all readable gives the table back |
| HuffmanFormat.LastLineNeedsNoBreak | Advanced-Data-Structure/Lab0.handout/utils.h:68-85 | the break behind the last line of a table may be missing |
| HuffmanFormat.LoneCharacter | Advanced-Data-Structure/Lab0.handout/utils.h:68-85 | a character with nothing behind it is stored together with the terminator |
| HuffmanCoder.CountTokens | Advanced-Data-Structure/Lab0.handout/hftree.cpp:43-56 | the loop counts the tokens of the text and keeps the chosen pairs with their counts, zero included |
| HuffmanCoder.PushLeaves | Advanced-Data-Structure/Lab0.handout/hftree.cpp:59-64 | the queue gets one leaf with its count per key |
| HuffmanCoder.MergeAll | Advanced-Data-Structure/Lab0.handout/hftree.cpp:66-73 | the loop leaves the one tree that the merge rounds define |
| HuffmanCoder.HfTree.constructor | Advanced-Data-Structure/Lab0.handout/hftree.cpp:9-77 | for a text that is not empty, the root is the tree of its token counts, with the smaller side of every node on the left, and codingTable is its table |
| HuffmanCoder.HfTree.AddTable | Advanced-Data-Structure/Lab0.handout/hftree.cpp:93-109 | the recursion with one growing and shrinking code string enters the codes of exactly this subtree and restores the string |
| HuffmanCoder.WriteCode | Advanced-Data-Structure/Lab0.handout/utils.h:117-126 | the inner loop appends the bits of one code, whole bytes going to the output |
| HuffmanCoder.Compress | Advanced-Data-Structure/Lab0.handout/utils.h:88-143 | the output is the packed encoding of the tokens behind its bit count |
| HuffmanCoder.CompressionIsLossless | Advanced-Data-Structure/Lab0.handout/utils.h:88-143 | with at least two keys and a bit count that fits eight bytes, the tree decodes the compressed data to the text |
| HuffmanCoder.OneKeyLosesTheText | Advanced-Data-Structure/Lab0.handout/hftree.cpp:93-99 | with one key its code is empty, and texts of every length compress to zero bits |
| HuffmanCoder.CodingTable2String | Advanced-Data-Structure/Lab0.handout/utils.h:45-52 | the string holds one line per entry of the table, each exactly once |
| HuffmanCoder.LoadCodingTable | Advanced-Data-Structure/Lab0.handout/utils.h:69-85 | the reading loop computes the entry-by-entry reading of the whole content |
| HuffmanCoder.TableTextRoundTripIff | Advanced-Data-Structure/Lab0.handout/utils.h:45-86 | the table of a tree over one- and two-character keys survives writing and loading if and only if the tree is not a single character |
| CacheSpec.HitIffRecentlyUsed | icslabs/lab8/csim.c:100-121 | in the list kept by recency a tag is among the first E if and only if it was used before and fewer than E different tags have been used since |
| CacheSpec.SetsHoldMostRecent | icslabs/lab8/csim.c:96-122 | after any trace every set holds its most recently used tags, as many as it has lines |
| CacheSpec.HitsExactly | icslabs/lab8/csim.c:96-122 | at the end of any trace a reference hits exactly when its tag was used and fewer than E others of its set since |
| CacheSpec.CountersAddUp | icslabs/lab8/csim.c:96-122 | hits and misses add up to the references, and the misses that evict nothing to the lines filled |
| CacheSpec.MoreLinesNeverHurt | icslabs/lab8/csim.c:96-122 | on any trace a cache with more lines per set holds all that the smaller one holds, with no fewer hits and no more misses or evictions |
| CacheSpec.SplitNamesTheBlock | icslabs/lab8/csim.c:208-213 | set and tag together are the block number of the address, so different blocks are never confused |
| CacheSpec.ModifyHitsAgain | icslabs/lab8/csim.c:124-130 | the second reference of a modify always hits |
| CacheSpec.CountersOfTrace | icslabs/lab8/csim.c:191-262 | hits and misses add up to the L and S lines and twice the M lines of the trace, with a hit for every M line; other lines count nothing |
| CacheSim.CacheSet.LoadOrStore | icslabs/lab8/csim.c:96-122 | the loops over lines and times report and do exactly what the recency list says: hit, fill a free line, or evict the least recently used tag |
| CacheSim.Mem.Modify | icslabs/lab8/csim.c:124-130 | two references to the same block; the sum returned is the outcome of the first one |
| CacheSim.Simulate | icslabs/lab8/csim.c:191-262 | hits, misses and evictions of the whole trace are those of the recency specification, and hits and misses add up to the references of its lines |
| SelectSpec.RankIsUnique | Advanced-Data-Structure/hw7/select.cpp:81-106 | there is only one value of each rank, duplicates included |
| SelectSpec.MedianOfMediansIsGood | Advanced-Data-Structure/hw7/select.cpp:52-78 | the element of rank m/2 of the m medians has at least three tenths of the elements, up to the short groups, on each side |
| SelectSpec.LowerSide | Advanced-Data-Structure/hw7/select.cpp:97-98 | the part below the pivot is never larger than about seven tenths, whatever the elements are |
| SelectSpec.UpperSide | Advanced-Data-Structure/hw7/select.cpp:101-104 | of distinct elements the part kept above the pivot is that small too |
| SelectSpec.RoundFits | Advanced-Data-Structure/hw7/select.cpp:84-105 | one round on n elements with its recursive call and the remaining part stays within the work bound |
| Select.Reorder | Advanced-Data-Structure/hw7/select.cpp:31-42 | the window is permuted with smaller elements in front, then the pivot, and nothing smaller behind; the rest of the array is untouched |
| Select.CountParts | Advanced-Data-Structure/hw7/select.cpp:43-49 | L counts the elements below the pivot; E counts equal ones behind it, at least one unless the pivot stands last |
| Select.Partition | Advanced-Data-Structure/hw7/select.cpp:31-50 | the window is permuted so that its first L elements are below the pivot, the next E equal it and the rest are not below it |
| Select.MedianOfMedians | Advanced-Data-Structure/hw7/select.cpp:52-78 | the result is a good pivot of the window; on distinct elements it is found by sorting each element once in its group of five and within the work of the medians |
| Select.LinearSelect | Advanced-Data-Structure/hw7/select.cpp:81-106 | the element of rank k for every k and every array, which is permuted; on distinct elements the scans and the groups of at most five that are sorted touch at most 180 elements per element of the array |
| Llrb.InsertLeans | Advanced-Data-Structure/lab1/lab1/red_black_tree.hpp:190-201 | insertion keeps black heights equal and red links leaning left, up to one red root over a red left child |
| Llrb.DeleteCorrect | Advanced-Data-Structure/lab1/lab1/red_black_tree.hpp:274-302 | deletion of a key that is there removes just that key and keeps order, shape and black height |
| Llrb.InsertKeepsSet | Advanced-Data-Structure/lab1/lab1/red_black_tree.hpp:179-201 | insertion keeps shape, order, sizes and black root, and adds exactly the key |
| Llrb.EraseKeepsSet | Advanced-Data-Structure/lab1/lab1/red_black_tree.hpp:160-171 | erasing keeps shape, order, sizes and black root and removes exactly the key; a missing key changes nothing |
| Llrb.HeightIsLogarithmic | Advanced-Data-Structure/lab1/lab1/red_black_tree.hpp:244-258 | the height is at most twice the binary logarithm of the number of nodes plus one |
| Llrb.HeightBoundsSearch | Advanced-Data-Structure/lab1/lab1/red_black_tree.hpp:147-160 | no search visits more nodes than the height, which is one more than that of the higher subtree |
| Llrb.NodesAreKeys | Advanced-Data-Structure/lab1/lab1/red_black_tree.hpp:269-272 | an ordered tree has as many nodes as keys, so the size counters are the size of the set |
| Llrb.CountIsMembership | Advanced-Data-Structure/lab1/lab1/red_black_tree.hpp:146-158 | count is 1 for a key that is there and 0 otherwise |
| LlrbSet.FixUp | Advanced-Data-Structure/lab1/lab1/red_black_tree.hpp:244-258 | relinking, recolouring and resizing in place do to the nodes what the three repairs do to the tree |
| LlrbSet.MoveRedLeft | Advanced-Data-Structure/lab1/lab1/red_black_tree.hpp:231-242 | the relinked nodes form the tree with a red link borrowed for the left side |
| LlrbSet.InsertBelow | Advanced-Data-Structure/lab1/lab1/red_black_tree.hpp:190-201 | the recursive insertion, done in place, leaves the tree that insertion on values gives |
| LlrbSet.DeleteMin | Advanced-Data-Structure/lab1/lab1/red_black_tree.hpp:203-217 | the recursive deletion of the smallest key, done in place; no null pointer is followed |
| LlrbSet.DeleteBelow | Advanced-Data-Structure/lab1/lab1/red_black_tree.hpp:274-302 | the recursive deletion, done in place, leaves the tree that deletion on values gives; no null pointer is followed |
| LlrbSet.Set.Find | Advanced-Data-Structure/lab1/lab1/red_black_tree.hpp:122-133 | the search loop finds a key if and only if it is in the set |
| LlrbSet.Set.Count | Advanced-Data-Structure/lab1/lab1/red_black_tree.hpp:146-158 | the search loop returns 1 if the key is in the set and 0 otherwise |
| LlrbSet.Set.Size | Advanced-Data-Structure/lab1/lab1/red_black_tree.hpp:269-272 | the size field of the root is the number of keys |
| LlrbSet.Set.Insert | Advanced-Data-Structure/lab1/lab1/red_black_tree.hpp:179-201 | the set gains exactly the key and stays a left-leaning red-black tree |
| LlrbSet.Set.Erase | Advanced-Data-Structure/lab1/lab1/red_black_tree.hpp:160-171 | the set loses exactly the key, stays a left-leaning red-black tree, and the result says whether it was there |
| RbShape.StepUp | Advanced-Data-Structure/hw5-rbtree/rbtree.cpp:48-118 | with a red uncle one recolouring moves the violation up two levels, keeps the keys, and the potential pays for the step |
| RbShape.StepLast | Advanced-Data-Structure/hw5-rbtree/rbtree.cpp:48-118 | with a black uncle one or two rotations settle the tree, keep the keys and raise the potential by at most one |
| RbShape.WorkIs | Advanced-Data-Structure/hw5-rbtree/rbtree.cpp:48-118 | the repair steps, rotations and colour changes read off the path that the new key takes: three colours for each red uncle on the way, and for a last step two colours and one or two rotations, depending on the sides on which the node and its parent hang |
| RbInsert.RedBlackTree.RotateLeft | Advanced-Data-Structure/hw5-rbtree/rbtree.cpp:12-28 | the child and parent pointers afterwards are those of the rotated tree in its old place |
| RbInsert.RedBlackTree.RotateRight | Advanced-Data-Structure/hw5-rbtree/rbtree.cpp:30-46 | the child and parent pointers afterwards are those of the rotated tree in its old place |
| RbInsert.RedBlackTree.FixViolation | Advanced-Data-Structure/hw5-rbtree/rbtree.cpp:48-119 | from one red node under a red parent the loop leaves exactly the repaired tree and restores all red-black rules; the three counters grow by exactly the work on its path, and the steps are covered by the potential |
| RbInsert.RedBlackTree.BSTInsert | Advanced-Data-Structure/hw5-rbtree/rbtree.cpp:121-135 | the new node hangs where its key belongs, with child and parent pointers in agreement; a key that the search meets is dropped and the tree stays as it is |
| RbShape.MetKeyIsDropped | Advanced-Data-Structure/hw5-rbtree/rbtree.cpp:121-135 | in an ordered tree the search meets a key exactly if the tree holds it, and then nothing changes |
| RbInsert.RedBlackTree.Insert | Advanced-Data-Structure/hw5-rbtree/rbtree.cpp:146-153 | a new key gives the repaired tree, which keeps the red-black rules and the order; the three counters grow by exactly the work on the path of the key, and over a whole run there are at most two repair steps and two rotations per key |
| CompressedRadix.InsertIsGood | Advanced-Data-Structure/lab1/lab1/compressed_radix_tree.cpp:32-102 | insertion keeps every inner node below the root at two children or more, labels under the child of their first digit, and leaves at the full key length |
| CompressedRadix.InsertHas | Advanced-Data-Structure/lab1/lab1/compressed_radix_tree.cpp:32-102 | insertion, splitting a label or not, adds exactly the key |
| CompressedRadix.RemoveIsGood | Advanced-Data-Structure/lab1/lab1/compressed_radix_tree.cpp:104-147 | removal keeps that form: leaves are dropped and only children merged up to the root |
| CompressedRadix.RemoveHas | Advanced-Data-Structure/lab1/lab1/compressed_radix_tree.cpp:104-147 | removal removes exactly the key |
| RadixShape.SameSetSameTree | Advanced-Data-Structure/lab1/lab1/compressed_radix_tree.cpp:32-147 | two trees in this form with the same keys are the same tree, labels included |
| PlainRadix.InsertHas | Advanced-Data-Structure/lab1/lab1/radix_tree.cpp:28-45 | insertion into the plain tree adds exactly the key |
| PlainRadix.RemoveHas | Advanced-Data-Structure/lab1/lab1/radix_tree.cpp:47-75 | removal from the plain tree, which ends at the first node with another child, removes exactly the key |
| RadixHistory.FindAgrees | Advanced-Data-Structure/lab1/lab1/compressed_radix_tree.cpp:149-167 | after every sequence of insertions and removals of non-negative values, find in the compressed tree, find in the plain tree and membership in the set are the same |
| RadixHistory.ShapeDependsOnSet | Advanced-Data-Structure/lab1/lab1/compressed_radix_tree.cpp:32-147 | two sequences that lead to the same set lead to the same compressed tree, whatever their order |
| CompressedTree.SameLen | Advanced-Data-Structure/lab1/lab1/compressed_radix_tree.cpp:66-70 | the do-while loop over shifted labels finds the length of the common prefix |
| CompressedTree.SplitNode | Advanced-Data-Structure/lab1/lab1/compressed_radix_tree.cpp:63-92 | the shifts and masks make the inner node over the common prefix, with the old child and a new leaf under their next digits |
| CompressedTree.Compressed.Find | Advanced-Data-Structure/lab1/lab1/compressed_radix_tree.cpp:149-167 | the loop over bit positions finds a value if and only if the tree holds it |
| CompressedTree.Compressed.Insert | Advanced-Data-Structure/lab1/lab1/compressed_radix_tree.cpp:32-102 | the loop leaves the tree of the recursive insertion, sizeNum is the number of nodes, and the set gains exactly the value |
| CompressedTree.Compressed.Remove | Advanced-Data-Structure/lab1/lab1/compressed_radix_tree.cpp:104-147 | the loops down and up leave the tree of the recursive removal, sizeNum is the number of nodes, and the set loses exactly the value |
| SkipList.List.Put | Advanced-Data-Structure/LSM-KV/skiplist.cc:44-73 | the list represents the map with this key set to this value; a new key gets a node at its place on exactly v levels, for every v that may be drawn, the others keep theirs, and the highest level and the count of keys are right |
| SkipList.List.Get | Advanced-Data-Structure/LSM-KV/skiplist.cc:75-88 | the value of the key in the map, or the empty string |
| SkipList.List.Del | Advanced-Data-Structure/LSM-KV/skiplist.cc:90-108 | a present key is marked as deleted; the result tells present, already marked and missing apart |
| SkipList.List.Scan | Advanced-Data-Structure/LSM-KV/skiplist.cc:110-119 | exactly the pairs with keys from st to ed, in ascending order |
| SkipList.List.GetAll | Advanced-Data-Structure/LSM-KV/skiplist.cc:121-128 | every pair exactly once, in ascending order |
| SkipList.List.IsEmpty | Advanced-Data-Structure/LSM-KV/skiplist.cc:130-133 | the first link leads to the end if and only if the map is empty |
| SkipList.List.IsFull | Advanced-Data-Structure/LSM-KV/skiplist.cc:135-138 | true if and only if the map has at least MAX_NUM keys |
| LsmTable.GetOffset | Advanced-Data-Structure/LSM-KV/sstable.cc:141-158 | the binary search returns the offset stored under the key, or the not-found value exactly when the key is not stored |
| LsmTable.BloomFilter.Save | Advanced-Data-Structure/LSM-KV/bloomfilter.cc:33-47 | every eight flags become one byte, first flag highest |
| LsmTable.BloomFilter.Load | Advanced-Data-Structure/LSM-KV/bloomfilter.cc:13-27 | the flags are those packed in the bytes |
| LsmTable.ReloadedFilterIsSame | Advanced-Data-Structure/LSM-KV/bloomfilter.cc:13-47 | saving and reloading a filter gives the same flags |
| LsmTable.BloomFilter.Add | Advanced-Data-Structure/LSM-KV/bloomfilter.cc:49-57 | the key passes afterwards, and so does every key that passed before |
| LsmTable.BloomFilter.Find | Advanced-Data-Structure/LSM-KV/bloomfilter.cc:59-70 | true if and only if all four flags of the key are set |
| LsmTable.NoStoredKeyIsSkipped | Advanced-Data-Structure/LSM-KV/kvstore.cc:93-94 | header range and filter let every stored key through to the search, whatever the hash function |
| LsmTable.FormTable | Advanced-Data-Structure/LSM-KV/kvstore.cc:338-362 | the written table has the right key range, its entries, the given time, and the filter whose flags are exactly those of its keys |
| LsmMerge.WinnerIsNewest | Advanced-Data-Structure/LSM-KV/kvstore.cc:442-457 | the table that wins a key is the first of the newest ones that hold it |
| LsmMerge.PickMin | Advanced-Data-Structure/LSM-KV/kvstore.cc:439-458 | the loop over the cursors finds the smallest key left and the entry of the table that wins it |
| LsmMerge.Advance | Advanced-Data-Structure/LSM-KV/kvstore.cc:469-473 | every cursor at the key moves on, no key is skipped, and some cursor moves |
| LsmMerge.Merge | Advanced-Data-Structure/LSM-KV/kvstore.cc:438-494 | every key of the candidates is written exactly once, in order, with its winning entry, deleted keys dropped at the deepest level only, in tables of at most 408 entries and no more tables than candidates |
| LsmLevels.VersionIsUnique | Advanced-Data-Structure/LSM-KV/kvstore.cc:84-105 | where a key is held exactly one table holds the version that counts |
| LsmLevels.FlushShows | Advanced-Data-Structure/LSM-KV/kvstore.cc:291-307 | after a flush each flushed key shows its new entry, a deletion nothing, and every other key what it showed before |
| LsmLevels.FlushKeepsLevels | Advanced-Data-Structure/LSM-KV/kvstore.cc:291-307 | a flush keeps the level rules: ranges apart below level 0, newer above older, names different |
| LsmLevels.CompactionShows | Advanced-Data-Structure/LSM-KV/kvstore.cc:416-528 | a compaction changes what no key shows |
| LsmLevels.CompactionKeepsLevels | Advanced-Data-Structure/LSM-KV/kvstore.cc:416-528 | a compaction keeps the level rules |
| LsmLevels.CompactionKeepsEntries | Advanced-Data-Structure/LSM-KV/kvstore.cc:416-528 | a compaction makes up no entry |
| LsmLevels.LookupIsVersionIff | Advanced-Data-Structure/LSM-KV/kvstore.cc:84-105 | the lookup stops at the version that counts if and only if no table with the same time that holds the key stands before it in the list |
| LsmLevels.LookupWithDifferentTimes | Advanced-Data-Structure/LSM-KV/kvstore.cc:84-105 | for keys whose tables all have different times the lookup is exact, for missing keys too |
| LsmRuns.CompactedIs | Advanced-Data-Structure/LSM-KV/kvstore.cc:416-528 | in a state that keeps the level rules, every compaction that a run makes is one that the rules speak about |
| LsmRuns.OlderIsOrder | Advanced-Data-Structure/LSM-KV/kvstore.cc:376-415 | tables are picked in the order of their times, ties by their smallest keys |
| LsmRuns.FirstFlush | Advanced-Data-Structure/LSM-KV/kvstore.cc:291-312 | the first flush of all makes table 1 of level 0 with time 1 |
| LsmRuns.ReachableIsLevelled | Advanced-Data-Structure/LSM-KV/kvstore.cc:291-336 | every state that calls of save reach from the empty store, also between the steps of one save, keeps the level rules |
| LsmSteps.Round | Advanced-Data-Structure/LSM-KV/kvstore.cc:291-336 | from at most four tables at level 1, eight at level 2 and no others, three saves come, after the compaction of level 0, to the tables that the merge of the three memtables with the tables of level 1 they meet gives |
| LsmPieces.SortsIsMerged | Advanced-Data-Structure/LSM-KV/kvstore.cc:438-494 | the merge of tables without a key in common is all their entries in key order, each with the time of its table |
| LsmStale.SavesMakeLookupStale | Advanced-Data-Structure/LSM-KV/kvstore.cc:84-105 | twenty-seven saves, starting from the empty store, lead to a state within all limits in which the lookup of a key returns the entry of the third save although that of the seventeenth counts, whatever the offsets and the hash function are |
| LsmStore.ChooseOldest | Advanced-Data-Structure/LSM-KV/kvstore.cc:380-398 | the replacement loop leaves the numL oldest files of the level, each once, of equal times those with the smaller first keys |
| LsmStore.NextLevel | Advanced-Data-Structure/LSM-KV/kvstore.cc:407-413 | exactly the files of the next level whose key range meets the range |
| LsmStore.KVStore.GetOffsetFromSSTable | Advanced-Data-Structure/LSM-KV/kvstore.cc:84-105 | the loop with its time, range and filter tests returns the offset of the first of the newest entries of the key |
| LsmStore.KVStore.SSTableGenerator | Advanced-Data-Structure/LSM-KV/kvstore.cc:291-307 | every key shows the memtable's entry if it has one and what it showed before otherwise; the rules hold |
| LsmStore.KVStore.GetCandidates | Advanced-Data-Structure/LSM-KV/kvstore.cc:365-414 | all of level 0 or the oldest surplus files of a deeper level, and exactly the files of the next level they meet |
| LsmStore.KVStore.Compaction | Advanced-Data-Structure/LSM-KV/kvstore.cc:416-528 | one step of a run as LsmRuns defines it; the level is within its limit again, all other levels but the next keep their size, and no key shows anything else |
| LsmStore.KVStore.CheckLevel | Advanced-Data-Structure/LSM-KV/kvstore.cc:328-336 | one pass from the top brings every level within its limit, no key shows anything else, and from a state that a run reaches it comes to another one |
| LsmStore.KVStore.Save | Advanced-Data-Structure/LSM-KV/kvstore.cc:319-325 | the flushed entries show, all other keys are unchanged, every level is within its limit, and the run goes on |
| LsmKv.DeletedIsNone | Advanced-Data-Structure/LSM-KV/kvstore.cc:111-124 | the mark ~DELETED~ stands for no value, and every other text for itself |
| LsmKv.SavedIsSeen | Advanced-Data-Structure/LSM-KV/sstable.cc:76-109 | writing the memtable to the log and to a table changes the value of no key, except that an empty value, until then taken for none, now hides older ones |
| LsmKv.LookupIsSeenIff | Advanced-Data-Structure/LSM-KV/kvstore.cc:111-124 | the record at the offset found is what the levels show for the key if and only if no table of the same time that holds the key stands before the version that counts, or the first such one leads to the same record; it is right about whether there is a value if and only if the two do not differ in that |
| LsmKv.Kv.Get | Advanced-Data-Structure/LSM-KV/kvstore.cc:111-124 | the value of the key if and only if the memtable has one that is not empty or the lookup in the levels meets the condition of LookupIsSeenIff; what is returned otherwise is stated too |
| LsmKv.Kv.Put | Advanced-Data-Structure/LSM-KV/kvstore.cc:60-68 | the key has the new value and every other key its old one, also when the memtable is full and is flushed and levels are compacted; an empty value leaves the key what the levels show, unless this put fills the memtable |
| LsmKv.Kv.Del | Advanced-Data-Structure/LSM-KV/kvstore.cc:129-150 | the result says whether the key had a value, and it has none afterwards, if and only if the memtable has one or a deletion, or the tables of equal time agree on whether there is one; with an empty value in the memtable, which counts as one, if and only if the levels show one; what is returned otherwise, and that other keys are unchanged, is stated too |
| LsmKv.Kv.Save | Advanced-Data-Structure/LSM-KV/kvstore.cc:319-325 | flushing and compacting change the value of no key, except that empty values in the memtable take effect |
| CText.ComparesSigned | icslabs/lab7/sim/misc/node.c:548-565 | the six comparisons of the generated text are those of 64-bit words as signed numbers |
| CText.NumeralsAreRead | icslabs/lab7/sim/misc/node.c:503-519 | atoll takes each further digit as decimal, a C literal behind a leading zero as octal, both with a sign in front |
| CText.PrecedenceIsC | icslabs/lab7/sim/misc/node.c:479-643 | the reader of the text gives the operators the order of precedence of C |
| CText.NumeralReadsSameIff | icslabs/lab7/sim/misc/node.c:503-521 | C reads a numeral as HCL meant it unless a leading zero is followed by more than one digit that counts (octal) |
| HclReads.NodeReads | icslabs/lab7/sim/misc/node.c:479-643 | the printed tokens of every node tree, chains shared between sets and cases included, are read as its reading, or as nothing if it has none |
| HclReads.ReadIff | icslabs/lab7/sim/misc/node.c:187-315 | the tree built for an expression reads as the expression meant if and only if in every set each case has one arm and is last, has the default guard 1, or stands before an element that happens to end it; arms behind a default do not count |
| HclMeaning.TextIsMeantIff | icslabs/lab7/sim/misc/node.c:479-643 | given known names, no empty case and numerals without the octal trap, a C reader takes the generated text as the expression meant if and only if that condition on sets holds |
| HclTypes.AcceptedIffTyped | icslabs/lab7/sim/misc/node.c:238-315 | the checks accept an expression of known names for a type exactly if it has that type: numerals are numbers, and Booleans if written 0 or 1; names have the type of their first declaration; operators and in give Booleans and cases numbers; elements of sets may have either type |
| HclTypes.AcceptedMeans | icslabs/lab7/sim/misc/node.c:238-315 | the expressions that the theorems on the translation speak about are those of the type whose names are known and whose text is readable |
| HclMeaning.TranslationKeepsValue | icslabs/lab7/sim/misc/node.c:479-643 | for every expression that the checks accept and that meets the conditions of TextIsMeantIff, with 0 or 1 on Boolean signals, the text is read as one C expression that has the value of the HCL expression |
| HclMeaning.AcceptedIsKeptIff | icslabs/lab7/sim/misc/node.c:238-315 | all such expressions keep their truth if and only if every Boolean signal is 0 or 1 |
| HclMeaning.TruthIsKeptIff | icslabs/lab7/sim/misc/node.c:238-315 | those whose sets hold numbers keep their truth if and only if every Boolean signal is zero or odd |
| HclMeaning.EvenSignalIsLost | icslabs/lab7/sim/misc/node.c:280-292 | a Boolean signal that is even and not zero is lost by the bitwise and |
| HclMeaning.OddElementIsLost | icslabs/lab7/sim/misc/node.c:301-308 | a Boolean signal other than 0 and 1 is lost as an element of a set, whose elements are never checked |
| HclMeaning.CaseInSetLosesValue | icslabs/lab7/sim/misc/node.c:301-315 | a case with two arms in a set shares its chain with the set: 2 in {[1 : 1; 1 : 2]} is false, but the text is true |
| HclMeaning.CaseBeforeCaseIsMeant | icslabs/lab7/sim/misc/node.c:301-315 | a case that is not last and has no default is read right all the same before an element that ends it |
| HclLex.LayoutIsLexed | icslabs/lab7/sim/misc/outgen.c:29-42 | splitting the printed characters into tokens gives back the tokens, wherever lines were broken and indented |
| HclLex.CharactersAreRead | icslabs/lab7/sim/misc/outgen.c:29-42 | digits, letters and the operators of one and two characters are read as C does, at the end of a text too |
| HclLex.SensibleTexts | icslabs/lab7/sim/misc/node.c:486-519 | which texts count as sensible numerals and names, at the bounds |
| HclText.TextIsLexed | icslabs/lab7/sim/misc/outgen.c:29-42 | the characters printed for an expression with sensible names and numerals are lexed as its tokens |
| HclText.Outgen.Emit | icslabs/lab7/sim/misc/outgen.c:29-42 | the text is printed, on a new indented line exactly if it would take cur_pos past the last column; cur_pos is past it afterwards only if the text is too long for any line |
| HclText.Outgen.PrintToken | icslabs/lab7/sim/misc/outgen.c:29-42 | a token of an expression is printed in that way, and the record of what has been printed since the expression began stays right; numerals are not counted |
| HclWidth.FitsIffCounted | icslabs/lab7/sim/misc/outgen.c:29-42 | behind any text, whose characters on the last line are counted or not, every printed line stays within the last column if and only if at each point the counter and the characters since the last break that it leaves out do together |
| HclWidth.LinesFitIff | icslabs/lab7/sim/misc/outgen.c:29-42 | behind any text that is counted, every printed line stays within the last column if and only if each token that was put on a new line fits there behind its indentation, and numerals printed since the last break always fit into what the counter has left |
| HclWidth.FunctionFitsIff | icslabs/lab7/sim/misc/node.c:687-700 | every line of the function printed for an expression stays within the last column if and only if its title does, the expression meets the conditions of LinesFitIff from the column behind the return keyword on, and the semicolon fits behind uncounted numerals |
| HclText.ComparisonPassesColumn | icslabs/lab7/sim/misc/node.c:519-563 | for a signal whose text has 57 characters the function that returns its comparison with 10, an accepted expression, always has a line longer than the 75 columns the generator uses: behind the return keyword the counter comes to 75 and two digits follow |
| HclText.GenExpr | icslabs/lab7/sim/misc/node.c:479-643 | the recursive printer appends exactly the tokens of the tree, never follows a missing pointer and restores the indentation |
| HclText.GenFunct | icslabs/lab7/sim/misc/node.c:647-703 | the whole function is printed through a wrapper of any width and is ready for the next one; what is printed for the accepted expression is read as one C expression that always has its value, its lines are broken as FunctionFitsIff assumes, and with sensible names and numerals the tokens that a lexer finds in the characters have that value too |

## Left out

- PipeCorrect.PipelineImplementsIsa: covers the instructions on which the two simulators are meant to agree; iaddq, memory operands without a base register, ALU operands without a register, faulting instructions, an instruction within five bytes of the end of memory and code that is overwritten while its successors are in flight are excluded by `GoodAt`.
- PipeSim.RunTtySim: as for PipelineImplementsIsa; the limits are unbounded integers, also five times the instruction limit.
- The graphical interface, the reports, the performance counters and the command line of psim.c; pipe-full.c and the assembler.
- Y86State.GetWord: the C test of position plus eight against the length overflows for positions within eight of 2^63; the model uses the exact sum, so such a position counts as outside memory.
- Y86State.SetWord: uses the exact sum in the same test.
- Malloc.Heap.Malloc: not for sizes that reach mem_sbrk as 0 or 8, since no block fits into that many bytes and the list and tag invariant would not hold; sizes so close to 2^64 that rounding up wraps are not covered.
- Malloc.Heap.Free: only offsets at which a block starts; a pointer into a block that was merged away is not covered.
- Malloc.Heap.Realloc: only sizes that mem_sbrk gets unchanged or refuses, since with others memcpy runs past a new block that is too small; bytes of the new block behind the old payload are arbitrary, and a null pointer, in front of which mm_realloc reads a header, is not covered.
- HuffmanCoder.HfTree.constructor: the choice of the most frequent pairs is an arbitrary set of two-character keys, which makes the results hold for every choice; the walk order of the map is arbitrary too.
- HuffmanCoder.Compress: the assertion that every token has a code is a precondition, and the 64-bit bit counter is a natural number.
- HuffmanCoder.CompressionIsLossless: texts whose bit count does not fit eight bytes are not covered.
- CacheSpec.SplitNamesTheBlock: the 32-bit shift that makes the mask is an exact power of two.
- CacheSim.Simulate: the trace is given as lines already read; the int clock does not overflow, and the 32-bit shifts of the mask and of the number of sets are exact powers of two.
- Select.LinearSelect: sorting a group of at most five elements is counted by its elements, not by the comparisons in the library; quickSelect, which picks its pivot at random, is not modelled. With equal elements only the result is proved.
- RbInsert.RedBlackTree.Insert: only keys that the tree does not hold; with a key that it holds, BSTInsert drops the node, and the repair then follows the parent pointer of a node that has none.
- LsmMerge.Advance: getItem is not called with a cursor at the end of its table; the code calls it there and reads behind the entries.
- LsmStore.KVStore.CheckLevel: the thirty counters of levelCnt are a sequence that grows as needed.
- SkipList.List.Put: the number of levels is a parameter instead of a random draw; the forward pointers of a node are a sequence that is replaced, not an array.
- Files, the table cache, the value log's format and its garbage collection, scan, reset and recovery of the key-value store; the log is a sequence of values.
- The serialisation, printing and destruction of the set of lab1; printing of the tree of hw5.
- HclText.Outgen.PrintToken: a quoted signal text is one token and is not looked into.
- HclText.GenFunct: the UCLID and Verilog forms with their annotations, the limits on symbols and errors and the 1024 bytes of the buffer of outgen_print are not modelled; node chains are values, so the sharing of a chain by two expressions is not.
- HclMeaning.TranslationKeepsValue: numerals are those that C reads as HCL does.
- CompressedTree.Compressed.Remove: as for Insert, only values that are not negative, and no parent pointers, updating in place or heights.
- CompressedTree.Compressed.Insert: only values that are not negative. Nodes are values and the path from the root is kept in a sequence, so parent pointers and updating in place are not captured; heights are left out.
- PlainRadix.InsertHas: the plain tree is modelled on values by recursive functions, without its height counter.
- The skip list and Bloom filter homework, the nearest-neighbour search of the second lab, the bit puzzles, the bomb and attack labs, the shell, the sequential simulator and the assembler, the matrix transposition and the proxy.
