# A Dafny model of DEDISbench

DEDISbench writes blocks with a chosen distribution of duplicates to files or to a raw device, checks later
that the stored blocks are the ones that were written, and, with DEDISgen, measures the duplicates of an
existing dataset. This project models the parts of it that carry an invariant and proves them with Dafny 4.11:

- the SFMT random number generator, every one of its routines shown to be a window onto one infinite block
  sequence, with both word layouts (`Recurrence`, `Blocks`, `Parity`, `Seeding`, `KeyMixing`, `Sfmt`,
  `SfmtTheorems`);
- block generation from shared, reused model buffers, block placement, the forked writers as a transition
  system, and the integrity check of what they leave (`LineTable`, `Shares`, `Allotment`, `Content`, `Generator`,
  `Placement`, `Writers`, `Sweeps`, `SharedMemory`, `Integrity`, `Lifecycle`);
- the INI parser, its printer, its buffer reader and its map reader (`IniSyntax`, `IniParser`, `IniErrors`,
  `IniReaders`, `IniAgreement`, `IniLineEnds`, `IniMap`, `IniRoundTrip`, `IniComments`);
- the duplicate scan, the merge of two scans and the histograms printed from them (`Tallies`, `DedupScan`,
  `ChunkedScan`, `DedupMerge`, `OutputDist`, `Slots`, `Buckets`).

`dafny verify dfyconfig.toml` checks the whole project.

Code that updates state in place is modelled by methods over arrays and objects. Each method is proved against
a function of its inputs, and the theorems are about those functions: `W` for the generator, `Block` for what a
block contains, `Run` for the parser, `Cut` and `Tally` for the scan.

## Reading the model

- Random choices, the answers of an INI handler, the order of a database cursor and the interleaving of the
  writers are arguments; the results hold for all of them. SHA1 is an arbitrary function to 20-byte digests.
- Integers are unbounded except where the width matters: the words of SFMT are bit-vectors, and the bucket
  arithmetic wraps at 32 bits.
- The SFMT parameters are arguments with `0 < POS1 < N`, shifts below the word size (1 to 7 bytes for the
  128-bit ones) and a nonzero parity vector.
- A raw pointer passed by a caller of `fill_array32` or `fill_array64` is an array of 128-bit blocks.
- The record written beside each block is stored field by field, so other writers' steps may come between
  two fields. Each process has its own operation counter, NURand constants and model buffers; a write puts on disk
  what the buffer holds at that moment.

## What the proofs found

- `genrand` takes exactly one word of the stream for every `max` up to `INT64_MAX`. For a larger `max` no word
  is ever accepted: the call redraws until the even-index assertion of `gen_rand64` fails, or forever
  (`Placement.EveryWordAccepted`, `Placement.Genrand`).
- The uniform and NURand placements keep inside the process's region. The uniform one can choose exactly the
  blocks that are before the last one of the region and below 2^32 (`Placement.UniformReaches`): `genrand(n)`
  never returns `n`, although the comment at `utils/random/random.c` lines 20-22 and the calls suggest an
  inclusive bound, and one draw is one 32-bit word.
- `generate_data` returns the content id as an `int`, so the content id `0xFFFFFFFF` is taken for the error
  code -1 and ends the program when a block is regenerated. A header with block id 0 also ends it. These are
  the only two ways in which the final check can fail to return a number (`Integrity.FileIntegrity`).
- `check_block_content` does not recognise the block whose id is the total number of unique blocks
  (`Integrity.CheckEmitted`): its test is strict while ids run from 1 to the total.
- The last block id of the zero-copy line gets no random content id: the comparison at
  `libGenerator/generator.cpp` line 75 is strict (`Content.ContentIdDiffers`).
- A dataset scan that reads in chunks sees the blocks of a file, for all files of a given length, if and only if
  the block size divides READSIZE or the file ends before the first block that a chunk boundary cuts
  (`ChunkedScan.FaithfulIff`).
- The loop of `print_elements_print` that merges small tail slots stays inside its array if and only if more
  than 300 blocks are counted; otherwise it adds to `dups[-1]` (`Buckets.MergeTail`, `Buckets.PrintElements`).
  If the positive keys alone count 300 or less, they end in slot 0 and no row prints them
  (`Buckets.RowsAccount`).
- Behind a line that fills its buffer `ini_buffer_reader` drops one character. It delivers the lines that fgets
  delivers if and only if every line, with its newline, has at most INI_MAX_LINE - 1 characters
  (`IniAgreement.LinesAgreeIff`).
- The labels that `print_elements_print` prints are 32-bit ints. Up to slot 18 they are the decimal intervals;
  from slot 20 on they overlap (`Slots.LabelsDisjointIff`). A key stands under a printed label that holds it if
  and only if it is below 1410065408, which is 10^10 modulo 2^32 (`Slots.Place`). Overflow of an `int` is
  modelled as wrapping. The branch that extends the slot array cannot be reached by any 64-bit key.

## Model

| member | source | states |
|---|---|---|
| Recurrence.WindowDenotesSuffix | utils/random/randomgen/SFMT.c:251-306 | replacing the state by any window of the sequence it denotes loses nothing: what follows is the same sequence from there on |
| Recurrence.Homomorphism | utils/random/randomgen/SFMT.c:209-243 | a block map that commutes with the recursion maps one state's whole sequence to the other's |
| Recurrence.GenRandAll | utils/random/randomgen/SFMT.c:251-267 | the in-place refill with its two loops and moving r1, r2 leaves blocks N to 2N-1 of the sequence |
| Recurrence.FillFirst | utils/random/randomgen/SFMT.c:276-291 | the first N blocks of a bulk fill, computed partly from the state and partly from the array |
| Recurrence.GenRandArray | utils/random/randomgen/SFMT.c:276-306 | a bulk fill of any size from N on writes blocks N to N+size-1 and leaves blocks size to size+N-1 in the state, whether or not size reaches 2N |
| Blocks.ShiftsAreWide | utils/random/randomgen/SFMT.c:129-198 | rshift128 and lshift128 are true 128-bit shifts by 8 times shift bits, in every layout |
| Blocks.ShiftsAreLayoutFree | utils/random/randomgen/SFMT.c:129-198 | the shifts of the ONLY64 build are those of the default build with words i and i xor 1 swapped |
| Blocks.RecursionIsLayoutFree | utils/random/randomgen/SFMT.c:209-243 | do_recursion commutes with that swap |
| Blocks.RecursionIsWide | utils/random/randomgen/SFMT.c:209-243 | every word of the recursion, in every layout, in plain operators: the word of a, of a shifted left and of c shifted right as one 128-bit number, of b shifted right under its mask and of d shifted left |
| Parity.FoldStage | utils/random/randomgen/SFMT.c:347-356 | one xor with the arithmetically shifted accumulator halves the window whose parity is kept, whatever the sign bit |
| Parity.Fold | utils/random/randomgen/SFMT.c:354-357 | the loop over 16, 8, 4, 2, 1 leaves the parity of all 32 bits in the lowest bit |
| Parity.InnerProductIsLinear | utils/random/randomgen/SFMT.c:347-372 | the GF(2) inner product with the parity vector is linear in the state |
| Parity.CorrectionIsOneBit | utils/random/randomgen/SFMT.c:362-371 | the bit that certification flips is exactly one, and it has inner product 1 with the parity vector |
| Parity.CertificationHolds | utils/random/randomgen/SFMT.c:347-372 | after certification the inner product is 1, at most one bit has changed, and certifying again changes nothing |
| Parity.FindBit | utils/random/randomgen/SFMT.c:362-371 | the inner search loop finds the lowest one bit of a parity word exactly if the word is nonzero |
| Seeding.SeedStepUndone | utils/random/randomgen/SFMT.c:541-545 | each word of a seeded state gives back the word before it: subtract the index, multiply by the inverse factor, undo the xor with the shifted word |
| Seeding.SeedsToldApart | utils/random/randomgen/SFMT.c:537-549 | states seeded differently agree in no word, at any place, and states seeded alike agree in all |
| Seeding.SeededOnce | utils/random/randomgen/SFMT.c:541-545 | the first word and the step from word to word fix the whole state |
| KeyMixing.MixAddUndone | utils/random/randomgen/SFMT.c:588-606 | a round of the first two loops loses nothing: from the words after it and what it adds to r the words before it are computed |
| KeyMixing.MixXorUndone | utils/random/randomgen/SFMT.c:607-615 | nor does a round of the last loop |
| KeyMixing.KeyUndone | utils/random/randomgen/SFMT.c:557-615 | all rounds taken back, max(key_length + 1, N32) of the first kind and N32 of the second, lead from the words left by init_by_array to the 0x8b filling |
| KeyMixing.KeysToldApart | utils/random/randomgen/SFMT.c:557-615 | keys of one length that differ in one word leave different states |
| KeyMixing.PositionsDiffer | utils/random/randomgen/SFMT.c:589-595 | the four words that a round uses stand at four different places |
| KeyMixing.DistancesOfParameterSets | utils/random/randomgen/SFMT.c:565-574 | lag and mid for the state sizes of all parameter sets |
| Sfmt.Sfmt.GetWord | utils/random/randomgen/SFMT.c:112-122 | reading through idxof gives the same logical word in every layout |
| Sfmt.Sfmt.PutWord | utils/random/randomgen/SFMT.c:112-122 | writing through idxof changes that logical word and no other |
| Sfmt.Sfmt.PeriodCertification | utils/random/randomgen/SFMT.c:347-372 | the method with both loops computes the certified state, in every layout |
| Sfmt.Sfmt.InitGenRand | utils/random/randomgen/SFMT.c:537-549 | the state that is certified holds the seed first, and each further word is 1812433253 * (w xor (w >> 30)) + k modulo 2^32 of the word w before it; the same logical state in every layout |
| Sfmt.Sfmt.InitByArray | utils/random/randomgen/SFMT.c:557-620 | seeding by key gives the certified key words in every layout, for every key and state size |
| Sfmt.Sfmt.KeyLoop | utils/random/randomgen/SFMT.c:588-597 | the loop over the key, with its running index |
| Sfmt.Sfmt.CountLoop | utils/random/randomgen/SFMT.c:598-606 | the rounds after the key is used up |
| Sfmt.Sfmt.LastRounds | utils/random/randomgen/SFMT.c:607-615 | the final rounds with func2 |
| Sfmt.Sfmt.GenRandAll | utils/random/randomgen/SFMT.c:251-267 | the refill of a stored state in any layout is the window of the logical sequence |
| Sfmt.Sfmt.GenRandArray | utils/random/randomgen/SFMT.c:276-306 | the bulk fill of an array in any layout, and the state it leaves |
| Sfmt.Sfmt.GenRand32 | utils/random/randomgen/SFMT.c:410-420 | a call returns the next word of the stream and leaves the rest of the stream, refilling or not |
| Sfmt.Sfmt.GenRand64 | utils/random/randomgen/SFMT.c:429-453 | a call returns the next two words, low first, in every layout, and keeps the index even |
| Sfmt.Sfmt.FillArray32 | utils/random/randomgen/SFMT.c:481-489 | the array holds the next size words of the stream in order, and the stream continues behind them |
| Sfmt.Sfmt.FillArray64 | utils/random/randomgen/SFMT.c:517-529 | the array, with the final swap of the big-endian builds, holds the next size 64-bit draws |
| Sfmt.StoredIsLogical | utils/random/randomgen/SFMT.c:209-306 | the sequence of a stored state, put into logical order, is the sequence of the logical state |
| Sfmt.InnerWordParity | utils/random/randomgen/SFMT.c:352-357 | the word that certification folds has the parity of the 128-bit inner product |
| Sfmt.LoadOfStream | utils/random/randomgen/SFMT.c:517-529 | a 64-bit load from a filled block is two consecutive stream words |
| SfmtTheorems.Draw32 | utils/random/randomgen/SFMT.c:410-420 | n calls of gen_rand32 return the next n stream words |
| SfmtTheorems.Draw64 | utils/random/randomgen/SFMT.c:429-453 | n calls of gen_rand64 return the next n pairs of stream words |
| SfmtTheorems.BulkEqualsSequential | utils/random/randomgen/SFMT.c:481-489 | fill_array32 writes exactly the words that size calls of gen_rand32 return, and afterwards both generators have the same future, whatever states they store |
| SfmtTheorems.BuildsAgree | utils/random/randomgen/SFMT.c:537-549 | two generators of any two layouts, seeded alike, return the same gen_rand64 stream, and their stored states stay equal up to the exchange of words |
| SfmtTheorems.BuildsAgreeOnKeys | utils/random/randomgen/SFMT.c:557-620 | the same after seeding by key |
| SfmtTheorems.WideDrawIsTwoWords | utils/random/randomgen/SFMT.c:429-453 | one gen_rand64 is two gen_rand32 calls, low word first |
| SfmtTheorems.StateIsCertified | utils/random/randomgen/SFMT.c:347-372 | certification fixes the inner product of the first 128 state bits by at most one flip, touches no other block, and is idempotent |
| Placement.EveryWordAccepted | utils/random/random.c:23-39 | every 32-bit word passes the rejection test if and only if max is at most INT64_MAX; above it none does |
| Placement.Genrand | utils/random/random.c:23-39 | one call is one stream word modulo max, or no value at all when max exceeds INT64_MAX |
| Placement.GenrandMany | utils/random/random.c:23-39 | over any sequence of calls the k-th result is the k-th stream word modulo the k-th max |
| Placement.InitializeNurand | benchcore/accesses/iodist.c:13-23 | the NURand constants: A is a tenth of the blocks and C the next word modulo A + 1 |
| Placement.BitOrBits | benchcore/accesses/iodist.c:42-61 | the bitwise or of NURand has a one exactly where one of its operands has |
| Placement.BitsTell | benchcore/accesses/iodist.c:42-61 | and its ones tell the number |
| Placement.SlotInRegion | benchcore/accesses/iodist.c:42-86 | every access type chooses a block inside the region |
| Placement.UniformReaches | benchcore/accesses/iodist.c:64-78 | some word makes the uniform placement choose a block if and only if the block is before the last of the region and below 2^32 |
| Placement.BlockInRegion | benchcore/accesses/iodist.c:42-86 | the three placement functions as methods that draw from the generator |
| Placement.GetIoPosition | benchcore/accesses/iodist.c:88-119 | the byte offset in plain arithmetic: region base plus counter modulo region, or plus a word modulo region - 1, or plus (word modulo A or word modulo region - 1, plus C) modulo region, times the block size; as many words are consumed as the access type needs |
| Placement.OffsetOfSlot | benchcore/accesses/iodist.c:88-119 | the offset of a slot is a whole number of blocks inside the file or device |
| Placement.BlockOfOffset | DEDISbench.c:303-308 | dividing an offset by the block size gives back the block it was made from, without remainder |
| Placement.RegionsInside | benchcore/accesses/iodist.c:88-119 | each process's region lies inside the device |
| Placement.RegionsDisjoint | benchcore/accesses/iodist.c:88-119 | regions of different processes on a raw device share no block |
| Placement.SequentialReaches | benchcore/accesses/iodist.c:80-86 | the sequential placement chooses every block for one of any region-length run of consecutive counters |
| Placement.SequentialOnce | benchcore/accesses/iodist.c:80-86 | and each of them only once |
| Placement.SequentialSweep | benchcore/accesses/iodist.c:80-119 | get_ioposition called once for each of region-length consecutive counters, from any on, gives the offset of every block of the region exactly once and draws nothing |
| LineTable.ReadLines | libGenerator/generator.cpp:349-398 | the table read has for each line n blocks with n * (copies + 1) * 100 <= blocks * percent < (n + 1) * (copies + 1) * 100, or one block if that would be none, and consecutive bases; the zero-copy count is that of the last zero-copy line, and the limit used by generate_data if only the first line can be one |
| Shares.SharesConserve | libGenerator/generator.cpp:377-392 | with percentages up to 100 all blocks with all their copies are at most the blocks to generate plus what the at-least-one rule adds, and with 100 at least those less what rounding drops |
| LineTable.LinesPartition | libGenerator/generator.cpp:227-246 | an id is in some line if and only if it is between 1 and the total, and then in exactly one, the one found |
| LineTable.LineOfBlock | libGenerator/generator.cpp:227-246 | the line found for base + r is the line that r was chosen from |
| LineTable.GiveMyCompression | libGenerator/generator.cpp:26-41 | the search returns the first class whose cumulated percentage covers the block |
| Shares.ClassInterval | libGenerator/generator.cpp:26-41 | a block of a line is in a class if and only if it lies behind the last block that the classes before cover and not behind the last that this one covers; the last class takes the rest |
| Shares.ClassGetsItsShare | libGenerator/generator.cpp:26-41 | if the percentages of a line sum to 100, each class gets its own percentage of the line's blocks, to within one block |
| LineTable.GetBlockCompressionById | libGenerator/generator.cpp:227-246 | ten times the class of the id's line, and -1 exactly for ids outside 1 to the total |
| LineTable.ClassOfBlock | libGenerator/generator.cpp:227-246 | looking a block up by id finds the class it was generated with, for every line and block of it |
| LineTable.ZeroLineIds | libGenerator/generator.cpp:71-83 | with the zero-copy line first, its blocks are exactly the ids up to its size |
| Allotment.PushBack | libGenerator/generator.cpp:211-221 | appending equal shares |
| Allotment.Allot | libGenerator/generator.cpp:211-221 | 100 shares that sum to the number of unique blocks, the first as chosen, the others differing by at most one |
| Allotment.FindModel | libGenerator/generator.cpp:43-57 | the prefix-sum search stays in bounds for every id up to the sum and finds the first prefix that reaches it |
| Allotment.ModelInterval | libGenerator/generator.cpp:43-57 | an id maps to model k if and only if it lies between the k-th and the next prefix sum |
| Allotment.ModelsGetTheirShare | libGenerator/generator.cpp:43-57 | exactly as many ids map to a model as were allotted to it |
| Content.DecodeEncode | libGenerator/generator.cpp:84-87 | the id read back from four stamped bytes is the id stamped |
| Content.EncodeDecode | benchcore/integrity/integrity.c:42-60 | four bytes are what stamping the id read from them would write |
| Content.ProducedIsEmittable | libGenerator/generator.cpp:304-321 | whatever nextBlock produces meets the static description of an emittable record |
| Content.EmittableIsProduced | libGenerator/generator.cpp:304-321 | and every such record is produced by some random choices |
| Content.DedupFaithful | libGenerator/generator.cpp:65-91 | two blocks that can be emitted are byte-identical if and only if their content ids and block ids agree |
| Content.HeaderOfBlock | libGenerator/generator.cpp:84-87 | a block's first four bytes are its content id and the next four its block id, lowest byte first |
| Content.ContentIdDiffers | libGenerator/generator.cpp:71-83 | content id and block id differ exactly for ids strictly below the zero-copy line's block count |
| Generators.Generator.constructor | libGenerator/generator.cpp:337-400 | after initialisation the lines carry the input's copies and classes and the blocks their percentage asks for, the first model has the given first share and the others even ones, the buffers keep their bodies, and the total is that of the input |
| Generators.Generator.Stamp | libGenerator/generator.cpp:84-87 | writing an id into a shared buffer changes its four bytes only and keeps every buffer's body |
| Generators.Generator.GenerateData | libGenerator/generator.cpp:65-91 | the shared buffer of the id's model then holds both ids and the model's body |
| Generators.Generator.NextBlock | libGenerator/generator.cpp:304-321 | at the moment it is emitted the buffer holds exactly the block its record describes |
| Generators.Generator.Run | libGenerator/generator.cpp:304-321 | over whole runs on shared, rewritten buffers, blocks are equal when emitted if and only if their id pairs are |
| Generators.TotalOfInput | libGenerator/generator.cpp:360-398 | the number of unique blocks is the sum of the lines' shares |
| Integrity.GetBlockContent | benchcore/integrity/integrity.c:17-38 | regeneration yields the recorded content id, the block id and the model's body, or ends the program exactly on the mistaken random number |
| Integrity.CheckBlockContent | benchcore/integrity/integrity.c:42-74 | the four outcomes of rebuilding a block from its header, for any bytes whatever |
| Integrity.SelfDescribing | benchcore/integrity/integrity.c:42-74 | an emitted block is rebuilt identically from its eight header bytes |
| Integrity.CheckEmitted | benchcore/integrity/integrity.c:42-74 | the check recognises an emitted block if and only if its id is below the total (and the random number is not the mistaken one) |
| Integrity.OnlineCheck | benchcore/integrity/integrity.c:78-103 | the result is 0 if and only if the bytes are the recorded block, and 1 otherwise |
| Integrity.SlotExitsIff | benchcore/integrity/integrity.c:17-74 | when comparing a slot ends the program, in terms of its bytes and the two random numbers |
| Integrity.ZeroHeaderEnds | benchcore/integrity/integrity.c:62-70 | a header that names block 0 always ends it |
| Integrity.TwiceTheSameId | benchcore/integrity/integrity.c:42-74 | a header with twice the same id below the zero-copy limit is never that of the block rebuilt from it |
| Integrity.FileIntegrity | benchcore/integrity/integrity.c:107-148 | for any file contents the result is exactly the number of wrong slots, although each check rewrites the buffers used by the next; it ends the program if and only if some slot does |
| Integrity.StaticCheck | benchcore/integrity/integrity.c:153-227 | the sum over all files |
| Writers.StampEmits | libGenerator/generator.cpp:83-91 | stamping a process's own buffers leaves in one of them exactly the block of the record and changes no body |
| Writers.CellFromOffset | DEDISbench.c:303-308 | the file and slot a writer works on are those the program computes from its byte offset |
| Writers.WritersApart | DEDISbench.c:256-309 | two writers never touch the same file and slot |
| Writers.CellInRange | benchcore/accesses/iodist.c:88-119 | a placed block is in the writer's file or in the device |
| Writers.PlaceKeeps | DEDISbench.c:256-257 | generating and placing a block keeps the invariant |
| Writers.PwriteWritesGenerated | DEDISbench.c:294-294 | what a write puts on disk, read from the buffer only then, is the block that was generated |
| Writers.PwriteKeeps | DEDISbench.c:294-294 | the write keeps the invariant, after it that one slot's tracker entry may lag |
| Writers.TrackKeeps | DEDISbench.c:301-309 | so does each single field store, and the last one ends the lag |
| Writers.StepKeeps | DEDISbench.c:256-309 | every step of every process keeps the invariant |
| Writers.RunKeeps | DEDISbench.c:256-309 | hence every interleaving does |
| Writers.OneLaggingSlotEach | DEDISbench.c:256-309 | at every reachable state each writer has at most one lagging slot, no slot lags for two writers, and the disk always holds the block last written |
| Writers.FinishedRunSettles | DEDISbench.c:256-309 | once all writers are done every slot's bytes are what its tracker entry tells |
| Writers.SettledFileIsRight | benchcore/integrity/integrity.c:107-148 | a settled file has no wrong slot |
| Sweeps.CounterCounts | DEDISbench.c:400-405 | if every operation counts, a process's counter grows by the blocks it has written and recorded, in every interleaving |
| Sweeps.CounterStands | DEDISbench.c:400-405 | during the ramp-up it does not grow |
| Sweeps.TargetsInOrder | benchcore/accesses/iodist.c:80-86 | the k-th block that a sequential writer writes goes to slot (counter at the start + k) modulo its region |
| Sweeps.RegionRewritten | DEDISbench.c:256-309 | a sequential writer that writes as many blocks as its region has writes every slot of it |
| SharedMemory.Loadmmap | benchcore/sharedmem/sharedmem.c:15-94 | the moving pointer puts statistics, zerodups and one tracker row per written file behind each other |
| SharedMemory.EntryInside | benchcore/sharedmem/sharedmem.c:29-91 | every tracker entry lies inside the mapping and behind the counters |
| SharedMemory.EntriesApart | benchcore/sharedmem/sharedmem.c:88-91 | entries of different slots share no byte |
| SharedMemory.RecordsApart | benchcore/sharedmem/sharedmem.c:88-91 | writers running at the same time store their records in disjoint bytes of the mapping |
| Lifecycle.RealPopulate | populate/populate.c:128-183 | population leaves in every slot the block its tracker entry records |
| Lifecycle.PopulationStartsRun | populate/populate.c:128-183 | files and tracker rows left by population are a state in which the writers' invariant holds, so the run theorems apply to it |
| Lifecycle.Populate | populate/populate.c:186-258 | population of all files, or of the one device, ends in such a state, with the model buffers as it left them |
| Lifecycle.GetWritecontent | benchcore/duplicates/duplicatedist.c:36-41 | generating a block changes the generator's buffers exactly as the transition system stamps those of a process, and returns the same record |
| Lifecycle.ExitIsMistake | benchcore/integrity/integrity.c:17-38 | for files as the run left them the check of a slot ends the program if and only if its regeneration draws the mistaken number |
| Lifecycle.NeverMistakenIff | benchcore/integrity/integrity.c:17-38 | the check of untouched files is sure to return, whatever is drawn, if and only if no slot records a block id below the zero-copy limit |
| Lifecycle.WrongIsDamaged | benchcore/integrity/integrity.c:107-148 | against a settled tracker the wrong slots are the slots whose bytes are not those last written |
| Lifecycle.NoExit | benchcore/integrity/integrity.c:42-74 | the check cannot end the program unless a damaged header names block 0 or the mistaken random number comes up |
| Lifecycle.CheckAfterRun | benchcore/integrity/integrity.c:153-227 | after any finished run and any tampering the final check returns exactly the number of damaged slots, or ends the program if and only if some slot makes it, as a slot with a zero block id in its header does; for untouched files it returns 0 if and only if no regeneration is mistaken for an error |
| Lifecycle.CheckSettled | benchcore/integrity/integrity.c:153-227 | the same from any settled state |
| IniParser.RStripAt | parserconf/inih/ini.c:28-34 | stripping in place with NULs leaves the text without trailing white space |
| IniParser.LSkipAt | parserconf/inih/ini.c:37-42 | the pointer returned starts the text without leading white space |
| IniParser.FindAt | parserconf/inih/ini.c:47-62 | the pointer returned is at the first looked-for character or inline comment, or at the end |
| IniParser.ValueAt | parserconf/inih/ini.c:150-158 | the value is cut at an inline comment and stripped at both ends, in place |
| IniParser.PairAt | parserconf/inih/ini.c:144-163 | a line is split in place at its first = or : outside a comment |
| IniParser.HeadingAt | parserconf/inih/ini.c:131-142 | a section line is cut at its bracket, or found to have none |
| IniParser.BodyAt | parserconf/inih/ini.c:106-118 | the line after an optional BOM, stripped at both ends, with the fact whether the start moved |
| IniParser.LineAt | parserconf/inih/ini.c:106-174 | one iteration over the line buffer is one step of the state machine on strings |
| IniParser.IniParseStream | parserconf/inih/ini.c:73-181 | the whole loop over the reused line buffer makes the calls and returns the code of the state machine |
| IniErrors.StepError | parserconf/inih/ini.c:106-174 | a line sets the code if and only if it was clear and the line is bad; the code influences nothing else |
| IniErrors.ErrorIsFirstBadLine | parserconf/inih/ini.c:106-180 | the return code is the least line number that is malformed or rejected by the handler, and 0 if there is none |
| IniErrors.StoppingAgrees | parserconf/inih/ini.c:170-174 | stopping at the first error returns the same code and a prefix of the same calls |
| IniReaders.BufferCtx.Scan | parserconf/inih/examples/ini_buffer.c:25-61 | the scan stops at the first line end or when the caller's buffer is full |
| IniReaders.BufferCtx.Read | parserconf/inih/examples/ini_buffer.c:25-61 | the reader returns the text up to the line end and moves past it, and NULL exactly at the end |
| IniReaders.ReadAll | parserconf/inih/examples/ini_buffer.c:25-61 | repeated reads give the lines of the buffer |
| IniAgreement.NewlineIgnored | parserconf/inih/ini.c:106-118 | a line acts alike with and without its newline |
| IniAgreement.FittingLinesAgree | parserconf/inih/examples/ini_buffer.c:25-61 | if every line, with its newline, has at most INI_MAX_LINE - 1 characters, both readers deliver the same lines |
| IniAgreement.LinesAgreeIff | parserconf/inih/examples/ini_buffer.c:48-52 | without carriage returns they deliver the same lines if and only if every line fits so: behind a longer one the buffer reader drops a character |
| IniAgreement.ReadersAgree | parserconf/inih/examples/ini_buffer.c:25-61 | when the lines fit, both readers lead to the same calls, code and final state |
| IniAgreement.ParseBothWays | parserconf/inih/ini.c:73-181 | the parser run on a file and on a buffer with the same text returns the same code and makes the same calls |
| IniLineEnds.EndsReadAlike | parserconf/inih/examples/ini_buffer.c:41-60 | text whose lines end in a newline, a carriage return or both in either order gives the buffer reader the same lines, if they fit |
| IniLineEnds.EndsParseAlike | parserconf/inih/examples/ini_buffer.c:25-61 | so it is parsed as the file with newlines is |
| IniMap.IniReader.ValueHandler | parserconf/inih/cpp/INIReader.cpp:73-82 | a call appends its value, behind a newline if something is there |
| IniMap.IniReader.Load | parserconf/inih/cpp/INIReader.cpp:16-19 | a whole trace folded into the map |
| IniMap.SplitUnique | parserconf/inih/cpp/INIReader.cpp:65-71 | a key can be split again at its last =, even when the section contains one |
| IniMap.KeysDoNotCollide | parserconf/inih/cpp/INIReader.cpp:65-71 | keys of names without = are equal if and only if section and name are equal letter by letter, in either case |
| IniMap.FoldsCase | parserconf/inih/cpp/INIReader.cpp:65-71 | folding makes two texts equal if and only if they are equal letter by letter, in either case, and leaves no capital |
| IniMap.StepKeepsNames | parserconf/inih/ini.c:144-163 | the parser never delivers a name that contains = |
| IniMap.RunKeepsNames | parserconf/inih/ini.c:144-163 | over whole files, continuation lines included |
| IniMap.EntryIsJoin | parserconf/inih/cpp/INIReader.cpp:73-82 | an entry is the newline-join of the values delivered for that pair, in file order, after dropping leading empty ones |
| IniMap.GetAfterParse | parserconf/inih/cpp/INIReader.cpp:26-31 | Get on a parsed file returns that join, or the default exactly if nothing was delivered |
| IniRoundTrip.Dumper.Dump | parserconf/inih/examples/ini_dump.c:7-19 | one call prints the lines of one triple and remembers the section as the static buffer does |
| IniRoundTrip.DumpAll | parserconf/inih/examples/ini_dump.c:7-19 | a whole trace printed |
| IniRoundTrip.PairSplits | parserconf/inih/ini.c:144-163 | a printed pair line is split into the name and the value it was printed from |
| IniRoundTrip.HeadingSplits | parserconf/inih/ini.c:131-142 | a printed section line is read as that section |
| IniRoundTrip.CallsRead | parserconf/inih/ini.c:106-174 | reading the printed lines delivers exactly the printed calls and leaves the code as it was |
| IniRoundTrip.RoundTrip | parserconf/inih/ini.c:73-181 | for every list of well-formed triples, parsing what the dumper prints returns 0 and makes exactly those calls in order |
| IniRoundTrip.DumpThenParse | parserconf/inih/examples/ini_dump.c:7-31 | the same for the two programs run one after the other |
| IniComments.StylesReadAlike | parserconf/inih/ini.c:106-163 | a well-formed pair written with any white space at its ends and around its separator, with = or :, and with any inline comment behind white space makes the same call and leaves the same state as the printed line |
| IniComments.CommentsNeverDelivered | parserconf/inih/ini.c:47-62 | in no file does a handler get a section or a name with white space followed by a comment prefix, nor such a value unless lines are continued |
| IniComments.FindStops | parserconf/inih/ini.c:47-62 | the scanner stops at the first looked-for character or inline comment and passes over nothing else |
| IniComments.MalformedIff | parserconf/inih/ini.c:131-168 | a name line has no pair if and only if no separator stands before its first inline comment, a section line no heading if and only if no bracket does |
| IniComments.BehindTheBracket | parserconf/inih/ini.c:131-143 | anything may follow the closing bracket of a section line |
| IniComments.IdleLines | parserconf/inih/ini.c:117-123 | lines of white space and lines that begin with ; or # do nothing |
| IniComments.Continuation | parserconf/inih/ini.c:124-130 | an indented line behind a name delivers its whole stripped text as one more value of that name |
| IniComments.NameRemembered | parserconf/inih/ini.c:155-158 | the name that continued lines go to is the first 49 characters of the last one read |
| IniComments.MarkIgnored | parserconf/inih/ini.c:110-116 | a byte order mark at the start of a file changes nothing |
| IniComments.StripsSpace | parserconf/inih/ini.c:37-42 | lskip drops white space only, and all of it |
| IniComments.StripsSpaceBehind | parserconf/inih/ini.c:28-34 | so does rstrip at the other end |
| Tallies.SumRemove | DEDISgen.c:259-305 | a sum over a database does not depend on which entry the cursor delivers first |
| Tallies.CursorExists | DEDISgen.c:259-305 | every database has an order for its cursor |
| DedupScan.KeysTellDigestsApart | DEDISgen.c:73-88 | different digests have different 40-letter keys |
| DedupScan.VisualForm | DEDISgen.c:73-88 | the 40 letters are, for each byte, a plus its low half and a plus its high half |
| DedupScan.TallyCounts | DEDISgen.c:94-133 | after any scan the counter of a key is the number of scanned blocks with that digest |
| DedupScan.TallyAppend | DEDISgen.c:70-143 | scanning one list of blocks and then another is scanning both |
| DedupScan.Scanner.CheckDuplicates | DEDISgen.c:70-143 | after every call total = dif + eq = sum of counters, dif = number of keys, distinctdup = number of keys counted at least twice, space = size * eq; other sizes are not touched |
| ChunkedScan.CutCount | DEDISgen.c:174-187 | a cut gives floor(length / size) blocks |
| ChunkedScan.CutAt | DEDISgen.c:174-187 | the j-th of them stands at offset j * size |
| ChunkedScan.ChunksRefine | DEDISgen.c:147-211 | for a size that divides READSIZE the chunk loop hands on exactly the consecutive blocks of the whole file |
| ChunkedScan.FaithfulIff | DEDISgen.c:147-211 | for all files of a length it does so if and only if the size divides READSIZE or the file ends before the first cut block is complete |
| ChunkedScan.ScanChunk | DEDISgen.c:170-187 | the innermost loop counts the blocks of one chunk in one column |
| ChunkedScan.ScanAllSizes | DEDISgen.c:166-190 | the loop over the sizes counts the chunk once in every column |
| ChunkedScan.ExtractBlocks | DEDISgen.c:147-211 | the whole nest counts, for every size, the blocks of all chunks of the file |
| ChunkedScan.ScanDataset | DEDISgen.c:214-257 | over all files every column ends with the counters its blocks imply |
| ChunkedScan.ScanCountsDataset | DEDISgen.c:70-211 | for sizes that divide READSIZE a counter is the number of whole blocks of the dataset with that digest |
| DedupMerge.Merger.MergeDbs | DEDISgen-utils.c:52-107 | for any cursor order the base becomes the pointwise sum; matched grows by the common keys, and both counters together by the size of the merged-in database |
| DedupMerge.TallyMerged | DEDISgen-utils.c:52-107 | scanning more blocks commutes with merging |
| DedupMerge.MergeIsScanOfBoth | DEDISgen-utils.c:52-107 | two scans merged, either way round, are one scan of both datasets |
| DedupMerge.MergedScans | DEDISgen-utils.c:52-166 | the same for whole file sets, and the printed histogram is the same too |
| DedupMerge.GenOutput | DEDISgen.c:259-314 | for any cursor order entry n is the number of keys with n duplicates, without empty entries |
| DedupMerge.HistogramUnique | DEDISgen-utils.c:111-166 | the histogram does not depend on the cursor's order |
| DedupMerge.HistogramConserves | DEDISgen.c:259-314 | the sum of (n+1) * hist[n] is the sum of the counters, the entries sum to the number of keys, and hist[0] is the keys without duplicate |
| DedupMerge.OutputOfScan | DEDISgen.c:601-612 | in the numbers of a finished scan: total, dif and dif - distinctdup |
| OutputDist.GenOutputdist | benchcore/duplicates/duplicatedist.c:44-117 | each entry grows by the blocks written that often, and the sum of (n+1) * hist[n] grows by the sum of the statistics plus the initial zerodups |
| Slots.WrapMul | utils/db/berk.c:327-336 | wrapping operands early does not change a wrapped product |
| Slots.Powr | utils/db/berk.c:327-336 | square-and-multiply in ints returns the true power wrapped to 32 bits |
| Slots.FindBucket | utils/db/berk.c:338-345 | the loop counts the decimal digits |
| Slots.DigitsBracket | utils/db/berk.c:338-345 | a number with d digits lies in 10^(d-1) up to 10^d |
| Slots.SlotUnique | utils/db/berk.c:389-400 | the decimal intervals behind the slots are disjoint |
| Slots.LabelIsInterval | utils/db/berk.c:420-434 | up to slot 18 the printed label is the decimal interval |
| Slots.LabelsDisjointIff | utils/db/berk.c:420-434 | the printed labels of the slots up to n are disjoint if and only if n is below 20 |
| Slots.PlaceInLabel | utils/db/berk.c:386-406 | a 64-bit key goes to a slot whose printed label holds it if and only if it is below 1410065408 |
| Slots.PlaceInInterval | utils/db/berk.c:386-406 | it goes to the slot of its decimal interval if and only if it has at most nine digits or lies in one of four later intervals |
| Slots.Place | utils/db/berk.c:386-406 | which slot every 64-bit key goes to; none leaves the array, and the slot's printed label holds the key if and only if the key is below 1410065408 |
| Buckets.Gather | utils/db/berk.c:371-412 | before merging each slot holds the total of the keys that go to it, and the array the total of all keys |
| Buckets.SlotIsInterval | utils/db/berk.c:371-412 | if every key goes to its decimal interval, each slot holds the total of its interval |
| Buckets.SlotIsLabel | utils/db/berk.c:371-434 | with keys of at most nine digits each slot holds the total of its printed label |
| Buckets.MergeTail | utils/db/berk.c:414-418 | the loop stays in bounds if and only if the total exceeds 300, and then stops at the last slot from which on more than 300 are counted |
| Buckets.TailMergePreserves | utils/db/berk.c:414-418 | merging preserves the total |
| Buckets.RowsCarry | utils/db/berk.c:420-434 | the printed rows carry exactly what the slots from 1 on hold |
| Buckets.PrintRows | utils/db/berk.c:420-434 | every nonzero slot is printed once, in order, under its own label |
| Buckets.RowsAccount | utils/db/berk.c:414-434 | the rows account for all positive keys if and only if these count nothing or more than 300 |
| Buckets.PrintElements | utils/db/berk.c:347-448 | the whole report, from any database of 64-bit keys to rows: in bounds if and only if more than 300 blocks are counted |

## Left out

- File, device, mmap and Berkeley DB calls, fork and wait, directory walks and error messages: disks and databases are maps, processes are steps, pread and fgets are functions of the file's contents.
- Short reads, failed reads and writes during the run, and a failed open of a scanned file: `pread` delivers all bytes that are there.
- Runs with the integrity option off, which keep no tracker.
- Clocks, latency, throughput, snapshots, plots, logs, command line and configuration handlers.
- The bytes made by `blockModel` and the compression estimate of `get_media_inter`: model bodies are arbitrary fixed bytes and the first model's share is any number up to the total.
- Percentages as doubles: they are reals, so a share or a class that double rounding would move by one is not seen.
- Overflow of the 64-bit counters.
- AltiVec and SSE2 variants of SFMT, the concrete parameter sets, and the statistical quality and period of the generator.
- Collisions of SHA1: two blocks with one digest count as duplicates in the model as in the program.
- The statistics that a run updates: `DEDISbench.c` line 265 indexes the array in the opposite direction to `populate/populate.c` lines 151-156, so no law links the two; `GenOutputdist` is proved for an arbitrary array.
- Writers.StepKeeps: a mixed run's readers are not steps. Between a write and its record a reader may report a mismatch, as the comment at `benchcore/integrity/integrity.c` lines 89-94 says.
- Placement.Genrand: for max above INT64_MAX the redraw loop is followed for any given number of rounds.
- Buckets.PrintElements: the raw listing of keys and the separate line for key 0 are output only.
- IniParser.IniParseStream: lines come from a list, cut at the first NUL as C strings; typed getters of INIReader are not modelled.
- IniRoundTrip.RoundTrip: for a handler that accepts every call, as the dumper does.
- Merging a database into itself, where a cursor would read what the merge writes.
- The branch of `print_elements_print` that extends the slot array: `Slots.Place` shows that no 64-bit key reaches it.
- The header file with one line per written block that `gen_outputdist` prints beside the histogram.
