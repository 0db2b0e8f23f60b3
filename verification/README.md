# box64: models of the dynarec's memory machinery and of five self-contained algorithms

box64 runs x86_64 programs by translating their code while they run. A translation is only good as long
as the guest bytes it was made from stay the same, so the emulator write-protects those pages, keeps a
hash, and marks or drops translations when the guest writes. This project models that machinery, the
memory managers under it, the flag analysis of the translator, and the other algorithms of the
repository that stand on their own. It proves what they promise, over all inputs and all runs.

## How the project is laid out

| files | what they model |
|---|---|
| `DynaState` `DynaInv` `DynaInstall` `DynaRuns` `DynaStale` | the translation cache as a state machine: guest writes, write faults, compiles, lookups; its invariant, its runs, and a run that goes wrong |
| `DynaLaws` `DynaEffects` | what those steps do, said without their own definitions: which block a lookup hands back, what becomes of a page's bits, what each step changes and what it leaves alone |
| `Dynarec` | the same operations as methods that change the cache in place, each proved equal to its step |
| `X31` | the hash of a block |
| `JumpTable` `JumpThreads` | the four-level jump table, and any number of threads at work on it with compare-and-swap |
| `BlockPool` `BlockMarks` `HeapSpec` `CustomHeap` | the boundary-tag allocator: blocks as a list, the marks in memory, the heap of pools, and the code that walks and writes them |
| `MapSpec` `MapMem` | the list of mapped ranges, as a sequence and as the linked list |
| `MemProt` | the two-level page-protection table with its shared default |
| `NativeMap` | the back-link bytes from native code to its block |
| `FlagSpec` `FlagNeed` | which flags each instruction must leave behind: the recursive propagation, its termination, its fixpoint, liveness |
| `FlagReason` | the other side of liveness: nothing is asked for without a use of it further on |
| `FlowSpec` `Predecessors` | the predecessor lists of a block |
| `FlagFlow` | both together: what the analysis guarantees to every execution of a block |
| `QSort` | the three-way `qsort_r` |
| `CfaSpec` `CfaRules` `CallFrame` `Unwinder` | the call-frame instructions of DWARF 4 (sections 6.4.2, 7.6, 7.23): sizing pass and filling pass, and what remembering and restoring a state brings back |
| `CfaMeaning` `CfaEncode` | what lists of those instructions leave behind, and which bytes stand for them |
| `Bits` `CarrySpec` `CarryChain` | add with carry, subtract with borrow, compare: the carry chain and the flags |
| `Text` `Clauses` | the `#if` conditions of the wrapper generator |
| `WrapperArgs` | where a wrapper finds its arguments, against section 3.2.3 of the System V AMD64 ABI |

Code that works in place is a class or a method over arrays, and its contract equates the new state with
a function of the old one; what the program promises is then proved about those functions. A `hide` at
the head of a proof keeps it to the facts it needs.

## What came out

In these places the code does less than it seems to, and a member gives the exact condition.

* A write fault in a 64K chunk that has no list, or a list without its `direct` array, marks nothing. An
  installed block stays safe exactly when each chunk of its watched pages has an array before the
  install, or gets one from a son (`DynaRuns.InstallIsSafeIff`). `DynaStale.StaleCode` is a whole run that
  ends in the guest running code it has overwritten.
* The hash reads a block as the digits of a number in base 31 and keeps it modulo 2^32. A dirty block is
  kept exactly when its number has changed by a multiple of that (`DynaRuns.SurvivesIff`,
  `X31.SameHashIff`): never when one byte has changed (`X31.OneByteDetected`), and for two bytes exactly
  when their changes, weighted by a power of 31 for their distance, make up for each other
  (`X31.TwoBytesMissedIff`), as in `X31.TwoBytesMissed`.
* `updateNeed` loses what an instruction wants from the start when nothing else makes its first visit
  count. `FlagNeed.Quiet` is the condition, `FlagNeed.Needs.LateNeedIsLost` a block that shows it for
  every instruction outside of it.
* `fillPredecessors` reserves a fall-through edge that it never records when the instruction before is
  entered only from itself or from later on (`FlowSpec.FilledExactlyIff`). An execution can take such an
  edge, and so find a flag unsupplied, exactly when it can reach an instruction that is not entered in
  program order and fall out of it (`FlagFlow.StepsRecordedIff`, `FlagFlow.ServedIff`). A jump over a nop
  to a jump back to the nop is such a block (`FlagFlow.EdgeLost`).
* A freed block of no bytes between two filled ones reads as the end of the pool
  (`BlockPool.ReleaseForgesEnd`), so the heap takes requests of at least one byte.
* A size of zero at a page boundary makes `addMapMem` add an empty range unless a zone is there to take it
  in (`MapSpec.AddRangeIff`), and makes `removeMapMem` cut a zone in two that touch when the place is
  inside one (`MapSpec.RemoveRangeIff`). `setProtection` and its like then touch no page exactly when the
  address is a page boundary other than 0; at address 0 they touch all (`MemProt.PagesOfNothing`).
* The register count of the call-frame interpreter is one byte, and its first 17 statuses are set one too
  far in small tables: both conditions are exact (`CfaSpec.TablesFitIff`, `CallFrame.InitFitsIff`).
* Section 6.4.2.4 of DWARF 4 has a restored state bring back the rules of all registers. The interpreter
  brings back the numbers of the rules and not their kinds: the rules are back exactly when the last
  instruction in between that sets the kind of a register leaves the one it had
  (`CfaRules.RestoredRules`). Three instructions show a wrong one (`CfaRules.RestoreMissesStatus`).
* The wrapper generator looks for a long double in memory right behind the argument before it. The System
  V AMD64 ABI aligns it to 16 bytes, so it is found exactly when an even number of eightbytes precedes it
  (`WrapperArgs.PlacedByAbiIff`); behind seven integers it is looked for eight bytes too low
  (`WrapperArgs.LongBehindIntegers`).
* `FindFreeDynarecMap` leaves byte 255 of a chunk's back links alone, so the walk is right exactly below
  256 bytes (`NativeMap.RefilledIff`).

## Model

| member | source | states |
|---|---|---|
| DynaRuns.RunsKeep | src/dynarec/dynablock.c:310-388 | after any run of writes, faults, compiles and lookups from an empty cache, every clean block has its pages closed to the guest and its bytes hash to what was recorded, jump entries lead only to clean families, and every block can be found from each chunk it enters |
| DynaRuns.StepKeeps | src/dynarec/dynablock.c:482-523 | each single step keeps that invariant, guest writes coming between any two |
| DynaRuns.JumpsAreFresh | src/custommem.c:667-713 | what the jump table leads to was translated from bytes with the hash of the present ones, from exactly the present ones unless kept by a revalidation, and its pages are write-protected |
| DynaRuns.AnswersAreFresh | src/dynarec/dynablock.c:482-523 | a block that a lookup hands back to be run is fresh, whatever was written before |
| DynaLaws.AnswerStarts | src/dynarec/dynablock.c:482-523 | the block handed back for an address starts at that address and stands in its slot |
| DynaLaws.AnswerIff | src/dynarec/dynablock.c:482-523 | there is an answer if and only if the slot holds a block whose father needs no test, or is tested while the mutex is free and has bytes whose base-31 number agrees modulo 2^32 with that of the bytes it was made from |
| DynaEffects.LookupLeaves | src/dynarec/dynablock.c:482-523 | a lookup that finds nothing to test, or the mutex taken, changes nothing |
| DynaRuns.OneByteInvalidates | src/dynarec/dynablock.c:495-510 | a dirty block that differs from its translation in one byte does not survive a lookup, however large it is |
| DynaRuns.InstallIsSafeIff | src/dynarec/dynablock.c:213-226 | the state after an install survives every next fault if and only if, before it, each chunk with a watched page of the block has a list with an array, or a list that a son gives one |
| DynaRuns.SurvivesIff | src/dynarec/dynablock.c:495-510 | a dirty block survives a lookup if and only if the numbers its bytes of now and those it was translated from stand for in base 31 differ by a multiple of 2^32 |
| DynaStale.StaleCode | src/dynarec/dynablock.c:213-226 | for every memory there is a run, without such an array, after which a jump entry leads to code made from other bytes |
| DynaInv.FaultReaches | src/dynarec/dynablock.c:152-167 | marking one page reaches each block that meets it, also one that starts in an earlier chunk, through `minstart` |
| DynaInv.FaultKeeps | src/custommem.c:802-833 | giving a page back to the guest keeps the invariant |
| DynaInv.WriteKeeps | src/custommem.c:802-833 | a guest write that the protection lets through changes no byte of a clean block, nor of a block under compilation whose pages are still closed |
| DynaInv.BeginKeeps | src/dynarec/dynarec_native.c:397-410 | starting a compile keeps it, on a hot page and in the excluded range too |
| DynaInv.PlaceKeeps | src/dynarec/dynarec_native.c:421-434 | so does the end of pass 0 with its second protection |
| DynaInv.TakeHashKeeps | src/dynarec/dynarec_native.c:435-437 | and taking the hash |
| DynaInstall.RecheckExact | src/dynarec/dynarec_native.c:593-610 | when the recheck passes, the bytes are those that were hashed at first, although pages may have been open in between |
| DynaInstall.RecordBounds | src/dynarec/dynablock.c:363-375 | moving `minstart` of later chunks only when `maxend` grows keeps what makes marking complete |
| DynaInstall.InstallKeeps | src/dynarec/dynarec_native.c:593-640 | recheck and install with sons, bounds and jump table keep the invariant |
| DynaInstall.ValidateKeeps | src/dynarec/dynablock.c:511-518 | so does revalidating a dirty block by its hash |
| DynaInstall.FreeKeeps | src/dynarec/dynablock.c:59-95 | and freeing a block with its sons: no slot and no jump entry leads to them afterwards |
| DynaInstall.LookupKeeps | src/dynarec/dynablock.c:482-523 | and a lookup, whichever way it goes |
| DynaLaws.ClosingMeans | src/custommem.c:789-798 | closing a page: one that could be written, or was unknown, becomes watched and not writable and changes no other bit, an unknown one counting as 7; any other stays |
| DynaLaws.OpeningMeans | src/custommem.c:821-830 | giving a page back: a watched one becomes writable and not watched and changes no other bit; any other stays |
| DynaLaws.ClosedThenOpened | src/custommem.c:789-830 | giving back undoes closing if and only if the page was not watched before, and an unknown page comes back as 7 |
| DynaLaws.ProtectMeans | src/custommem.c:770-800 | so for every page of a range, and no other page changes |
| DynaLaws.FaultsMean | src/custommem.c:821-830 | and for faults on the pages of a range one after another |
| DynaLaws.RangeComesBack | src/custommem.c:770-833 | closing a range where nothing is watched and faulting on all of it leaves every protection as it was, unknown pages as 7 |
| DynaEffects.FaultFrame | src/custommem.c:802-833 | a fault changes protections, marks and jump entries, and nothing else |
| DynaEffects.FaultMarksOnly | src/dynarec/dynablock.c:117-167 | a father is marked only when it or one of its sons touches the page |
| DynaEffects.FaultDropsOnly | src/dynarec/dynablock.c:117-130 | a jump entry goes if and only if the father of the block it leads to is marked |
| DynaEffects.WriteLands | src/custommem.c:802-833 | after the fault a write to a watched or open page changes exactly its byte |
| DynaEffects.WriteStopped | src/custommem.c:802-833 | and to any other tracked page it does nothing |
| DynaEffects.FreeMeans | src/dynarec/dynablock.c:59-95 | freeing takes exactly the family out of the blocks, the slots and the jump table |
| DynaEffects.ValidateMeans | src/dynarec/dynablock.c:511-518 | a block that is kept is clean, its pages are closed, and exactly its family gains jump entries, where there was none |
| DynaEffects.SonsMean | src/dynarec/dynarec_native.c:611-640 | a son, as long as what is left of its father, is made at exactly the addresses with a list and a free slot |
| DynaEffects.InstallMeans | src/dynarec/dynarec_native.c:593-640 | an install leaves a clean block in its slot, made from the bytes that are there, with their hash |
| DynaEffects.InstallKeepsOthers | src/dynarec/dynarec_native.c:593-640 | and every other block as it was |
| DynaEffects.InstallJumps | src/dynarec/dynablock.c:376-388 | and gives exactly the block and its sons a jump entry, where there was none |
| DynaEffects.FailedRecheck | src/dynarec/dynarec_native.c:593-610 | a failed recheck gives the slot up and does nothing else |
| DynaEffects.CompileSucceeds | src/dynarec/dynablock.c:310-388 | a compile that no fault and no write disturbs, at any address with a list and a free slot, ends with a clean block from the bytes that are there, closed pages and its own jump entry |
| DynaEffects.NotBegun | src/dynarec/dynablock.c:310-345 | a compile on a hot page leaves no trace, one outside of what may be translated a block that never runs |
| DynaEffects.BegunProtects | src/dynarec/dynarec_native.c:406-407 | starting a compile closes the page it starts on and no other |
| DynaEffects.AddListMeans | src/dynarec/dynablock.c:40-57 | a chunk that becomes known has no array and reaches neither back nor on |
| DynaEffects.PlaceMeans | src/dynarec/dynarec_native.c:410-434 | after pass 0: nothing decoded keeps a block that never runs, an opened first page gives the slot up, and a block that goes on to another page has all its pages closed |
| Dynarec.DynaCache.MarkDynablock | src/dynarec/dynablock.c:117-130 | marks the father once and takes the jump entries of the whole family out, nothing else |
| Dynarec.DynaCache.MarkDirectDynablock | src/dynarec/dynablock.c:152-167 | marks exactly the blocks of one chunk that meet the range |
| Dynarec.DynaCache.MarkRangeDynablock | src/dynarec/dynablock.c:213-226 | marks exactly those of the chunk and of the ones back to `minstart`, none without an array |
| Dynarec.DynaCache.FreeDynablock | src/dynarec/dynablock.c:59-95 | removes a father with all sons, their slots and their jump entries, and no more |
| Dynarec.DynaCache.AddNewDynablock | src/dynarec/dynablock.c:248-297 | gives the block that is there, or a new one when asked to create it |
| Dynarec.DynaCache.RecordBlock | src/dynarec/dynablock.c:363-375 | brings `minstart` and `maxend` of the chunk and of the chunks the block runs into up to date |
| Dynarec.DynaCache.FillSons | src/dynarec/dynarec_native.c:611-640 | makes a son for each address whose slot is free, skipping the others |
| Dynarec.DynaCache.StartFill | src/dynarec/dynablock.c:310-345 | takes the slot and protects the first page, or releases the slot on a hot page |
| Dynarec.DynaCache.PlaceFill | src/dynarec/dynarec_native.c:421-434 | gives the slot up when the first page has been opened since, and otherwise protects the block's pages when it crosses into another |
| Dynarec.DynaCache.HashFill | src/dynarec/dynarec_native.c:435-437 | takes the hash and the bytes the code is made from |
| Dynarec.DynaCache.EndFill | src/dynarec/dynarec_native.c:593-640 | installs the block if hash and protection still stand, otherwise gives the slot up |
| Dynarec.DynaCache.DBGetBlock | src/dynarec/dynablock.c:482-523 | tests a dirty block: kept, freed, or refused while the mutex is taken; what it gives back starts at the address and stands in its slot, and is there under exactly the condition of `DynaLaws.AnswerIff` |
| Dynarec.DynaCache.ProtectDB | src/custommem.c:770-800 | closes every tracked page of the range: writable and unknown ones become watched with all other bits kept, the others stay |
| Dynarec.DynaCache.IsProtectedDB | src/custommem.c:835-855 | says whether no page of the range is writable |
| Dynarec.DynaCache.UnprotectDB | src/custommem.c:804-833 | opens the watched pages of the range one by one with all other bits kept, marking what each meets |
| X31.OneByteDetected | src/dynarec/dynablock.c:31-38 | changing any one byte of any block changes the hash |
| X31.HashIsDigits | src/dynarec/dynablock.c:31-38 | the hash is the number that the bytes stand for as digits in base 31, cut down to 32 bits once |
| X31.SameHashIff | src/dynarec/dynablock.c:31-38 | two blocks, of whatever sizes, hash the same if and only if those numbers differ by a multiple of 2^32 |
| X31.TwoBytesMissedIff | src/dynarec/dynablock.c:31-38 | a change of two bytes is missed if and only if 31 to the power of their distance times the first change, plus the second, is a multiple of 2^32 |
| X31.TwoBytesMissed | src/dynarec/dynablock.c:31-38 | such a pair: 65 97 becomes 66 66 |
| X31.FoldInjective | src/dynarec/dynablock.c:31-38 | hashing on from two different values never makes them meet |
| X31.X31HashCode | src/dynarec/dynablock.c:31-38 | the loop computes that hash in 32-bit arithmetic, zero for no bytes |
| JumpThreads.RunsRefine | src/custommem.c:667-768 | under every interleaving of single loads, allocations and compare-and-swaps, the four levels stand for the flat map on which the same requests ran one at a time, in the order of completion; defaults are never written and private levels never replaced |
| JumpThreads.ApplyGood | src/custommem.c:667-768 | one step of one thread keeps all of this, and touches the flat map only when it completes a request |
| JumpThreads.SlotForEver | src/custommem.c:737-768 | the slot returned for an address is its slot in every later state, and reading it gives the flat map |
| JumpThreads.WaitFree | src/custommem.c:667-768 | every request ends within 90 steps of its own thread, whatever the others do |
| JumpThreads.AlreadyReset | src/custommem.c:698-713 | where resetting returns early, the entry is the default already |
| JumpThreads.FreshTables | src/custommem.c:1226-1231 | the tables as set up satisfy the invariant and lead nowhere for any address |
| JumpTable.PublishFlat | src/custommem.c:674-680 | hanging a new blank level in changes the meaning of no address |
| JumpTable.WriteKeeps | src/custommem.c:696-696 | writing a leaf changes the code of exactly one address |
| JumpTable.OpenedStays | src/custommem.c:667-713 | a walk through private levels ends in the same tables ever after |
| JumpTable.SameWay | src/custommem.c:669-672 | two addresses whose walks meet in a private table agree in all indices so far, so different addresses have different slots |
| CustomHeap.Pool.GetFirstBlock | src/custommem.c:103-116 | finds the first free block that is large enough, from any mark on, or reports that there is none |
| CustomHeap.Pool.GetMaxFreeBlock | src/custommem.c:118-144 | the forward and the backward walk return the same: the largest free block, zero below eight bytes |
| CustomHeap.Pool.MaxBackward | src/custommem.c:130-143 | the early way out of the backward walk is never taken |
| CustomHeap.Pool.AllocBlock | src/custommem.c:146-176 | writes the marks of the list after the allocation and no others, and moves `first` to the next free mark when it took the first |
| CustomHeap.Pool.FreeBlock | src/custommem.c:177-205 | joins the block with free neighbours, writes only marks that were there, returns the size of the joined block, and keeps `first` the earliest free mark |
| CustomHeap.Heap.CustomMalloc | src/custommem.c:248-294 | serves from the first pool that promises enough, else from a new one, changing that pool only |
| CustomHeap.Heap.CustomFree | src/custommem.c:329-348 | gives the block back to the pool that holds it; null and foreign addresses change nothing |
| CustomHeap.WritesSpareLive | src/custommem.c:88-90 | a block that stays live shares no byte with any mark before or after |
| BlockMarks.AllocTiles | src/custommem.c:146-166 | the writes of an allocation leave memory exactly tiled, each mark mirroring both neighbours |
| BlockMarks.JoinTiles | src/custommem.c:177-199 | so do those of a free, in all four cases of joining |
| BlockMarks.EndOnlyAtEnd | src/custommem.c:107-107 | a mark reads as the end of the pool only at its end |
| BlockPool.AllocKeeps | src/custommem.c:146-166 | allocating leaves no two free neighbours and no empty block, and the sizes with their marks still add up to the pool |
| BlockPool.ReleaseKeeps | src/custommem.c:177-199 | so does freeing |
| BlockPool.ReleaseForgesEnd | src/custommem.c:184-199 | freeing makes an end mark inside the pool if and only if the block is empty and has no free neighbour |
| BlockPool.AllocPayloads | src/custommem.c:146-176 | an allocation adds one payload, of at least the size asked for, and leaves all others |
| BlockPool.GrantedTight | src/custommem.c:146-166 | a block is split if and only if it has more than two marks to spare, and then grants the size asked for |
| BlockPool.ReleasePayloads | src/custommem.c:177-205 | a free takes away that payload and no other |
| BlockPool.PayloadsApart | src/custommem.c:88-90 | payloads overlap neither each other nor any mark |
| HeapSpec.RunsKeep | src/custommem.c:248-348 | after any run of requests the pools are tiled with true summaries, and what is live is exactly what the callers own, no two sharing a byte |
| HeapSpec.OpensOnlyWhenFull | src/custommem.c:248-275 | a new pool is opened if and only if no summary promises the size, and then no pool has a free block of at least that size and eight bytes |
| HeapSpec.MallocPlaces | src/custommem.c:248-265 | the request is served at the first free block that is large enough, in the first pool whose summary promises one and that has one |
| HeapSpec.NewPoolIsSmallest | src/custommem.c:266-270 | a new pool is the smallest that has the usual size and room for the request and two marks |
| HeapSpec.AllocMaxOk | src/custommem.c:258-260 | recomputing the summary only when the largest block was taken keeps it true |
| HeapSpec.ReleaseMaxOk | src/custommem.c:339-340 | raising it on a free keeps it true |
| HeapSpec.PromiseKept | src/custommem.c:254-256 | a pool whose summary reaches the size has a block for it |
| HeapSpec.SizesFit | src/custommem.c:77-83 | every size fits the 31 bits of its mark |
| HeapSpec.MallocLive | src/custommem.c:248-294 | a request adds one live block, large enough and new, and keeps the others |
| HeapSpec.FreeLive | src/custommem.c:329-348 | giving back removes exactly that block |
| MapMem.Ranges.AddMapMem | src/custommem.c:868-904 | the linked list becomes the list after the addition, fusing included, for any begin and end; for a size of zero or more it says exactly when that is canonical |
| MapMem.Ranges.RemoveMapMem | src/custommem.c:905-947 | and the list after the removal: dropped, split, trimmed at either end; the head is never dropped; exactly when it is canonical |
| MapSpec.AddGood | src/custommem.c:868-904 | adding keeps the list sorted, page-aligned, apart and merged with its head at 0, and the set becomes the union |
| MapSpec.RemoveGood | src/custommem.c:905-947 | removing keeps it so, and the set loses exactly the range |
| MapSpec.RunsDenote | src/custommem.c:868-947 | after any run an address is in the list exactly when the last request about it says so |
| MapSpec.TidyUnique | src/custommem.c:868-947 | there is one such list for each set of addresses |
| MapSpec.EmptyAddIff | src/custommem.c:868-904 | adding an empty range keeps the list canonical if and only if a zone holds or touches its begin |
| MapSpec.EmptyRemoveIff | src/custommem.c:905-947 | removing one does if and only if its begin is not inside a zone: then the zone is cut in two that touch |
| MapSpec.AddRangeIff | src/custommem.c:868-904 | for a size of zero or more, adding keeps the list canonical if and only if the size was not zero at a page boundary, or a zone takes the place in |
| MapSpec.RemoveRangeIff | src/custommem.c:905-947 | and removing if and only if that place is not inside a zone |
| MemProt.Table.UpdateProtection | src/custommem.c:949-978 | the access of each page of the range becomes that of `prot`; a page is watched afterwards if and only if it was before or `prot` says so; no other page changes |
| MemProt.AccessUnique | src/custommem.c:970-975 | there is only one protection like that |
| MemProt.Table.SetProtection | src/custommem.c:980-1004 | the pages of the range get the protection, no other page changes |
| MemProt.Table.AllocProtection | src/custommem.c:1006-1039 | those of the range that had none get it, chunk by chunk |
| MemProt.Table.FreeProtection | src/custommem.c:1072-1111 | those of the range have none, and no chunk of the range stays allocated with nothing in it |
| MemProt.Table.GetProtection | src/custommem.c:1113-1120 | reads the flat map, zero above 48 bits |
| MemProt.Table.BlockEmpty | src/custommem.c:1063-1070 | looking four bytes at a time says whether all are zero |
| MemProt.PagesMean | src/custommem.c:953-958 | the page indices computed from a byte range are exactly the pages it touches |
| MemProt.PagesOfNothing | src/custommem.c:953-958 | a size of zero touches no page if and only if the address is a page boundary other than 0; at 0 it touches all |
| NativeMap.Pool.Add | src/custommem.c:446-451 | notes a chunk and its block without disturbing the chunks that are there |
| NativeMap.Pool.Find | src/custommem.c:485-503 | from any byte of a live chunk the walk stays in the chunk, ends at its start, and gives its block |
| NativeMap.WalkHome | src/custommem.c:450-451 | back links cut off at 255 still lead to the start, and to nothing before it |
| NativeMap.RefilledIff | src/custommem.c:383-388 | with the other fill rule they do if and only if the chunk is shorter than 256 bytes |
| FlagNeed.Needs.UpdateNeed | src/dynarec/dynarec_native.c:323-366 | terminates on every block, loops included; needs only grow; what is asked is held; every instruction that changed, and the one asked, is settled or had nothing to pass on; and every flag in a need, by name or as pending, is justified when what was asked is |
| FlagNeed.Needs.Settle | src/dynarec/dynarec_native.c:519-521 | after a whole round every instruction holds what it wanted, each quiet one is settled with all its predecessors, and nothing is in a need that is not justified |
| FlagNeed.Needs.SettleAll | src/dynarec/dynarec_native.c:519-521 | when all are quiet the round ends in a fixpoint |
| FlagNeed.Needs.LateNeedIsLost | src/dynarec/dynarec_native.c:350-351 | for every instruction that is not quiet there is a block where it does not |
| FlagNeed.StepsDrop | src/dynarec/dynarec_native.c:323-346 | a visit that changes anything uses up some of the steps that are left |
| FlagNeed.QuietAsksNothing | src/dynarec/dynarec_native.c:350-360 | an instruction that is idle at the start is quiet if and only if it asks for nothing |
| FlagReason.NamedHasReason | src/dynarec/dynarec_native.c:323-373 | the other way round: a flag in a need by name has a path of recorded edges, past no barrier and nothing that sets the flag, to an instruction that uses it, or to one that makes it out of a pending it needs |
| FlagReason.OneJustified | src/dynarec/dynarec_native.c:323-366 | every step keeps that, and asks of the instructions before only what is used here, left over here, or pending for an exit |
| FlagReason.AskOfBarrier | src/dynarec/dynarec_native.c:356-358 | a barrier asks for nothing or for pending alone |
| FlagReason.AskNotAll | src/dynarec/dynarec_native.c:360-361 | an instruction that sets flags never asks for all of them and pending at once |
| FlagSpec.LivenessSound | src/dynarec/dynarec_native.c:323-373 | in a fixpoint, a flag that is used, leaves the block or is wanted from the start further along any path, undecided in between, is needed by name or as pending at the start of the path |
| FlowSpec.FilledExactly | src/dynarec/dynarec_native.c:313-319 | every jump inside the block is recorded once, a fall-through edge once or not at all, nothing else |
| FlowSpec.FilledFits | src/dynarec/dynarec_native.c:286-311 | at every moment no region holds more than was reserved |
| FlowSpec.FilledExactlyIff | src/dynarec/dynarec_native.c:286-319 | the regions are filled exactly if and only if no instruction with a successor is entered only from itself or later |
| FlowSpec.FilledIsReal | src/dynarec/dynarec_native.c:313-319 | what is recorded is a jump or a fall-through of the code |
| FlowSpec.RegionsApart | src/dynarec/dynarec_native.c:304-311 | the regions lie one after another |
| FlowSpec.FeedsFlags | src/dynarec/dynarec_native.c:313-319 | the recorded edges satisfy what the flag analysis needs to end |
| Predecessors.PredTable.FillPredecessors | src/dynarec/dynarec_native.c:286-321 | the array has the size of all regions, and each holds the recorded sources of its instruction in order |
| FlagFlow.EveryExecutionServed | src/dynarec/dynarec_native.c:462-521 | when no execution falls out of an instruction that is not entered in program order, then in every execution a flag that is used, leaves the block or is wanted later on, undecided in between, is in the need of each instruction before |
| FlagFlow.ServedIff | src/dynarec/dynarec_native.c:462-521 | and only then: otherwise there are instructions with this flow, a fixpoint for them and an execution in which a used flag is in no need |
| FlagFlow.StepsRecordedIff | src/dynarec/dynarec_native.c:313-319 | every step of every execution is a recorded edge if and only if each instruction that is reached, and goes on by falling through, is the first, jumped to from before, or fallen into from such a one |
| FlagFlow.EdgeLost | src/dynarec/dynarec_native_pass.c:192-207 | a block of three instructions, extended over a nop, where a step is not recorded |
| FlowSpec.FallFilledIff | src/dynarec/dynarec_native.c:313-319 | a fall-through is recorded if and only if the instruction before is entered in program order |
| FlagFlow.WorkOutFlags | src/dynarec/dynarec_native.c:462-521 | filling the predecessors and then settling the needs ends in a fixpoint over the recorded edges in which every need is justified |
| QSort.QSort | src/android/qsort_r.c:101-182 | the range is permuted, the rest kept, and for every total preorder it is sorted; the recursion and the loop end |
| QSort.FatPartition | src/android/qsort_r.c:135-158 | leaves equal, less, greater, equal around the pivot; without a swap nothing has moved |
| QSort.Gather | src/android/qsort_r.c:168-172 | the two block swaps bring the equal ones to the middle |
| QSort.VecSwap | src/android/qsort_r.c:89-89 | exchanges two blocks and keeps everything else |
| QSort.InsertionSort | src/android/qsort_r.c:111-118 | sorts the range |
| QSort.Med3IsMedian | src/android/qsort_r.c:93-99 | for a total preorder the chosen one of three lies between the other two |
| Unwinder.Unwind | src/elfs/elfdwarf_private.c:299-585 | for accepted instructions with registers below 255 both passes run inside the tables, the depth never below zero or above what was allocated, and the result is that of the instructions one after another |
| Unwinder.Tables.ExecPart | src/elfs/elfdwarf_private.c:549-575 | one part of the second pass, stepping over the same bytes as the first |
| Unwinder.Tables.ExecOne | src/elfs/elfdwarf_private.c:422-539 | one instruction has its effect, and ends where the decoding says |
| Unwinder.Tables.SetStatus | src/elfs/elfdwarf_private.c:15-15 | changes the status of one register and not that of its neighbour in the byte |
| Unwinder.Tables.RestoreReg | src/elfs/elfdwarf_private.c:540-563 | brings number and status of a register back, or fails in the common part |
| Unwinder.Tables.RememberState | src/elfs/elfdwarf_private.c:522-525 | pushes the numbers |
| Unwinder.Tables.RestoreState | src/elfs/elfdwarf_private.c:526-529 | pops the numbers and leaves the statuses |
| Unwinder.Tables.constructor | src/elfs/elfdwarf_private.c:390-406 | makes the tables, the first 17 registers unchanged and the others undefined |
| CallFrame.SizePass | src/elfs/elfdwarf_private.c:306-388 | the skipping pass accepts what the decoding accepts, and finds the largest register and the greatest depth |
| CallFrame.ReadUleb | src/elfs/elfdwarf_private.c:78-87 | reads the number that section 7.6 of DWARF 4 defines, and stops behind it |
| CallFrame.ReadSleb | src/elfs/elfdwarf_private.c:88-104 | the same for signed numbers |
| CallFrame.SkipLeb | src/elfs/elfdwarf_private.c:67-67 | stops where reading would |
| CallFrame.SetOneStatus | src/elfs/elfdwarf_private.c:14-15 | a status read after a write is the one written, or the one that was there |
| CallFrame.InitFitsIff | src/elfs/elfdwarf_private.c:399-401 | setting the first statuses stays inside if and only if there are 17 registers or an odd number of them |
| CfaSpec.TablesFitIff | src/elfs/elfdwarf_private.c:298-393 | every register named, and that of the return address, has its place in the tables if and only if all are below 255 |
| CfaSpec.DepthAgrees | src/elfs/elfdwarf_private.c:320-331 | the depth of the first pass is the number of states the second has on its stack |
| CfaRules.RestoredRules | src/elfs/elfdwarf_private.c:522-529 | for whatever instructions between a state remembered and the same state restored: it comes through if and only if each can be carried out; the numbers and the earlier states come back; the statuses do if and only if the last instruction that sets the status of a register leaves the one it had |
| CfaRules.RunRestores | src/elfs/elfdwarf_private.c:549-576 | so in every execution of bytes that comes through such a stretch, with any limit |
| CfaRules.ExecPerforms | src/elfs/elfdwarf_private.c:549-576 | an execution of bytes is the instructions it comes to, one after another |
| CfaRules.RestoreMissesStatus | src/elfs/elfdwarf_private.c:522-529 | remembering, leaving any register undefined and restoring ends with that register undefined |
| CfaMeaning.FrameAddress | src/elfs/elfdwarf_private.c:453-474 | the register of the frame address is the last that a def_cfa or def_cfa_register names, and its offset that of the last def_cfa or def_cfa_offset form, factored where that form is signed |
| CfaMeaning.Location | src/elfs/elfdwarf_private.c:424-452 | the location is the last that was set, or the first one, plus all deltas since times the code alignment, modulo 2^64 |
| CfaMeaning.NumbersMean | src/elfs/elfdwarf_private.c:427-529 | in the present table and in every remembered one, the number of each register is that of the last rule for it at that level, factored by the data alignment, or the one it began with |
| CfaMeaning.NumberIsLast | src/elfs/elfdwarf_private.c:427-521 | without remembering, simply that of its last rule |
| CfaMeaning.ComesThrough | src/elfs/elfdwarf_private.c:422-539 | instructions come through if and only if each can be carried out and none restores a state that was not remembered |
| CfaMeaning.RanIsPrefix | src/elfs/elfdwarf_private.c:549-576 | what an execution of bytes carries out is a prefix of the instructions listed there, all of them unless it fails or passes the limit |
| CfaMeaning.RanWithin | src/elfs/elfdwarf_private.c:549-576 | and up to the last of these the location is not beyond the limit |
| CfaMeaning.ExecMeans | src/elfs/elfdwarf_private.c:549-576 | so frame address, location and numbers after an execution of bytes are those the list of its instructions says |
| CfaMeaning.BothParts | src/elfs/elfdwarf_private.c:549-576 | all of the common part, and then the part of the function up to the first location beyond the address, with the rules of the common part to restore |
| CfaMeaning.LargestIsNamed | src/elfs/elfdwarf_private.c:312-388 | the largest register found in sizing is one that an instruction names, or that of the return address |
| CfaMeaning.MentionedFits | src/elfs/elfdwarf_private.c:422-539 | every register that the second pass touches is one the first has seen |
| CfaMeaning.GreatestDepth | src/elfs/elfdwarf_private.c:320-331 | the depth found in sizing is reached, and never exceeded |
| CfaEncode.FetchUndoes | src/elfs/elfdwarf_private.c:422-539 | reading any bytes that the table of opcodes allows for an instruction gives that instruction back, and stops behind them |
| CfaEncode.EveryByteEncodes | src/elfs/elfdwarf_private.c:422-539 | and every first byte with any operands is one that the table allows |
| CfaEncode.ListedUndoesEncode | src/elfs/elfdwarf_private.c:549-576 | so reading a written list of instructions gives the list back |
| CfaEncode.UlebUndoes | src/elfs/elfdwarf_private.c:78-87 | an unsigned number is read as what its bytes stand for in section 7.6 of DWARF 4, padded ones included |
| CfaEncode.SlebUndoes | src/elfs/elfdwarf_private.c:88-104 | and a signed one |
| CfaRules.StatusTable | src/elfs/elfdwarf_private.c:16-20 | the code of each kind of rule |
| CarryChain.Emu.AdcNarrow | src/emu/x64primop.c:213-259 | result and the flags CF, ZF, SF, OF, AF, PF of an 8- or 16-bit sum with carry, in terms of the numbers |
| CarryChain.Emu.AdcWide | src/emu/x64primop.c:261-321 | the same for 32 and 64 bits, the carry found in halves |
| CarryChain.Emu.Sbb | src/emu/x64primop.c:1162-1248 | and for a difference with borrow, in all four sizes |
| CarryChain.Emu.Cmp | src/emu/x64primop.c:327-406 | comparing sets the flags of the difference and returns the first operand |
| CarryChain.Emu.AddLimbs | src/emu/x64primop.c:213-321 | running `Adc` over the limbs of two long numbers, of any number and size, leaves their exact sum in place, the last CF being the true carry |
| CarryChain.Emu.SubtractLimbs | src/emu/x64primop.c:1162-1248 | and running `Sbb` their exact difference and borrow |
| CarryChain.ChainAdds | src/emu/x64primop.c:292-321 | chaining the words and carries over limbs gives the exact sum in proper limbs |
| CarryChain.ChainSubtracts | src/emu/x64primop.c:1228-1248 | and the exact difference with its borrow |
| CarryChain.HalvesCarry | src/emu/x64primop.c:301-311 | adding the halves one after the other finds the carry out of the word |
| CarryChain.ParityIsEven | src/emu/x64primop.c:109-109 | the parity table says even for every byte with an even number of ones |
| CarrySpec.CarryChainBit | src/emu/x64primop.c:230-233 | at every bit the chain computed from operands and result is the carry out of that bit |
| CarrySpec.BorrowChainBit | src/emu/x64primop.c:1176-1180 | and the borrow chain the borrow |
| CarrySpec.CarryOverflow | src/emu/x64primop.c:232-232 | the two top carries differ if and only if the signed sum does not fit |
| CarrySpec.BorrowOverflow | src/emu/x64primop.c:1179-1179 | and the two top borrows if and only if the signed difference does not |
| Clauses.ParseUndoesPrint | rebuild_wrappers.py:254-325 | parsing a printed list of clauses gives the list back, empty lists, empty clauses and single ones included |
| Clauses.SplitDefInjective | rebuild_wrappers.py:304-319 | two lists with the same sorting key are the same |
| Clauses.OrderUnique | rebuild_wrappers.py:618-632 | sorted by that key, the same conditions come out in the same order however they were found |
| Clauses.OrderMeans | rebuild_wrappers.py:299-319 | the order is by the number of clauses, then the length of the clauses, then the defines from left to right: the name listed first before, and of one name the define that is not inverted |
| Clauses.PrintedText | rebuild_wrappers.py:245-325 | the printed form: a mark before an inverted define, brackets around clauses unless there is exactly one |
| Clauses.PrintInjective | rebuild_wrappers.py:321-325 | different lists print differently, so the printed form may serve as a key |
| Text.SplitJoin | rebuild_wrappers.py:250-267 | splitting at the separator undoes joining with it |
| WrapperArgs.PlacedInOrder | rebuild_wrappers.py:1176-1212 | the first six integer arguments are looked for in general registers and the first eight floating ones in the others, in order, the rest in memory, one right behind the other |
| WrapperArgs.PlacedByAbiIff | rebuild_wrappers.py:1176-1212 | every argument is looked for where the System V AMD64 ABI puts it if and only if each long double has an even number of eightbytes before it |
| WrapperArgs.LongTooLow | rebuild_wrappers.py:1207-1209 | the first that has an odd number is looked for eight bytes too low |
| WrapperArgs.LongBehindIntegers | rebuild_wrappers.py:1207-1209 | as behind seven integers: 16 and not 24 |
| WrapperArgs.StackApart | rebuild_wrappers.py:1207-1209 | the places looked at in memory do not overlap, and the generator leaves none between them |
| WrapperArgs.PairPlaced | rebuild_wrappers.py:1190-1208 | a value of two words is looked for in the next two general registers, one word in the last and one in memory when only that is left, and in memory when none is |
| WrapperArgs.NothingTaken | rebuild_wrappers.py:1184-1212 | the emulator, a variable list and constants take no place; no argument takes one and writes nothing |
| WrapperArgs.SimpleIffRegisters | rebuild_wrappers.py:799-823 | among signatures of simple letters those accepted are exactly those without an argument in memory, and the value counts the floating registers |
| WrapperArgs.CheckSimple | rebuild_wrappers.py:799-823 | accepts such signatures with at most six and eight arguments, negative for a floating result |

## Left out

- Emission of native code, `native_pass0` to `native_pass3` and the register cache: a translation is taken as made from the bytes at the time of the hash.
- Mutexes, `sigsetjmp` and signal delivery: recheck with install, and hash with re-protection, are one step each; a lookup that finds the mutex taken is marked busy. The moment between the recheck and the filling of the jump table is not modelled.
- The `gone` flag: a freed block is removed.
- Creating a block again after an invalidated one, in the same call, is a step of its own.
- Guest `mprotect` and `mmap` of pages with live blocks, `FreeRangeDynablock`, `DBAlternateBlock`: their callers are not part of this model. A son that `FreeRangeDynablock` takes out of its slot can later clear the slot of a newer block.
- Hot-page counters: being on a hot page is an input.
- Addresses above 48 bits: they are neither tracked nor protected, and blocks lie below.
- The jump table as code reads it: the generated code's own walk is not modelled; a freed, never published level does not come back at the same address.
- `expandBlock` and `customRealloc`: the growth test looks at the block's own fill bit, so growth is never reached for an allocated block.
- `find47bitBlockNearHint` and `findBlockNearHint`.
- `ActuallyFreeDynarecMap`: it looks the block up by the address of its mark, not of its code.
- `setProtection` and its like call the list of mapped ranges first: the two are modelled apart, and each call is one on both.
- `mprotect` calls and `loadProtectionFromMap`: effects outside the tables.
- Unwinder.Unwind: requires 17 registers or an odd number, as `CallFrame.InitFitsIff` explains; LEB128 numbers of 2^31 and above are read exactly, where the code shifts in `int`; bytes beyond the section read as zero; the search for the description of the address and the final reading of registers are not part of this model.
- Unwinder.Tables.constructor: requires 17 registers or an odd number, as `CallFrame.InitFitsIff` explains.
- MapMem.Ranges.AddMapMem: an end more than one below the begin is no size at all, and nothing is said about the order of the list then.
- MapMem.Ranges.RemoveMapMem: the same.
- FlagNeed.Needs.UpdateNeed: the flags wanted at the start are none or pending, as the header says they basically are.
- CarryChain.Emu.AdcNarrow: the lazy flags are taken as worked out, since `UpdateFlags` is not part of this model.
- Byte-level swapping in `qsort_r`: elements are values of any type.
- WrapperArgs.PlacedByAbiIff: is over letters of one class each; `E`, `V`, `v`, `M` and `H` are placed as the generator does, and nothing is said about the ABI there.
- The text of an argument in a wrapper: the letter and its place stand for it.
- Interpreter opcodes, floating point, `div` and `idiv`, ELF loading, environment parsing, the Android shims for shm, spawn and glob, tracing and logging.
