# Omniprobe, modelled and proved in Dafny

Omniprobe clones GPU kernels with injected calls that report what the kernel does, swaps the
clones in when kernels are dispatched, and reduces the streams of reports to summaries. This
project models the parts of it that hold state or do arithmetic, and proves what they keep.
`dafny verify dfyconfig.toml` checks all of it.

| File | What it is about |
|---|---|
| `Interceptor.dfy`, `Dispatch.dfy` | the signal pool, the pending dispatches and the signal runner, under every interleaving |
| `KernelNames.dfy` | the names by which instrumented kernels are found |
| `Kernargs.dfy` | argument descriptors, and rewriting an argument segment for the clone |
| `Ir.dfy`, `Kernels.dfy` | kernels as control-flow graphs, what running one does, and cloning |
| `AddressPass.dfy`, `Dominance.dfy`, `AddressTrace.dfy` | the pass that reports memory accesses, static single assignment form, and the pass's correctness |
| `BlockPass.dfy` | the pass that reports the start of basic blocks, and its correctness |
| `BankConflicts.dfy`, `CacheLines.dfy`, `MemoryAnalysis.dfy` | LDS bank conflicts, L2 line counts, and the stored totals |
| `BasicBlocks.dfy`, `Credits.dfy` | per-wave accounting of basic blocks |
| `ComputeResources.dfy` | the nested map of compute resources and its renderer |
| `Scope.dfy`, `ScopeRules.dfy` | the language of instrumentation scopes, what it selects and what it refuses |
| `Glob.dfy`, `StringArray.dfy`, `StringTokens.dfy` | the library filter's globs, its reader of string arrays, and which texts that accepts |
| `ModuleLink.dfy` | which modules are linked with the entry function, and in which order |
| `Wrappers.dfy`, `Words.dfy`, `Text.dfy`, `FiniteSets.dfy` | an option type, sizes of machine words, printed numbers, and sizes of finite sets |

## How the model stands for the program

**Dispatches.** `HsaInterceptor` has the fields that `mutex_` guards; its methods are the critical
sections, each proved equal to a function on a value of type `Core`. `Dispatch` is the transition
system over those functions: application threads take an id, run `fixupPacket` and write the
packet, the GPU decrements completion signals, and the runner takes a snapshot, polls one signal
at a time and completes it. The unprocessed rest of the runner's snapshot is part of the state.
A signal carries its value, and the world outside (signals, kernarg buffers, comms objects) keeps
a history of allocations, releases and decrements, so that "once" and "only after" can be said.
`getPendingSignals` locks the type name `mutex` and not the member (src/interceptor.cc:583), as
some cache methods do (src/utils.cc:174, 201, 740, 758); those sections are modelled as the
atomic steps that they are meant to be.

**Argument segments.** A signature lists explicit parameters, placed at the next multiple of their
alignment, and a hidden area that starts at the next multiple of 8 after them; the segment covers
both in whole dwords. This is the layout of the "Code Object V3 Metadata" section of the LLVM
User Guide for AMDGPU. The metadata of a kernel is a function of its signature, so that computing
the descriptor, looking it up and rewriting the segment can be composed and compared with the
clone's own layout. Source segments are taken to be padded to a multiple of 8 bytes, because the
length that is copied already is.

**Passes.** A kernel is a control-flow graph with PHIs; instructions that the passes do not look at
are `Other`, and the machine that runs a kernel is a parameter: any effect for `Other`, any loads,
stores and buffer accesses, any encoding of descriptors, any view of an address as a flat one. The
theorems hold for every such machine, every memory, every argument and any number of blocks. A
message call touches only the trace. Kernels are in static single assignment form: each value is
set by one instruction, and that instruction comes before every reading one on every way there.
From this it is proved that a buffer descriptor still matches its base wherever it is used, which
is what lets the pass read the base there.

**Streams.** The handlers' per-message work is a method proved equal to a function of the message and
the stored state; what a whole stream leaves is then a theorem about that function. 64-bit times
wrap around, and are compared with unbounded sums modulo the word, and exactly where they fit.

## What was found

- `renderComputeResources` pops the bracket of the list, and not a comma, when nothing was recorded:
  for kernel names without quotation marks, which are not escaped, its output is balanced exactly when
  something was (`RenderResources`, `EmptyReportIsBroken`).
- The number of cache lines "needed" is no lower bound when lanes share addresses
  (`SharedAddressUsesFewerThanNeeded`). It is one, for all line sizes, exactly when no two accesses
  overlap (`NeededIsALowerBound`).
- Rewriting an argument segment copies the padding between explicit arguments from the source, so that
  a byte outside all arguments can arrive with any value (`PaddingArrives`). All bytes outside the clone's
  arguments are zero exactly when, in what is copied of the source, all bytes outside the original's
  arguments are (`OtherBytesAreZero`).
- When the instrumented kernel is known but the original is not, a descriptor is found all the same, and
  the original's hidden arguments are not copied (`LookupYieldsUsedDescriptor`, and for one kernel
  `HiddenArgumentIsDropped`).
- The name that the runtime looks up is the name that the pass gives a clone exactly for names without
  `)` and without `.kd` (`MatchesCloneName`); `f()` is looked up as `__amd_crk_f(, void*)` and its clone
  is called `__amd_crk_f()Pv` (`NamesCanDiffer`).
- A wave whose first message already comes from an `s_endpgm` block keeps a state, and its next message
  is accounted as part of that life (`Closed`).
- The file name of an LDS access is the one that the last recorded global access with the same hash gave,
  and unknown when there is none or it gave none (`LdsFileIsLastNamed`). So the same message is stored in
  different places by different streams (`LdsPlaceDependsOnTheStream`); everything else that a message
  contributes depends on the message alone (`TotalsAreSums`).
- `.` does not match line terminators, so `**` does not cross them: all globs are compiled faithfully for
  a path exactly when it has none (`CompilationIsFaithful`).
- A line number is cut to 32 bits and so is the next one, up to which its range goes: line 2^32 - 1 is never
  selected, whatever the definition (`LineSelects`).
- The string reader takes any character after a backslash for itself; by section 7 of RFC 8259 some of
  these are control characters. It yields what a JSON string means exactly when no such escape and no
  `\u` escape occurs (`ReaderAgreesWithJson`). It accepts exactly the texts that consist, between the
  brackets, of blanks, commas and strings in any order (`AcceptedIsTokens`). Such a text is a JSON array
  of strings exactly when one comma stands between any two strings and nowhere else, blanks are those
  of JSON, and strings have only escapes of JSON and no control characters (`AcceptedIsJson`). The text
  `[,"a""b",,]` is accepted and is none (`CommasAreLoose`).
- Of a buffer access the pass looks at the descriptor and one operand, the byte offset of a raw access and
  the index of a struct access; it sign-extends the operand, and takes base 0 when the descriptor cannot
  be traced. With a traced descriptor the reported address is the accessed one exactly when the operand is
  below 2^31 and the others add nothing to it (`BufferAddressIsExact`, `StructAddsNothing`). For a raw
  access with offset 4 and scalar offset 16, and a struct access with the same operands, it is not
  (`AddressIsMissed`).
- In `linkModules` a module that only declares the entry function counts as containing it: with a second
  one the call fails (`LinkModules`). A module is also taken for a local definition of a missing symbol,
  which does not resolve it (`LocalDefinitionIsTaken`); each module is taken at most once, so the loop
  still ends. Nothing left over defines a symbol that the composite lacks (`LeftoverIsClosed`), and no
  input module exports one (`PlanIsComplete`).

## Model

| member | source | states |
|---|---|---|
| BankConflicts.CollectLanes | src/memory_analysis_handler.cc:45-54 | the lanes of a conflict set are the union of its half-open ranges |
| BankConflicts.ConflictSet.RegisterAccess | src/memory_analysis_handler.cc:55-63 | a lane of the set adds its dword to what is registered; any other lane changes nothing and is reported |
| BankConflicts.ConflictSet.BankConflictCount | src/memory_analysis_handler.cc:65-71 | the count is one less than the most different dwords on one bank, and at least 0 |
| BankConflicts.ConflictSet.Clear | src/memory_analysis_handler.cc:73-77 | nothing is registered any more |
| BankConflicts.ScheduleLowerBound | inc/memory_analysis_handler.h:57-62 | every schedule of requests with at most one dword per bank that serves the registered dwords has at least count + 1 requests |
| BankConflicts.OptimalScheduleExists | inc/memory_analysis_handler.h:57-62 | a schedule of exactly count + 1 requests exists |
| BankConflicts.FirstDwordIsEnough | src/memory_analysis_handler.cc:59-62 | for naturally aligned accesses of 1, 2, 4, 8 or 16 bytes, registering the first dword gives the count of all touched dwords |
| BankConflicts.PairConflicts | src/memory_analysis_handler.cc:59-71 | two dwords conflict exactly when they differ and lie on the same one of 32 banks |
| CacheLines.CollectLines | src/memory_analysis_handler.cc:374-385 | the lines from the first to the last byte of each access, in wrapping 64-bit arithmetic |
| CacheLines.LinesAreByteLines | src/memory_analysis_handler.cc:376-383 | without wrap-around these are exactly the lines that some accessed byte lies on |
| CacheLines.DisjointUseAtLeastNeeded | src/memory_analysis_handler.cc:373-385 | disjoint accesses use at least the lines said to be needed |
| CacheLines.SharedAddressUsesFewerThanNeeded | src/memory_analysis_handler.cc:373-385 | an input for which fewer lines are used than are said to be needed: all lanes at one address |
| CacheLines.NeededIsALowerBound | src/memory_analysis_handler.cc:373-385 | at every line size at least the lines said to be needed are used, if and only if no two accesses overlap |
| CacheLines.TiledUse | src/memory_analysis_handler.cc:373-385 | accesses that tile a region in any order use needed or needed + 1 lines, and needed exactly when the start offset does not carry over a boundary |
| MemoryAnalysis.LanesPartitioned | src/memory_analysis_handler.cc:118-145 | the conflict sets of each size partition the 64 lanes |
| MemoryAnalysis.MakeTable | src/memory_analysis_handler.cc:118-145 | the table holds conflict sets for 1, 2, 4, 8 and 16 bytes, all empty and with the listed lanes |
| MemoryAnalysis.RegisterLane | src/memory_analysis_handler.cc:473-477 | of the sets of a size, exactly the one that holds the lane registers the access |
| MemoryAnalysis.CountBankConflicts | src/memory_analysis_handler.cc:469-484 | the count is a function of the message alone, and all banks are empty afterwards |
| MemoryAnalysis.HalvesAreAdded | src/memory_analysis_handler.cc:479-484 | for accesses of up to 4 bytes the conflicts of both halves of the wave are added |
| MemoryAnalysis.TwoLanesConflict | src/memory_analysis_handler.cc:469-484 | accesses of two lanes conflict once when they touch different dwords of the same bank, and else not |
| MemoryAnalysis.ConflictsCoverTouchedDwords | src/memory_analysis_handler.cc:469-484 | the conflicts of a set are those of every dword its lanes touch |
| MemoryAnalysis.MeasureLines | src/memory_analysis_handler.cc:355-394 | what a global access contributes, and when the message is dropped |
| MemoryAnalysis.GlobalRecordMeaning | src/memory_analysis_handler.cc:355-394 | when a global message is dropped, and which sizes, lines needed and lines used are recorded where |
| MemoryAnalysis.LdsRecordMeaning | src/memory_analysis_handler.cc:459-517 | which LDS messages are recorded, with which sizes, and with their conflicts alone |
| MemoryAnalysis.AddAccess | src/memory_analysis_handler.cc:436-449 | the entry of the same sizes and kind has one access more and the amounts added, or a new one is appended; every other entry is as it was |
| MemoryAnalysis.AccumulateMeaning | src/memory_analysis_handler.cc:438-449 | adding keeps keys unique, raises one key's numbers by those of the access, and leaves every other key alone |
| MemoryAnalysis.Handler.HandleBankConflicts | src/memory_analysis_handler.cc:459-520 | an unsupported size is refused; otherwise the message's conflicts are stored at its location, a hash without a file name gets an empty one, and all banks are empty again |
| MemoryAnalysis.Handler.HandleCacheLines | src/memory_analysis_handler.cc:355-457 | the message's line counts are stored at its location, and the file name behind its hash is learnt |
| MemoryAnalysis.TotalsAreSums | src/memory_analysis_handler.cc:428-456 | after any stream the stores hold, per location and key and with no key twice, the numbers of accesses and the sums of conflicts, lines needed and lines used over the recorded messages |
| MemoryAnalysis.KnownFilesMeaning | src/memory_analysis_handler.cc:451-454 | the entry of a hash is the file that the last recorded global message with it names, and empty when there is none |
| MemoryAnalysis.KnownFilesAreMentioned | src/memory_analysis_handler.cc:451-497 | a hash has an entry exactly when a recorded global message or an LDS message of the stream has it |
| MemoryAnalysis.LdsFileIsLastNamed | src/memory_analysis_handler.cc:497-501 | after any stream, an LDS message is stored under a file exactly when the last recorded global message with its hash names that file, and under the unknown file exactly when there is no such message or it names none |
| MemoryAnalysis.LdsPlaceDependsOnTheStream | src/memory_analysis_handler.cc:497-501 | with and without such a message before it, the same LDS message is stored in different places |
| BasicBlocks.CountSetBits | src/basic_block_analysis.cc:121-128 | the loop counts the one bits of the mask |
| BasicBlocks.PopCountIsActiveLanes | src/basic_block_analysis.cc:121-128 | the number of one bits is the number of active lanes |
| BasicBlocks.Analysis.UpdateComputeResources | src/basic_block_analysis.cc:157-185 | exactly the XCC, SE, CU, workgroup and wave of the header are added; the map holds exactly the places of the messages so far |
| BasicBlocks.Analysis.Account | src/basic_block_analysis.cc:296-328 | the state machine of one wave: credit the block it was in, then move on, end or begin a life |
| BasicBlocks.Analysis.Handle | src/basic_block_analysis.cc:256-337 | without a database nothing changes; an unknown kernel fails after the resources are recorded; otherwise the message is accounted. After any stream the map holds exactly the places of its headers, and the accounts are those of the stream |
| BasicBlocks.PlacesOfOneMore | src/basic_block_analysis.cc:157-185 | recording one more header keeps the map at exactly the places of all headers |
| BasicBlocks.StepsCommute | src/basic_block_analysis.cc:296-328 | messages of two waves can be handled in either order |
| BasicBlocks.InterleavingDoesNotMatter | src/basic_block_analysis.cc:296-328 | two streams with the same messages per wave leave the same state |
| BasicBlocks.EarningsTelescope | src/basic_block_analysis.cc:298-327 | over a wave's lives, time adds up to last minus first timestamp, and executions to messages minus lives |
| BasicBlocks.ThreadsTelescope | src/basic_block_analysis.cc:298-327 | and threads to the active lanes of all messages but the first of each life |
| BasicBlocks.FirstBlockIsCredited | src/basic_block_analysis.cc:296-327 | of two messages of a wave, the first one's block is credited once, with the time in between and the threads of the second |
| BasicBlocks.WavesTrackLives | src/basic_block_analysis.cc:298-327 | the wave states are those of the lives that are going on |
| BasicBlocks.BlockHoldsEarnings | src/basic_block_analysis.cc:299-311 | each block's executions and threads are what the waves earned in it, and so is its time modulo 2^64 |
| BasicBlocks.BlocksHoldExactEarnings | src/basic_block_analysis.cc:299-311 | with timestamps that never go back per wave and sums below 2^64 the times are exact |
| BasicBlocks.TotalsAreLives | src/basic_block_analysis.cc:298-327 | over all blocks, time is the sum of the spans of all lives, executions are accounted messages minus lives begun, and threads are those of all messages but the first of each life |
| ComputeResources.Insert | src/basic_block_analysis.cc:157-185 | exactly one place is added, and no container inside the map is ever empty |
| ComputeResources.ListedIsFull | src/basic_block_analysis.cc:214-240 | no level that the renderer walks is empty, so it never divides by zero |
| ComputeResources.PoppedList | src/basic_block_analysis.cc:229-233 | popping the trailing comma and closing the bracket gives the comma-joined list |
| ComputeResources.Render | src/basic_block_analysis.cc:208-254 | the text is the comma-joined report, or the broken one of an empty map |
| ComputeResources.RenderResources | src/basic_block_analysis.cc:208-254 | for kernel names without quotation marks, the brackets of the text balance exactly when something was recorded |
| ComputeResources.ReportIsBalanced | src/basic_block_analysis.cc:208-254 | the comma-joined report is balanced, for kernel names without quotation marks |
| ComputeResources.CuTextReads | src/basic_block_analysis.cc:222-236 | the text of a compute unit: its number, its workgroups, and the average |
| ComputeResources.AverageIsWavesPerGroup | src/basic_block_analysis.cc:221-236 | the average is the number of the unit's waves by that of its workgroups, rounded down |
| ComputeResources.TwoGroupsRead | src/basic_block_analysis.cc:222-236 | the text of one compute unit with two workgroups, in full |
| ComputeResources.XccReads | src/basic_block_analysis.cc:216-247 | the shader engine stands in its XCC |
| ComputeResources.ReportReads | src/basic_block_analysis.cc:212-252 | the report names kernel and dispatch and lists the resources |
| ComputeResources.EmptyReportIsBroken | src/basic_block_analysis.cc:248-252 | the report of an empty map is not |
| Interceptor.HsaInterceptor.constructor | src/interceptor.cc:181-186 | eight pooled signals of value 1 and nothing pending |
| Interceptor.HsaInterceptor.FixupPacket | src/interceptor.cc:730-841 | one critical section: refill, take a signal, choose the branch, rewrite the packet, remember what is pending; when a packet is rewritten, and when the process ends, is said by the answers alone |
| Interceptor.FixupDecides | src/interceptor.cc:753-831 | a packet is rewritten exactly in instrumented mode, for a known kernel with an alternative that may be dispatched; then it has the alternative, a new segment and a comms object, or the process ends because one of these is missing; otherwise only its signal changes and nothing is allocated |
| Interceptor.HsaInterceptor.SignalCompleted | src/interceptor.cc:341-386 | one critical section: retire the dispatch, reset and pool the signal, free the buffer, check the comms object in |
| Interceptor.HsaInterceptor.GetPendingSignals | src/interceptor.cc:581-589 | each pending signal once, in order |
| Interceptor.HsaInterceptor.RunnerPass | src/interceptor.cc:554-565 | a pass over a snapshot completes the signals that are found at zero |
| Dispatch.RunsKeepInv | src/interceptor.cc:341-841 | every state of every interleaving satisfies the invariant |
| Dispatch.SignalsHaveOneOwner | src/interceptor.cc:341-386 | each created signal is pooled once with value 1 or pending, never both; the rest of the runner's snapshot is pending and without duplicates |
| Dispatch.MissingSignalIsUnreachable | src/interceptor.cc:382-385 | the branch for a missing pending signal is never taken |
| Dispatch.AppSignalsGoDownOnce | src/interceptor.cc:349-355 | each application signal goes down exactly once for each completed dispatch that has one, and only after its kernel finished |
| Dispatch.BuffersAreConserved | src/interceptor.cc:368-380 | allocations minus releases are the pending instrumented dispatches; a buffer is pending exactly when a comms object is; nothing is released twice |
| Dispatch.NothingIsTakenFromRunningKernels | src/interceptor.cc:796-837 | until it is completed a dispatch has its signal and buffer to itself, and the buffer is not freed |
| Dispatch.PoolIsAsSmallAsNeeded | src/interceptor.cc:737-748 | as many signals are created as the most that were pending at once in the run so far need, in refills of eight |
| Dispatch.FixupPacketFields | src/interceptor.cc:785-837 | with those answers the packet is the listed one, and without them only its completion signal differs |
| Dispatch.WithoutInstrumentation | src/interceptor.cc:779-828 | in a run that is not in instrumented mode nothing is allocated, and every packet differs from its request in the completion signal alone |
| Dispatch.PassCompletesZeros | src/interceptor.cc:554-565 | an undisturbed pass completes exactly the snapshot's signals that are zero |
| Dispatch.FinishedKernelsAreDrained | src/interceptor.cc:545-572 | when all kernels have finished, one such pass leaves nothing pending |
| KernelNames.GetInstrumentedName | src/utils.cc:117-144 | the edits on the local string give the name defined by positions in the original |
| KernelNames.OriginalNameInverts | src/utils.cc:117-144 | a computable function recovers every name from its instrumented form |
| KernelNames.InstrumentedNameIsInjective | src/utils.cc:117-144 | different kernels never share an instrumented name |
| KernelNames.MatchesCloneName | src/instrumentation/InstrumentationCommon.cpp:211 | the runtime's name is the clone's name exactly for names without `)` and `.kd` |
| KernelNames.NamesCanDiffer | src/utils.cc:117-144 | a name for which the two differ |
| KernelNames.SuffixBeforeDotKd | src/utils.cc:136-141 | without `)`, the suffix stands right before the last `.kd` and the prefix in front |
| KernelNames.DescriptorNameIsClones | src/utils.cc:117-144 | so the name of a descriptor, with `.kd`, becomes that of the clone's descriptor |
| KernelNames.PrefixInFront | src/utils.cc:120-134 | with `)` and no blank before the first parenthesis, the prefix stands in front and the last list of arguments has one more |
| KernelNames.PrefixAfterType | src/utils.cc:120-134 | after a return type, the prefix stands before the name |
| Kernargs.ComputeKernargData | src/utils.cc:1095-1130 | the loop's descriptor: where the last explicit argument ends, rounded up to 8 and at most the segment, and the metadata's private and group sizes |
| Kernargs.DescriptorOfLayout | src/utils.cc:1095-1130 | for a laid-out kernel that is the start of the hidden area, and the rest is the hidden area; both segment sizes are the kernel's own |
| Kernargs.LookupYieldsCloneSizes | src/interceptor.cc:814-815 | the descriptor found for a dispatch has the clone's private, group and argument sizes |
| Kernargs.ArgumentCache.TryLookup | src/utils.cc:423-451 | the descriptor under the instrumented name, with the hidden length of the original |
| Kernargs.ArgumentCache.GetArgDescriptor | src/utils.cc:420-485 | a second look after descriptors of loaded code objects were added, which never replace known ones |
| Kernargs.LookupYieldsUsedDescriptor | src/utils.cc:420-451 | with the clone known, the lookup yields the joined descriptor exactly when the original is known too or has no hidden arguments |
| Kernargs.HiddenArgumentsDropped | src/utils.cc:423-451 | with the clone alone in the cache, the descriptor found copies no hidden bytes, though the original has some |
| Kernargs.HiddenArgumentIsDropped | src/utils.cc:423-451 | the same for one kernel with one hidden argument |
| Kernargs.FixupKernArgs | src/interceptor.cc:665-719 | every byte of the new segment, that nothing beyond it is written, and when the assertion fails |
| Kernargs.CloneCanBeRewritten | src/interceptor.cc:676-717 | for a laid-out clone all copies stay inside both segments and the assertion holds |
| Kernargs.ExplicitArgumentsKept | src/interceptor.cc:683 | each explicit argument keeps its offset and its bytes |
| Kernargs.PointerArrives | src/interceptor.cc:716-717 | the clone's last parameter reads back as the comms pointer |
| Kernargs.HiddenArgumentsMove | src/interceptor.cc:685-699 | each hidden argument moves by exactly 8 bytes to where the clone expects it |
| Kernargs.RestIsZero | src/interceptor.cc:678 | everything past the copied hidden area is zero |
| Kernargs.OtherBytesAreZero | src/interceptor.cc:678-699 | all bytes outside the clone's arguments are zero if and only if all copied bytes outside the original's arguments are |
| Kernargs.PaddingArrives | src/interceptor.cc:683 | a signature and a segment whose padding byte arrives as 255 |
| Kernargs.LittleEndianRoundTrip | src/interceptor.cc:716-717 | a number that fits is read back from its bytes |
| Kernels.CollectGpuKernels | src/instrumentation/InstrumentationCommon.cpp:194-206 | the functions with the kernel calling convention that are not intrinsics, in order |
| Kernels.GpuKernelsMeaning | src/instrumentation/InstrumentationCommon.cpp:194-206 | these are all such functions and no others, each once and where it stood among the others |
| Kernels.CloneKernelWithExtraArg | src/instrumentation/InstrumentationCommon.cpp:208-243 | a new function is appended: `__amd_crk_` and the name and `Pv`, the parameters and one more after them, and the same blocks |
| AddressPass.Inject | src/instrumentation/AMDGCNSubmitAddressMessages.cpp:88-258 | the code that computes the address and sends the message stands before the access, and the loop goes on behind it |
| AddressPass.InstrumentAt | src/instrumentation/AMDGCNSubmitAddressMessages.cpp:291-319 | one round of the loop: instructions out of scope and other instructions are passed over |
| AddressPass.InstrumentCode | src/instrumentation/AMDGCNSubmitAddressMessages.cpp:290-320 | the loop over a block visits each instruction of the original once and no inserted one |
| AddressPass.InstrumentClone | src/instrumentation/AMDGCNSubmitAddressMessages.cpp:283-321 | the clone is the instrumented kernel, and the counter counts the instrumented accesses |
| AddressPass.RunOnModule | src/instrumentation/AMDGCNSubmitAddressMessages.cpp:260-325 | original functions stay as they are, one instrumented clone per kernel is appended in order, and the result says whether anything was instrumented |
| AddressTrace.PointerCodeRuns | src/instrumentation/AMDGCNSubmitAddressMessages.cpp:222-251 | the code added for a load or store sends one message with its fields and changes nothing else of the program |
| AddressTrace.BufferCodeRuns | src/instrumentation/AMDGCNSubmitAddressMessages.cpp:101-177 | the code added for a buffer access sends base plus sign-extended offset and changes nothing else of the program |
| AddressTrace.AddedSends | src/instrumentation/AMDGCNSubmitAddressMessages.cpp:298-317 | the message sent is the one that the following access calls for |
| AddressTrace.CloneSimulates | src/instrumentation/AMDGCNSubmitAddressMessages.cpp:280-325 | on every kernel in static single assignment form, every input and number of steps the clone goes the same way, has the same memory and program values, and its trace is the original's with a message just before each access in scope |
| AddressTrace.CloneTrace | src/instrumentation/AMDGCNSubmitAddressMessages.cpp:280-325 | without its messages the clone's trace is the original's; each access in scope is announced and there are no other messages; each message has the file hash, line, column, kind, address space, size and address of the access behind it |
| AddressTrace.MessageTells | src/instrumentation/AMDGCNSubmitAddressMessages.cpp:189-258 | a message's fields, one by one |
| AddressTrace.ExpandIsTold | src/instrumentation/AMDGCNSubmitAddressMessages.cpp:291-319 | a message stands before an access exactly when the access is in scope, that is, when there are no scope entries or one covers its file and line |
| Ir.SiteNamesLoc | src/instrumentation/AMDGCNSubmitAddressMessages.cpp:214-221 | hash of the full path, line and column of the location, in this order; without one the hash of the unknown file, 0 and 0 |
| AddressTrace.EachAccessAnnounced | src/instrumentation/AMDGCNSubmitAddressMessages.cpp:189-258 | messages stand exactly before accesses in scope, with their data |
| AddressTrace.ErasingGivesOriginal | src/instrumentation/AMDGCNSubmitAddressMessages.cpp:189-258 | erasing messages undoes the expansion of a trace |
| AddressTrace.BufferAddressIsExact | src/instrumentation/AMDGCNSubmitAddressMessages.cpp:102-136 | for raw and struct accesses with all operands: exactly when the reported address is the accessed one |
| AddressTrace.StructAddsNothing | src/instrumentation/AMDGCNSubmitAddressMessages.cpp:102-136 | exactly when stride, offset and scalar offset of a struct access add nothing to its index |
| AddressTrace.AddressIsMissed | src/instrumentation/AMDGCNSubmitAddressMessages.cpp:102-136 | a kernel whose clone, on every machine, reports another address than the one accessed |
| Dominance.WayAround | src/instrumentation/AMDGCNSubmitAddressMessages.cpp:109-119 | if the block that sets a base were visited after the last visit of the block that makes a descriptor from it, there would be a way around the latter |
| Dominance.ReadsCurrent | src/instrumentation/AMDGCNSubmitAddressMessages.cpp:109-119 | on every path, a traced descriptor that is read matches its base where it is read |
| Dominance.SsaUsesCurrent | src/instrumentation/AMDGCNSubmitAddressMessages.cpp:109-119 | so every buffer access may read the base instead of the descriptor |
| BlockPass.InstrumentClone | src/instrumentation/AMDGCNSubmitBBStart.cpp:52-130 | after the PHIs of each block stands one header with the index of the block |
| BlockPass.RunOnModule | src/instrumentation/AMDGCNSubmitBBStart.cpp:97-136 | original functions stay as they are, and one instrumented clone per kernel is appended in order |
| BlockPass.CloneSimulates | src/instrumentation/AMDGCNSubmitBBStart.cpp:52-136 | the clone goes the same way with the same memory, and a header follows each entry of a block before anything else |
| BlockPass.ClonesReportTheWay | src/instrumentation/AMDGCNSubmitBBStart.cpp:66-94 | the indices reported are, in order, the blocks that the original enters |
| BlockPass.ClonesSendHeaders | src/instrumentation/AMDGCNSubmitBBStart.cpp:52-94 | in the clone's trace a header follows each entry of a block, and stands nowhere else, with the place of what comes after the PHIs, type 2 and the block's index |
| Scope.InstrumentationScope.constructor | src/instrumentation/InstrumentationCommon.cpp:390-428 | both variables are read in turn, and any error leaves the filter off |
| Scope.InstrumentationScope.ParseDefinitions | src/instrumentation/InstrumentationCommon.cpp:257-388 | the entries of the text are appended up to the first error |
| Scope.InstrumentationScope.ParseFile | src/instrumentation/InstrumentationCommon.cpp:471-495 | a file adds the entries of its lines, each read as a text of its own |
| Scope.InstrumentationScope.Matches | src/instrumentation/InstrumentationCommon.cpp:430-469 | true exactly when the filter is off or some entry covers file and line |
| Scope.ParseConcatenates | src/instrumentation/InstrumentationCommon.cpp:257-388 | a text, a semicolon and another text mean the one, then the other |
| Scope.FileIsItsLines | src/instrumentation/InstrumentationCommon.cpp:479-494 | joining the lines of a file by semicolons means the lines in turn |
| Scope.RangeReadsBack | src/instrumentation/InstrumentationCommon.cpp:323-381 | a printed line or range of lines is read back |
| Scope.RoundTrip | src/instrumentation/InstrumentationCommon.cpp:257-388 | every list of printable entries is read back from its text |
| ScopeRules.FilesCovered | src/instrumentation/InstrumentationCommon.cpp:437-452 | no pattern covers every file, a full path that file alone, and any other pattern exactly the paths that end with it |
| ScopeRules.SpanSelects | src/instrumentation/InstrumentationCommon.cpp:322-365 | `:N:M` selects the lines from N up to, but not including, M |
| ScopeRules.LineSelects | src/instrumentation/InstrumentationCommon.cpp:367-380 | `N` selects line N modulo 2^32, unless that is the last one |
| ScopeRules.NumbersWrapOrSaturate | src/instrumentation/InstrumentationCommon.cpp:338-349 | signs and numbers that do not fit into 64 bits |
| ScopeRules.ReversedIsRefused | src/instrumentation/InstrumentationCommon.cpp:356-362 | a range that does not grow is refused |
| ScopeRules.TrailingTextIsRefused | src/instrumentation/InstrumentationCommon.cpp:367-376 | a number with anything behind it is refused |
| ScopeRules.SecondColonIsRefused | src/instrumentation/InstrumentationCommon.cpp:328-334 | a range with a second colon is refused |
| ScopeRules.RefusedSwitchesOff | src/instrumentation/InstrumentationCommon.cpp:413-419 | a refused range leaves the filter off, whatever else is given |
| ScopeRules.LinesOfFile | src/instrumentation/InstrumentationCommon.cpp:479-494 | blank lines and comments add nothing; any other line is a text of its own |
| Glob.GlobToRegex | src/library_filter.cc:159-200 | the text that the loop appends is that of the recursive compiler |
| Glob.CompiledIsRead | src/library_filter.cc:159-200 | the text is a well-formed expression, read back as one term per glob element |
| Glob.CompiledMeansGlob | src/library_filter.cc:159-215 | it matches exactly the paths that the glob matches, with `**` kept within lines |
| Glob.CompilationIsFaithful | src/library_filter.cc:164-170 | for a path, all globs are compiled faithfully exactly when it has no line terminators |
| Glob.LibraryFilter.SetExcludes | src/library_filter.cc:143-156 | every pattern is compiled, none is refused, and the filter is on |
| Glob.LibraryFilter.MatchesAnyPattern | src/library_filter.cc:202-210 | true exactly when some expression matches the path |
| Glob.LibraryFilter.IsExcluded | src/library_filter.cc:212-215 | false while the filter is off, else whether some expression matches |
| Glob.ExcludedByGlobs | src/library_filter.cc:202-215 | a path on one line is excluded exactly when one of the globs matches it |
| StringArray.ParseStringArray | src/library_filter.cc:48-89 | on every text and position: success, the final position and the strings, also on failure |
| StringArray.ArrayIsRead | src/library_filter.cc:48-89 | every JSON array of strings, anywhere and with any white space, is read to just past its bracket |
| StringArray.RoundTrip | src/library_filter.cc:48-89 | every list of strings is read back from what the escaping printer writes |
| StringArray.ReaderAgreesWithJson | src/library_filter.cc:73-81 | the string read is the one that JSON means exactly when no control or code escape occurs |
| StringTokens.AcceptedIsTokens | src/library_filter.cc:48-89 | for every text and position: success exactly when white space, a bracket, tokens in any order and a bracket stand there |
| StringTokens.TokensAreRead | src/library_filter.cc:48-89 | any list of tokens is read to just past the closing bracket, and its strings are found |
| StringTokens.AcceptedIsJson | src/library_filter.cc:54-70 | an accepted list of tokens is a JSON array of strings if and only if commas, blanks and escapes are as in JSON |
| StringTokens.CommasAreLoose | src/library_filter.cc:63-66 | a text that is accepted and is not JSON |
| ModuleLink.GetAllUndefinedSymbols | src/instrumentation/include/utils.h:153-210 | the declared names that are not intrinsics |
| ModuleLink.IntrinsicNames | src/instrumentation/include/utils.h:155-204 | intrinsics are the names that begin with `llvm.` |
| ModuleLink.FindEntry | src/instrumentation/include/utils.h:253-272 | the one module that names the entry is moved out, or two are found, or none |
| ModuleLink.LinkUsed | src/instrumentation/include/utils.h:282-296 | the composite is the fold of exactly the modules with symbols to be kept, in order; it fails exactly when the linker refuses one of these steps |
| ModuleLink.LinkRequired | src/instrumentation/include/utils.h:300-334 | one pass folds in exactly the modules that define a symbol undefined at its start, in order; it fails exactly when the linker refuses one of these steps |
| ModuleLink.LinkClosure | src/instrumentation/include/utils.h:299-335 | the loop ends, with the composite folded along all passes; it fails exactly when the linker refuses a step of some pass |
| ModuleLink.Condense | src/instrumentation/include/utils.h:337-343 | the modules that were not taken, in order |
| ModuleLink.LinkAll | src/instrumentation/include/utils.h:232-249 | without an entry the composite is the fold of all other modules into the last one, in order; it fails exactly when the linker refuses a step |
| ModuleLink.LinkModules | src/instrumentation/include/utils.h:227-345 | which error is returned exactly when; otherwise the composite is the fold of the modules in the linking order into the entry module, and the rest is left over |
| ModuleLink.WantedMeaning | src/instrumentation/include/utils.h:289-334 | a loop over the vector takes all modules that it looks for, each once and in ascending order, and no others |
| ModuleLink.PlanKeepsUsed | src/instrumentation/include/utils.h:282-296 | every module with symbols to be kept is in the linking order |
| ModuleLink.PlanJustified | src/instrumentation/include/utils.h:299-335 | any other module in it defines a symbol that the composite lacked when the pass that took it began |
| ModuleLink.LinkedMeaning | src/instrumentation/include/utils.h:212-220 | two linked modules export what either did, and still declare what either declared and neither exports |
| ModuleLink.UndefinedMeaning | src/instrumentation/include/utils.h:153-210 | a composite lacks exactly the names that some module in it declares and none exports, intrinsics apart |
| ModuleLink.LocalDefinitionIsTaken | src/instrumentation/include/utils.h:305-334 | two modules of which the second is linked for a local definition, and the symbol stays undefined |
| ModuleLink.LeftoverIsClosed | src/instrumentation/include/utils.h:299-343 | no module left over defines a symbol that the composite lacks |
| ModuleLink.PlanIsComplete | src/instrumentation/include/utils.h:227-345 | no input module, linked or left over, exports a symbol that the composite lacks |
| ModuleLink.LinkingConserves | src/instrumentation/include/utils.h:227-345 | each input module is part of the composite or left over, once |
| ModuleLink.AllAreLinked | src/instrumentation/include/utils.h:232-249 | without an entry the composite exports what any input module does |

## Left out

- The HSA runtime, rocprofiler, comgr, kernelDB, dh_comms and LLVM itself: they appear as parameters and as the assumptions named above.
- Liveness at shutdown: the signal runner's exit races the shutdown code and its bounded wait; only safety is proved.
- Dispatch.RunsKeepInv: dispatches whose process ends inside `fixupPacket` (a missing descriptor, buffer or comms object) are not steps of a run; timing and logging are not modelled.
- The kernel cache: looking up and remembering instrumented alternatives, the dispatch controller and the allocator are answers given to `fixupPacket`. Kernel information keeps only the application signal, the comms object and, added by the model, the dispatch it belongs to.
- Packets: fields that are only copied are one field, `other`; barrier packets pass through unchanged.
- Kernargs.FixupKernArgs: reading the source segment beyond its end, which the padding to 8 bytes excludes; reading metadata text through comgr.
- Constant folding by the IR builder, renaming of functions whose names are taken, attributes and debug information other than source locations.
- AddressTrace.BufferAddressIsExact: buffers that are swizzled or that add the thread id to the index; the addresses of such accesses are not computed. Variants of the intrinsics that load into LDS, which have other operands, are not modelled.
- AddressTrace.CloneSimulates: that a descriptor made by `make.buffer.rsrc` gives back its base is assumed (`KeepsBases`); truncation of the base to the descriptor's width is not modelled.
- The location counter is unbounded where it only numbers printed lines; in headers it is a 32-bit number.
- MemoryAnalysis.MeasureLines: the ISA access size found through DWARF is an input, and so is the cache line size of the GPU. Nested maps by file, line and column are one map by location.
- BasicBlocks.Analysis.Handle: messages about time intervals stop the program at an assertion and are not modelled. Wave identity is equality of fields, where the program compares bytes of a struct. Thread and execution counts are unbounded.
- ComputeResources.Render: the order in which the maps are walked is given as a list; the division is that of natural numbers.
- Scope: printing diagnostics. Strings may hold zero characters; numbers are read as `strtoul` does, with signs and saturation at 64 bits.
- Glob: `std::regex` itself; the fragment's meaning is written after ECMA-262. Characters are code points, so multi-byte encodings are not modelled.
- The library filter's search for keys in its configuration, include lists, ELF dependencies and file access.
- ModuleLink: whether the linker accepts two modules is a parameter; on success, symbol tables are united, a definition for others winning over a declaration or a local one. Names of modules in error messages are left out.
- Heatmap and time-interval handlers, report printing, random dispatch, the instruction size table and percentile computation.
- The Python bindings, the configuration receiver, the command line script, containers and build files.
