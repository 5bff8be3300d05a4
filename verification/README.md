# Arbutus: a verified model of its bookkeeping

Arbutus watches a Linux system through eBPF programs and forwards what it sees to outputs such
as Loki. This project models the parts of it that keep books, and proves what those books are
worth:

- **The allocation ledger** of the memleak probe. Tracepoint handlers keep three bounded hash
  maps: pending sizes by process, live allocations by address, and for every stack one 64-bit
  word that packs a 40-bit byte total under a 24-bit count and is only ever changed by wrapping
  whole-word addition and subtraction. The project proves what each word holds in every
  reachable state, with handlers taken as atomic (`Accounting`; `LiveRecords` tells the live table
  from the events alone) and with handlers interleaved
  one map operation at a time (`Interleaving`, `ConcurrentAccounting`, `ExclusiveHandlers`,
  `SizeHandOff`), with the exact guards under which interleaving does no harm
  (`InterleavingHazards`, `SizeHazards`); how the word decodes after any history of carries and
  wraps (`PackedWord`); and that the user-space recount agrees with it (`LeakGroups`, `ConcurrentRecount`).
- **The leak alerts** on top: the two-speed alert memory in closed form, the ranking, and the
  naming of kernel addresses (`LeakAlerts`, `Symbols`).
- **The pipeline** between inputs and outputs: the lock, signal and flush protocol as a state
  machine over all interleavings (`FlushProtocol`), the reused backing array of the buffer in a
  class that carries out the steps of that protocol (`PipelineBuffer`), and the program's main
  loop around it (`MainLoop`).
- **The DNS input**: the question-name parser (`DnsName`), the capture of a query in the kernel
  (`DnsCapture`), and the reader and processor around the bounded event channel (`DnsFeed`),
  joined to the pipeline in `EndToEnd`.
- **The Loki output**: grouping logs into streams by their label maps (`LokiStreams`).

`Sums`, `Options`, `BpfMaps` and `Telemetry` are shared.

`dafny verify dfyconfig.toml` checks the whole project.

## How it is modelled

- Kernel maps, the probe, the leak monitor, the pipeline, its outputs and the Loki streams are
  classes whose methods change their fields as the originals do. Each such method is specified by
  a function on the values of the fields, and the properties over whole runs are lemmas about
  those functions. The loops over slices and Go maps are loops; a Go map is visited in an
  arbitrary order. The pipeline's class keeps, as ghost fields, the protocol steps it has carried
  out, and `Valid` ties its real fields to the state they lead to.
- 64-bit words are naturals below 2^64 with the wrap-around written out, and the two bit fields
  are remainders and quotients (`MasksAreRemainders` states the mask-and-shift forms).
- Concurrent code is a state machine: a state, one step per atomic operation, and a run is any
  sequence of steps. A kernel map operation, the fetch-and-add on a word, a lock section, a
  channel operation and one `Write` call are each one step.
- What comes from outside is a parameter: the arguments of a handler, the process, stack
  identifier and clock readings it would query, the memory behind a message, the moment a ticker
  or a signal fires, the order in which a hash map is read, the growth of a slice, and the UTF-8
  clean-up function.

Where the code and its documentation differ, the model follows the code:

- `findSymbol` is described as a binary search; it is a linear scan. `AgreesWithBinarySearch`
  shows that on a sorted table the two agree on the address, and on the symbol if it carries the
  name of the first at that address.
- The memleak README says only new or growing leaks are reported. That holds for quick checks
  (`QuickIsNewOrGrown`, `AlarmIffNewHigh`). A detailed check lists the ten biggest groups at or above the threshold,
  reported before or not: two checks of one table report the same leak twice (`OneLeakTwice`,
  `SecondDetailedCheckRepeats`). Its reports are of new or grown groups if and only if every
  qualifying group that is remembered at its size or more has ten bigger ones, up to the order of
  ties; with at most ten qualifying, if and only if there is no such group
  (`DetailedIsNewOrGrownIff`).
- The Loki README says logs with the same labels form a stream and the level is added as a label.
  A log also joins the stream of a different label map that compares equal to its own, which only
  a map with an empty value can; the streams are those of equal labels if and only if no two
  label maps of the batch clash so (`GroupingIsGroupByIff`). And an attribute named `level` takes
  the place of the level (`LabelsOf`).

## What turned out not to hold, and exactly when it does

- The packed statistics of a stack are not in general the fold over its live allocations. An
  address allocated again without a seen free leaves its first record counted for good
  (`OverwrittenRecordStaysCounted`). For up to 2^23 lost records, the word is exact if and only if
  every event met a guard: it replaced no record of the stack, and stored its own if it belongs
  to the stack (`ExactIffKept`).
- With handlers interleaved, two frees of one address can both subtract (`RaceFromEmptyMaps`).
  `NoMistakeIff` gives the guard of every operation. Once the handlers have returned, and as long
  as only one kind of mistake occurred, a word is exact if and only if the guards held for its
  stack (`QuietExactIffHarmless`). Records that stay counted and subtractions without a record
  can cancel (`MistakesCanCancel`); then their weights decide (`QuietExactIff`).
- Of two threads of one process, one can take the other's size, and the other then finds none
  (`WrongSizeFromEmptyMaps`). Every allocation takes its own size, and a filtered one none, if and
  only if every operation met its guard: no size is stored or deleted while another handler of
  the process has yet to look its own up, a size is stored with room for it, and a filtered
  allocation finds no pending size (`QuietTakeOwnIffCareful`). An overwritten size that equals
  one's own does no harm (`EqualSizesHideCarelessness`), so the "only if" is for sizes that differ.
  Allocations of different processes always meet the guards (`DistinctProcessesAreCareful`).
- Splitting the name shown for a DNS query at its dots gives back the labels if and only if no
  label contains a dot (`SplitJoinIff`; `DottedLabelsAreAmbiguous` has two queries that show one
  name), and the name is complete only up to 244 bytes of labels (`ShownName`).
- `mapsEqual` is not equality of maps, nor symmetric, if a value is empty
  (`ComparisonIsEqualityIff`, `ComparisonIsSymmetricIff`), and logs with different labels can then
  share a stream (`EmptyValueMergesStreams`). Grouping is by labels exactly when no label map of
  the batch compares equal to a different later one (`GroupingIsGroupByIff`).

## Model

| member | source | states |
|---|---|---|
| PackedWord.MasksAreRemainders | internal/plugins/inputs/memleak/memleak.go:42-50 | the reader's mask and shift are the remainder and quotient by 2^40 |
| PackedWord.FieldWidths | internal/plugins/inputs/memleak/memleak.h:15-21 | the fields are 40 and 24 bits wide, and one record packs as its size cut to 40 bits and the count one |
| PackedWord.FieldsOfWrapped | internal/plugins/inputs/memleak/memleak.h:15-21 | the two fields of a word after any number of wraps: low part modulo 2^40, count plus carries modulo 2^24 |
| PackedWord.DecodePackedSum | internal/plugins/inputs/memleak/memleak.go:42-50 | a packed sum decodes to the byte total modulo 2^40 and to the count plus one per carry modulo 2^24 |
| PackedWord.DecodesExactlyIff | internal/plugins/inputs/memleak/memleak.go:42-50 | total and count are both exact if and only if the bytes are below 2^40 and the records below 2^24 |
| PackedWord.RunWordBalance | internal/plugins/inputs/memleak/memleak.bpf.c:64-88 | after any updates the word is the net balance modulo 2^64, however often it wrapped on the way |
| PackedWord.DecodeIsHistoryIndependent | internal/plugins/inputs/memleak/memleak.bpf.c:64-88 | decoding depends on the outstanding sizes only, in any order of adds and subtracts, and an overflow heals itself |
| BpfMaps.BpfHash.Update | internal/plugins/inputs/memleak/maps.bpf.h:19-21 | replacing succeeds in a full map, a new key is refused there, and no-exist refuses a present key |
| BpfMaps.BpfHash.LookupOrTryInit | internal/plugins/inputs/memleak/maps.bpf.h:9-24 | an element is there afterwards if and only if it was there or there was room; a present element keeps its value |
| Ledger.Probe.UpdateStatisticsAdd | internal/plugins/inputs/memleak/memleak.bpf.c:56-70 | the packed size is added to the stack's word, created at zero if there is room, else nothing changes |
| Ledger.Probe.UpdateStatisticsDel | internal/plugins/inputs/memleak/memleak.bpf.c:72-89 | the packed size is subtracted from an existing word, else nothing changes |
| Ledger.Probe.GenAllocEnter | internal/plugins/inputs/memleak/memleak.bpf.c:91-108 | a size within the limits, at a clock reading that is sampled, becomes the pending size of the process if that has one or there is room |
| Ledger.Probe.GenAllocExit2 | internal/plugins/inputs/memleak/memleak.bpf.c:110-142 | the pending size is consumed, and at a non-null address recorded with the clock, stack, process and command of the caller, if the address has a record or there is room, and counted |
| Ledger.Probe.GenFreeEnter | internal/plugins/inputs/memleak/memleak.bpf.c:144-161 | a live record is removed and subtracted with the values that were looked up |
| Ledger.Probe.Handle | internal/plugins/inputs/memleak/memleak.bpf.c:213-365 | every tracepoint handler as the composition of free, enter and exit, including the missing-free workaround |
| Accounting.StepHandles | internal/plugins/inputs/memleak/memleak.bpf.c:213-365 | the account kept beside a run takes the maps through the handlers themselves |
| LiveRecords.HandledAt | internal/plugins/inputs/memleak/memleak.bpf.c:213-365 | what one event does to the record at any address: recorded with its own size, process, command, stack and time if it passes limits and sampling and there is room, removed by a free or the workaround, else unchanged |
| LiveRecords.LiveIffRecordedAndNotFreed | internal/plugins/inputs/memleak/memleak.bpf.c:91-161 | over any run an address is live if and only if some event recorded there and no later one freed or replaced it, and the record then describes that very allocation |
| LiveRecords.PageBytesShift | internal/plugins/inputs/memleak/memleak.bpf.c:339-345 | the size of a page allocation is the page size shifted left by the order in 64 bits |
| LiveRecords.StackKeyIsSignExtension | internal/plugins/inputs/memleak/memleak.bpf.c:56 | the statistics key is congruent to the stack identifier modulo 2^64, equal to it unless negative, and different for different identifiers |
| Accounting.StoringKeepsSum | internal/plugins/inputs/memleak/memleak.bpf.c:131 | what a store puts in the table plus what it makes unsubtractable is what was there plus the new record |
| Accounting.RecordingBalances | internal/plugins/inputs/memleak/memleak.bpf.c:131-133 | recording keeps every word equal to its packed balance, and untracked stacks without records while there is room |
| Accounting.FreeingBalances | internal/plugins/inputs/memleak/memleak.bpf.c:144-161 | a free keeps the same invariant: only counted records are ever subtracted from a word |
| Accounting.StatisticsBalance | internal/plugins/inputs/memleak/memleak.bpf.c:56-161 | in every reachable state the word of a tracked stack is the packed sum of its live records and its lost ones modulo 2^64 |
| Accounting.TrackedFromFirstOrNever | internal/plugins/inputs/memleak/memleak.bpf.c:60-82 | a stack with a live record is tracked now if and only if it is tracked in every continuation of the run |
| Accounting.KeysOnlyGrowOverRuns | internal/plugins/inputs/memleak/maps.bpf.h:9-24 | statistics keys only grow, within capacity, and never change once the map is full |
| Accounting.AllocationEffect | internal/plugins/inputs/memleak/memleak.bpf.c:91-142 | an allocation is recorded if and only if it passes the filters at a non-null address, with its own size |
| Accounting.SizesEmptyBetweenHandlers | internal/plugins/inputs/memleak/memleak.bpf.c:101-123 | with atomic handlers no pending size survives a handler |
| Accounting.NothingLostIff | internal/plugins/inputs/memleak/memleak.bpf.c:131 | nothing is lost in a run if and only if every recording found its address free and room in the table |
| Accounting.StackLosesNothingIff | internal/plugins/inputs/memleak/memleak.bpf.c:131 | one stack loses nothing in a run if and only if no recording replaced a record of that stack or left one of its own unstored |
| Accounting.WorkaroundLosesNothing | internal/plugins/inputs/memleak/memleak.bpf.c:229-234 | with the missing-free workaround, slab allocations lose nothing while the table has room, whatever the addresses |
| Accounting.StatisticsAreTheLiveFold | internal/plugins/inputs/memleak/memleak.bpf.c:56-161 | on runs that keep all records of a tracked stack, its word is the packed sum of its live records, whatever other stacks lose |
| Accounting.ExactIffKept | internal/plugins/inputs/memleak/memleak.bpf.c:131-133 | up to 2^23 lost records (so on every run of up to 2^23 events) a word is the live fold if and only if every event met the guard for its stack |
| Accounting.OverwrittenRecordStaysCounted | internal/plugins/inputs/memleak/memleak.bpf.c:131-133 | allocating an address twice and freeing it once leaves one allocation counted and none live |
| Interleaving.HandlerAlone | internal/plugins/inputs/memleak/memleak.bpf.c:213-365 | a handler run without interruption is the atomic handler |
| Interleaving.AtomicRunIsAnInterleaving | internal/plugins/inputs/memleak/memleak.bpf.c:213-365 | every run of atomic handlers is an interleaving that ends in the same maps with all handlers returned |
| ConcurrentAccounting.ResumedNet | internal/plugins/inputs/memleak/memleak.bpf.c:110-161 | no single operation changes the net balance of a stack except the two fetch operations and an add that is given up |
| ConcurrentAccounting.EveryInterleavingBalances | internal/plugins/inputs/memleak/memleak.bpf.c:56-161 | in every interleaving a word is its live records and lost ones, less excess subtractions, corrected by the handlers in flight |
| InterleavingHazards.NoMistakeIff | internal/plugins/inputs/memleak/memleak.bpf.c:110-161 | an interleaving loses nothing and subtracts nothing in excess if and only if every operation met its guard: a free deletes the record it looked up and finds its word, a store finds a free address and room |
| InterleavingHazards.NoMistakeForIff | internal/plugins/inputs/memleak/memleak.bpf.c:110-161 | the same for the records of one stack, and for each of the two kinds of mistake by itself |
| InterleavingHazards.QuietExactIffHarmless | internal/plugins/inputs/memleak/memleak.bpf.c:56-161 | with no handler in flight and at most one kind of mistake, up to 2^23 times, a word is exact if and only if every operation met the guard for its stack |
| InterleavingHazards.QuietExactIff | internal/plugins/inputs/memleak/memleak.bpf.c:56-161 | in general, with no handler in flight, a word is exact if and only if lost records and unmatched subtractions weigh the same modulo 2^64 |
| InterleavingHazards.RacingFreesSubtractTwice | internal/plugins/inputs/memleak/memleak.bpf.c:148-153 | two frees that looked up the same record before either deleted it both subtract it |
| InterleavingHazards.RaceFromEmptyMaps | internal/plugins/inputs/memleak/memleak.bpf.c:148-153 | from the empty maps an interleaving reaches that race, and ends with nothing live and a word wrapped below zero |
| InterleavingHazards.MistakesCanCancel | internal/plugins/inputs/memleak/memleak.bpf.c:144-161 | a free overtaken by another free and a new allocation of its address breaks both guards, and yet leaves an exact word if the sizes are equal |
| ExclusiveHandlers.FreedIsSettled | internal/plugins/inputs/memleak/memleak.bpf.c:76-88 | a record being freed belongs to a stack that is tracked already or never will be |
| ExclusiveHandlers.DisciplinedRunsAreClean | internal/plugins/inputs/memleak/memleak.bpf.c:110-161 | with one handler per address in flight and stores at free addresses only, nothing is lost of a stack that can be tracked and nothing is subtracted in excess |
| ExclusiveHandlers.StatisticsExactWhenQuiet | internal/plugins/inputs/memleak/memleak.bpf.c:56-161 | on such runs every word is exact up to the handlers in flight, and exact when there are none |
| SizeHandOff.RecordedSizesInLimits | internal/plugins/inputs/memleak/memleak.bpf.c:91-142 | in every interleaving every pending and every recorded size lies within the configured limits |
| SizeHandOff.DistinctProcessesKeepTheirSizes | internal/plugins/inputs/memleak/memleak.bpf.c:101-123 | while allocations in flight belong to different processes and the size table has room, each records its own filtered size |
| SizeHandOff.SameProcessTakesTheOtherSize | internal/plugins/inputs/memleak/memleak.bpf.c:101-123 | two threads of one process: the first to look up takes the size of the last to enter, and the other finds none |
| SizeHandOff.WrongSizeFromEmptyMaps | internal/plugins/inputs/memleak/memleak.bpf.c:101-131 | from the empty maps two allocations of one process can end with one address recorded with the size of the other, which is not recorded at all |
| SizeHazards.CarefulTakeOwn | internal/plugins/inputs/memleak/memleak.bpf.c:101-123 | for any sizes, if every operation on the pending sizes met its guard, every allocation that passed the filter took its own size and every other one found none |
| SizeHazards.TakeOwnIffCareful | internal/plugins/inputs/memleak/memleak.bpf.c:101-123 | unless an allocation enters with the size another one of its process has yet to look up, that is so, and those still waiting would find their own, if and only if every operation met its guard |
| SizeHazards.QuietTakeOwnIffCareful | internal/plugins/inputs/memleak/memleak.bpf.c:101-123 | so with no handler in flight every allocation took its own size if and only if no size was stored or deleted while another of the process waited, each was stored with room, and no filtered one found a size |
| SizeHazards.EqualSizesHideCarelessness | internal/plugins/inputs/memleak/memleak.bpf.c:101-123 | the premise is needed: two allocations of one process and one size can overwrite each other and both take their own |
| SizeHazards.TakesOwnIff | internal/plugins/inputs/memleak/memleak.bpf.c:114-123 | a lookup is right if and only if a handler that passed goes on with its own size and a filtered one returns |
| SizeHazards.TakenIsRecorded | internal/plugins/inputs/memleak/memleak.bpf.c:114-131 | if every allocation took its own size, every handler that is about to store a record stores that of its own allocation |
| SizeHazards.DistinctProcessesAreCareful | internal/plugins/inputs/memleak/memleak.bpf.c:91-123 | allocations of different processes with room for their sizes meet every guard and take their own |
| LeakGroups.CommOf | internal/plugins/inputs/memleak/memleak.go:383-391 | the command name is the longest prefix without a zero byte |
| LeakGroups.GroupLeaks | internal/plugins/inputs/memleak/memleak.go:367-404 | a group for exactly the process and stack pairs that occur with a valid stack, with sizes and counts summed modulo 2^64 and the name of its first member |
| LeakGroups.GroupedIsGrouping | internal/plugins/inputs/memleak/memleak.go:374-404 | the incremental grouping satisfies the order-free description of a grouping |
| LeakGroups.GroupingIgnoresOrder | internal/plugins/inputs/memleak/memleak.go:373-404 | groups, sizes and counts do not depend on the order in which the map is read |
| LeakGroups.GroupsSumToStack | internal/plugins/inputs/memleak/memleak.go:402-403 | the groups of one stack add up, over all processes, to the sum over its records modulo 2^64 |
| LeakGroups.RecountMatchesStatistics | internal/plugins/inputs/memleak/memleak.go:368-404 | for a stack that lost none of its records the recount of any reading order agrees with the kernel's byte total modulo 2^40, and exactly in total and count when both fit their fields |
| ConcurrentRecount.RecountMatchesInterleaved | internal/plugins/inputs/memleak/memleak.go:368-404 | the same after any interleaving whose handlers have returned, if every operation met its guard for the stack |
| ConcurrentRecount.RecountMatchesDisciplined | internal/plugins/inputs/memleak/memleak.go:368-404 | and so for every tracked stack on runs with one handler per address and stores at free addresses |
| LeakAlerts.MemoryIsTheHigh | internal/plugins/inputs/memleak/memleak.go:410-429 | the remembered size is the maximum over the last detailed check that saw the group and the later quick checks above ten MiB |
| LeakAlerts.AlarmIffNewHigh | internal/plugins/inputs/memleak/memleak.go:422-428 | a size is alarming against the remembered one if and only if it is above ten MiB and above everything that still counts for the group |
| LeakAlerts.AlarmsIncrease | internal/plugins/inputs/memleak/memleak.go:422-428 | between detailed checks the reported sizes of a group strictly increase |
| LeakAlerts.AlarmsAreBounded | internal/plugins/inputs/memleak/memleak.go:422-428 | so their number is at most the largest size less ten MiB |
| LeakAlerts.SortBySize | internal/plugins/inputs/memleak/memleak.go:432-434 | a permutation in non-increasing size, ties left open |
| LeakAlerts.LeakMonitor.SelectLeaks | internal/plugins/inputs/memleak/memleak.go:410-429 | exactly the reportable groups, each once, and the updated memory, in whatever order groups are visited |
| LeakAlerts.PrefixIsBiggest | internal/plugins/inputs/memleak/memleak.go:436-440 | the first ten of the sorted groups leave out no group larger than one they contain |
| LeakAlerts.QuickReportsIff | internal/plugins/inputs/memleak/memleak.go:421-429 | a quick check reports a group if and only if its size is above ten MiB and above everything that still counts for it |
| LeakAlerts.DetailedReports | internal/plugins/inputs/memleak/memleak.go:411-440 | a detailed check reports ten groups at or above the threshold, or all if fewer, and leaves out none bigger than one it reports |
| LeakAlerts.LeakMonitor.CheckForNewLeaks | internal/plugins/inputs/memleak/memleak.go:356-479 | a failed read changes nothing; else a quick check reports as critical exactly the groups above ten MiB at a new high of the history, a detailed one as warnings the min(10, n) biggest of the n at or above the threshold, both largest first, and the memory stays that of the history |
| LeakAlerts.DetailedIsNewOrGrownIff | internal/plugins/inputs/memleak/memleak.go:410-440 | a detailed check lists new and grown groups only, if every qualifying group remembered at its size or more has ten bigger ones; without ties, or with at most ten qualifying, if and only if; in the latter case, if and only if there is no such group |
| LeakAlerts.SecondDetailedCheckRepeats | internal/plugins/inputs/memleak/memleak.go:410-419 | of two detailed checks of one table the second lists as many groups, every one of them neither new nor grown, and the same ones if at most ten qualify |
| LeakAlerts.OneLeakTwice | internal/plugins/inputs/memleak/memleak.go:410-419 | a single allocation of the threshold size is reported by both of two detailed checks |
| Symbols.FindSymbol | internal/plugins/inputs/memleak/memleak.go:312-328 | names the nearest non-zero symbol at or below the address, the first listed among equals, with address plus offset the query, or the bare address |
| Symbols.ChosenIsNearest | internal/plugins/inputs/memleak/memleak.go:316-321 | the scan settles on the greatest candidate address and finds none only if there is none |
| Symbols.OrderDoesNotMatter | internal/plugins/inputs/memleak/memleak.go:316-321 | the offset is the same for every permutation of the table, and the whole answer if addresses are distinct |
| Symbols.AgreesWithBinarySearch | internal/plugins/inputs/memleak/memleak.go:311-328 | on an ascending table, shared addresses included, the scan settles on the address of an entry exactly if all later entries share it or are above the query, and on that very symbol if and only if it carries the name of the first at its address |
| Telemetry.SupportedAppend | internal/pipeline/pipeline.go:72-77 | filtering by supported kinds distributes over concatenation of batches |
| Telemetry.SupportedOne | internal/pipeline/pipeline.go:72-77 | a log, span or metric is kept exactly if its kind is supported, which with the row above determines the filter |
| PipelineBuffer.Pipeline.Append | internal/pipeline/pipeline.go:40 | appending in place while there is capacity, else into a fresh larger array, with the contents extended by one item |
| PipelineBuffer.Pipeline.Add | internal/pipeline/pipeline.go:38-50 | the item is buffered, and the token is set exactly if it was or the buffer has reached a hundred items: the append and the signal of the protocol |
| PipelineBuffer.Pipeline.Select | internal/pipeline/pipeline.go:70-77 | the supported items of the batch as it was when taken, in order, although items are added before each one is looked at |
| PipelineBuffer.Pipeline.Snapshot | internal/pipeline/pipeline.go:62-65 | a fresh copy of the buffer is taken and the buffer emptied over the same backing array: the locked step of the protocol |
| PipelineBuffer.Pipeline.WriteTo | internal/pipeline/pipeline.go:69-84 | one write of the supported items in order, and none if there are none: the serving step of the protocol |
| PipelineBuffer.Pipeline.Flush | internal/pipeline/pipeline.go:55-85 | every output is handed the batch as it was when taken, although producers add before every item looked at, before every write and after the last, and what they add is all in the buffer afterwards |
| PipelineBuffer.QuietIsExact | internal/pipeline/pipeline.go:38-85 | whatever calls were made, between flushes each output has been handed the supported part of everything added but what is still buffered, and a buffer of a hundred items has its token |
| MainLoop.TakeCase | cmd/arbutus/main.go:50-62 | one case of the select; if it flushes, every output has been handed everything added before the lock |
| MainLoop.FlushNow | cmd/arbutus/main.go:51-62 | after a flush every output has been handed what it supports of everything added before the lock |
| MainLoop.TurnFlushes | cmd/arbutus/main.go:50-62 | a tick, a token or a seen cancellation takes all that was added before the lock as one batch and writes it to every output that supports something of it; what is added later stays in the buffer, and the token says if that reached a hundred |
| MainLoop.TurnAdds | cmd/arbutus/main.go:55-57 | any other turn only adds items, and a signal is remembered |
| MainLoop.Run | cmd/arbutus/main.go:48-64 | any number of turns of the loop carry out a run of the flush protocol, and the pipeline is exact whenever the loop waits or has returned |
| MainLoop.StopsIff | cmd/arbutus/main.go:51-57 | the loop returns if and only if it sees the cancellation in a turn after one with a signal |
| FlushProtocol.NoLostWakeUp | internal/pipeline/pipeline.go:38-50 | in every interleaving a buffer of a hundred items has a token in the channel, a producer about to send one, or a flush about to lock |
| FlushProtocol.FullBufferIsTaken | cmd/arbutus/main.go:49-63 | with producers quiet and the main loop waiting, token and lock hand over the whole buffer |
| FlushProtocol.HandOffIsExact | internal/pipeline/pipeline.go:55-85 | in every interleaving the items in lock order are the batches taken followed by the buffer, and each output has been handed exactly its batches, filtered, one non-empty write each |
| FlushProtocol.WritesConcatenate | internal/pipeline/pipeline.go:69-84 | the concatenated writes of an output are the supported items of its batches in order, and no write is empty |
| FlushProtocol.OneWritePerBatch | internal/pipeline/pipeline.go:69-84 | the writes of an output are the supported parts of its batches, one for each batch that has one |
| FlushProtocol.OutputsReceiveAPrefix | cmd/arbutus/main.go:51-54 | an output has received the supported part of a prefix of all items; once the loop has stopped, all but what was appended after the last lock |
| DnsName.ParseDnsQuery | internal/plugins/inputs/dnssnoop/dnssnoop.go:171-211 | terminates within bounds on any payload and returns its leading whole labels joined by dots, nothing for less than 13 bytes |
| DnsName.DecodingIsTheOnlyReading | internal/plugins/inputs/dnssnoop/dnssnoop.go:180-208 | the labels returned are the only reading of the bytes as labels of 1 to 191 bytes followed by a terminator, a pointer or a cut-off label |
| DnsName.NameLength | internal/plugins/inputs/dnssnoop/dnssnoop.go:171-211 | the name is at least thirteen bytes shorter than a payload of thirteen or more |
| DnsName.RoundTrip | internal/plugins/inputs/dnssnoop/dnssnoop.go:171-211 | any header, any encoded labels and any bytes after the terminator decode to the labels joined by dots |
| DnsName.SplitJoinIff | internal/plugins/inputs/dnssnoop/dnssnoop.go:201-206 | splitting the name recovers the labels if and only if no label contains a dot |
| DnsName.NamesAreInjective | internal/plugins/inputs/dnssnoop/dnssnoop.go:171-211 | two queries with dot-free labels that show the same name carry the same labels |
| DnsName.DottedLabelsAreAmbiguous | internal/plugins/inputs/dnssnoop/dnssnoop.go:201-206 | one label with a dot and two labels can show the same name |
| DnsName.TruncatedName | internal/plugins/inputs/dnssnoop/dnssnoop.go:195-199 | the name of any prefix of a payload is the join of a prefix of its labels |
| DnsName.CapturedPrefix | internal/plugins/inputs/dnssnoop/dnssnoop.go:195-199 | a query cut at a limit shows the longest run of labels that fits, complete if and only if all fit |
| DnsCapture.DnsSend | internal/plugins/inputs/dnssnoop/dnssnoop.bpf.c:25-107 | an event only for port 53 with ring space, at most 256 payload bytes, equal to the start of the located buffer, zero-filled, and empty when nothing could be read |
| DnsCapture.CapturedBytes | internal/plugins/inputs/dnssnoop/dnssnoop.bpf.c:46-102 | the event shows the first min(256, length) bytes of the inline buffer, else of the one behind the older pointer, from user space, else from the kernel, else nothing |
| DnsCapture.QueryOf | internal/plugins/inputs/dnssnoop/dnssnoop.go:122-126 | the name shown for an event is that of its payload bytes |
| DnsCapture.ShownName | internal/plugins/inputs/dnssnoop/dnssnoop.bpf.c:46-102 | a query in the buffer the message offers is shown as the longest run of whole labels within what the first buffer and the event hold behind the header, complete if and only if all fit; that is 244 bytes unless the first buffer is shorter |
| DnsCapture.ShowQuery | internal/plugins/inputs/dnssnoop/dnssnoop.go:122-126 | from the send to the shown name: an event for port 53 with ring space, and the longest run of labels within 244 bytes |
| DnsFeed.EveryFeedIsSound | internal/plugins/inputs/dnssnoop/dnssnoop.go:74-140 | in every interleaving delivered, in-process and queued events are exactly the kept part of the decoded ones in reading order, the rest was dropped, and the queue holds at most ten thousand |
| DnsFeed.NoEventUnaccounted | internal/plugins/inputs/dnssnoop/dnssnoop.go:89-138 | decoded events number the delivered, in process, queued, dropped and on offer |
| DnsFeed.NothingDroppedIff | internal/plugins/inputs/dnssnoop/dnssnoop.go:95-99 | a run drops nothing if and only if every offer found room in the channel |
| DnsFeed.AtMostOneAfterStop | internal/plugins/inputs/dnssnoop/dnssnoop.go:103-140 | once told to stop the processor delivers at most one more event, and none if it was between events |
| DnsFeed.OneAfterStop | internal/plugins/inputs/dnssnoop/dnssnoop.go:103-140 | a processor already in its select when told to stop can deliver an event that is read only afterwards |
| DnsFeed.ProcessorReturnsIff | internal/plugins/inputs/dnssnoop/dnssnoop.go:103-140 | the processor returns at its loop head once told to stop, and from its select on a cancellation or an error, and otherwise goes on |
| DnsFeed.ReaderReturnsIff | internal/plugins/inputs/dnssnoop/dnssnoop.go:76-101 | the reader returns when the ring is closed or once it has sent an error, and skips what it cannot decode |
| DnsFeed.ReturnsAreFinal | internal/plugins/inputs/dnssnoop/dnssnoop.go:76-140 | after that nothing more is delivered, respectively decoded |
| DnsFeed.EverythingCanBeDelivered | internal/plugins/inputs/dnssnoop/dnssnoop.go:103-140 | while it is not told to stop, the processor by its own steps can deliver everything the channel ever took |
| DnsFeed.ReaderNeverBlocks | internal/plugins/inputs/dnssnoop/dnssnoop.go:78-101 | an offer always completes, and the one error the reader sends finds its channel empty |
| EndToEnd.LogsArriveInReadOrder | internal/plugins/inputs/dnssnoop/dnssnoop.go:114-138 | in every interleaving an output for logs has received the supported items of a prefix of all added ones; of one input these hold the logs of a prefix of its delivered events, each once, in reading order, and the items after that prefix hold the rest; unless a batch is being written, those are exactly the buffer |
| EndToEnd.BusyIsAtHead | internal/plugins/inputs/dnssnoop/dnssnoop.go:103-138 | in every interleaving the processor takes no further event before its last append has signalled |
| LokiStreams.MapsEqual | internal/plugins/outputs/loki/loki.go:247-257 | equal sizes and every left entry found on the right, a missing key reading as the empty string |
| LokiStreams.ComparisonIsEqualityIff | internal/plugins/outputs/loki/loki.go:247-257 | the comparison is equality against every map if and only if the left map has no empty value |
| LokiStreams.ComparisonIsSymmetricIff | internal/plugins/outputs/loki/loki.go:247-257 | where the comparison holds it holds the other way round if and only if every key only the right map has is empty, and that against every map if and only if the left one has no empty value |
| LokiStreams.CompareOneWay | internal/plugins/outputs/loki/loki.go:247-257 | the labels of two logs of one level, one with an empty host and one with a pod, compare equal one way only |
| LokiStreams.Streams.InsertLog | internal/plugins/outputs/loki/loki.go:233-245 | the log joins the first stream that compares equal, or opens a new last one, and every other stream is unchanged |
| LokiStreams.GroupingIsGroupByIff | internal/plugins/outputs/loki/loki.go:111-135 | the streams are the distinct label maps in first-occurrence order, each with exactly its logs in order, if and only if no label map of the batch compares equal to a different later one |
| LokiStreams.GroupingIsGroupBy | internal/plugins/outputs/loki/loki.go:111-135 | so in particular without empty label values |
| LokiStreams.EmptyValueMergesStreams | internal/plugins/outputs/loki/loki.go:233-257 | a batch of two logs with different labels that share one stream, and have two in the other order |
| LokiStreams.EveryLogLandsOnce | internal/plugins/outputs/loki/loki.go:233-245 | whatever the labels, each log is in exactly one stream and each stream holds exactly its logs in order |
| LokiStreams.BuildLabels | internal/plugins/outputs/loki/loki.go:120-128 | the level and every attribute as labels, in any order of visiting, an attribute `level` replacing the level |
| LokiStreams.EntriesAreTheLogs | internal/plugins/outputs/loki/loki.go:113-135 | the entries of a batch are its logs in order, each with its full time, its cleaned message, every attribute cleaned, and its cleaned level unless an attribute `level` replaces it |
| LokiStreams.StreamsSendTheBatch | internal/plugins/outputs/loki/loki.go:105-144 | every log is sent in one stream whose labels compare equal to those it is to carry, and a stream holds the times and cleaned messages of its logs in order |
| LokiStreams.Write | internal/plugins/outputs/loki/loki.go:105-144 | the streams that send the logs of a batch, other kinds skipped, and nothing for an empty batch |

## Left out

- Loading, attaching and field probing of eBPF programs, the ring buffer itself, and the kernel versions without a tracepoint: foreign calls; a handler starts from its arguments.
- Kernel hash map internals: an element found by a lookup keeps its values until it is used, as the handlers assume, and per-processor free lists that can make a map seem full early are not modelled.
- Clock readings and stack capture of a handler are arguments fixed when it starts.
- Ledger.Probe.Handle: trace printing is not modelled.
- LeakAlerts.LeakMonitor.CheckForNewLeaks: does not model the message text, the symbolised stack trace in it, or the tickers and the report limit of `Run` that decide when it is called.
- LeakAlerts.SortBySize: stands for the library sort, of which only the order and the permutation are promised.
- PipelineBuffer.Pipeline.Flush: an output's failed write is only logged by the original, so an output here just records what it was handed.
- DnsCapture.QueryOf: the other parts of the log line (process, command, address) are formatting.
- LokiStreams.Write: the HTTP request, its JSON form and the status of the answer are not modelled; attribute values are kept as they print.
- The opensnoop and template inputs have the shape of `DnsFeed`; the console and file outputs format and write.
- Configuration parsing, plugin registries and start-up are plumbing.
