# Verification of the slick-perfmon collector and its lock-free protocols

slick-perfmon measures spans inside running processes. An instrumented thread publishes 16-byte stamps into a
ring of its own; a collector thread copies them out, merges the rings by timestamp, pairs begins with steps and
ends, keeps statistics per stage, and writes a row per stage and interval. This project models that machinery in
Dafny and proves what it is built on:

- **Rings** (`ThreadRing.dfy`, `RingOwnership.dfy`, `RingTable.dfy`, `RetiredTable.dfy`). One producer overwrites
  slots while one reader copies them field by field and validates afterwards; every batch is what was published.
  Rings pass from owner to owner through one claim word, and a restarted session takes a table back
  only when nobody can write it.
- **Tables** (`OpenMap.dfy`). Linear probing with backward-shift deletion answers as a capped finite map, for any
  hash function.
- **Pairing** (`Anomalies.dfy`, `PairingSpec.dfy`, `PairingRuns.dfy`, `PairingEffects.dfy`, `Pairing.dfy`). The span
  state machine with its batched eviction, over arbitrary runs of events, sweeps and session ends: conservation of
  spans, telescoping totals, what each stamp adds to which stage, exact oldest-first eviction.
- **Merging** (`Staging.dfy`, `Merging.dfy`, `Merger.dfy`, `Delivery.dfy`, `Passes.dfy`, `Ties.dfy`). One pass of the
  k-way watermark merge with chunked refill, loss, resumable cursors and ties, while producers go on publishing; and
  one pass after another.
- **Names** (`NameTable.dfy`, `NameCode.dfy`, `LabelCache.dfy`, `LabelCode.dfy`). The claim, write, publish protocol
  among publishers that may die at any step, and the collector's label cache beside it.
- **Statistics** (`Buckets.dfy`, `Ranks.dfy`, `Histogram.dfy`, `Accumulator.dfy`). Log-linear buckets, exact nearest
  rank in 64 bits, Welford and Chan in exact reals.
- **Reporting** (`Reports.dfy`, `Intervals.dfy`). Interval deltas against lifetime counters, which rows reach the time
  series, and what the rows of a whole session add up to.

Code that works in place is a class with the source's fields, whose methods are proved against functions of the
old state; protocols between threads or processes are state machines over single memory accesses, with invariants
proved for every interleaving. The code of those protocols is then a method whose every memory access is one such
action; between two of them the others act as they like, within what `NameCode.StepIsLater`,
`RingTables.OthersLeaveThread` and their like prove of each action of theirs. `Options.dfy`, `Arith.dfy`,
`Stamps.dfy` and `Heaps.dfy` hold what the others share.

How the memory model enters. A load of the slot of a published ring index i may return, field by field, the sample
published there or that of any publish begun at a later index of that slot, even one its producer died in; the head
read again afterwards is at least the latest index seen. That is the guarantee the fences are there for
(`include/slick/perfmon/detail/thread_ring.hpp:55-58`), and `ThreadRings.PlainLoadAllowed` shows plain memory
satisfies it. Loads of name slots may be stale, down to "free", but not from before the loading thread knew the slot
published; loads of a ring's head may be as old as the last release of its claim word.

Hypotheses. Stamp timestamps reach the pairer in non-decreasing order where exact eviction is claimed, and each
ring is in timestamp order where the order of the merge is claimed; both are stated in the lemmas that need them,
and everything else holds without. Names are NUL-free and shorter than their slot. No stamp is in flight across a
shutdown, a module that joined a session leaves it before its owner shuts it down and does not come back to it, and
process ids are not reused. Heads, counters, timestamps and `overhead * transitions` stay below 2^64.

## Model

| member | source | states |
|---|---|---|
| RingReads.KeptExactly | include/slick/perfmon/detail/thread_ring.hpp:91-110 | of the samples a read passes, exactly those whose slot the producer cannot have reached by the second head are kept; how far it passes, lapped at the first head or not; with no lap nothing is skipped, and an empty result means samples were skipped, nothing is new or nothing was asked for |
| ThreadRings.KeptIsPublished | include/slick/perfmon/detail/thread_ring.hpp:55-108 | for loads from any mix of attempts the fence rule allows, abandoned ones included, a sample that survives the second head read is, field for field, the one published at its index |
| ThreadRings.StepKeeps | include/slick/perfmon/detail/thread_ring.hpp:60-110 | every field store, head store, death in the middle of a publish, start of the same index over again, field load, head load and hand-over keeps the ring's invariant |
| ThreadRings.EveryBatchIsPublished | include/slick/perfmon/detail/thread_ring.hpp:60-110 | from an empty ring, in every interleaving and wherever producers die, a batch is the run of published samples from the cursor on; what was taken is published, in order, none twice, and taken + lost = cursor advance |
| ThreadRings.RunKeeps | include/slick/perfmon/detail/thread_ring.hpp:60-64 | after any run slots hold the newest capacity - 1 samples whole, and the next slot in each field some attempt at the head or the lap before |
| ThreadRings.PlainLoadAllowed | include/slick/perfmon/stamp_types.hpp:151-157 | a plain field load at any moment returns the field of an attempt the read rule allows |
| ThreadRings.ReaderNeverStuck | include/slick/perfmon/detail/thread_ring.hpp:91-110 | a copying reader always has an allowed next action |
| RingCode.RingRead | include/slick/perfmon/detail/thread_ring.hpp:91-110 | the copy loop, with the producer running between any two accesses, returns exactly the published run its two heads leave, and counts what it skipped |
| RingCode.LoadSample | include/slick/perfmon/stamp_types.hpp:151-157 | three field loads, each of an attempt the read rule allows, assembled; with no later lap met, the sample published |
| RingCode.RingWriter.constructor | include/slick/perfmon/detail/thread_ring.hpp:45-50 | a writer continues from the published head, whatever the owner before had begun there |
| RingCode.RingWriter.Publish | include/slick/perfmon/detail/thread_ring.hpp:60-64 | publishing begins one attempt at the head and publishes it: one sample more, head and next one further and equal |
| OpenMaps.SmearRoundsUp | include/slick/perfmon/detail/open_map.hpp:26-34 | for every 64-bit word v - 1, the smeared word plus one is the least power of two not below v, at least 2 |
| OpenMaps.OnesDouble | include/slick/perfmon/detail/open_map.hpp:31-32 | each shift of the smearing doubles the run of ones at the top and keeps the highest bit |
| OpenMaps.ProbeComplete | include/slick/perfmon/detail/open_map.hpp:81-93 | a probe that ends on a free slot has proved its key absent |
| OpenMaps.HoleClosed | include/slick/perfmon/detail/open_map.hpp:198-219 | when the walk meets a free slot, every key is again reachable from its home |
| OpenMaps.MoveBackKeeps | include/slick/perfmon/detail/open_map.hpp:204-214 | moving an entry into the hole keeps every other key reachable, on runs that wrap as well |
| OpenMaps.InsertKeeps | include/slick/perfmon/detail/open_map.hpp:97-116 | filling the slot a probe ended on keeps every key reachable |
| OpenMaps.OpenMap.constructor | include/slick/perfmon/detail/open_map.hpp:56-61 | an unsized table holds nothing and accepts nothing |
| OpenMaps.OpenMap.Reset | include/slick/perfmon/detail/open_map.hpp:63-71 | an empty table with room for max(1, n) entries, in arrays whose length is a power of two, at least twice and less than four times that |
| OpenMaps.OpenMap.Find | include/slick/perfmon/detail/open_map.hpp:81-93 | the slot of the key exactly if it is in the table; the probe ends |
| OpenMaps.OpenMap.Insert | include/slick/perfmon/detail/open_map.hpp:97-116 | adds the entry if absent and there is room, keeps an existing value, and returns the key's slot or none at capacity |
| OpenMaps.OpenMap.EraseAt | include/slick/perfmon/detail/open_map.hpp:198-219 | the table loses exactly that key; other entries keep their values and move, if at all, back towards the hole within the run |
| OpenMaps.OpenMap.Erase | include/slick/perfmon/detail/open_map.hpp:118-132 | removes the key if present and says whether it was |
| OpenMaps.OpenMap.SweepSlot | include/slick/perfmon/detail/open_map.hpp:166-174 | one test of the scan, with (slots left + live entries) strictly decreasing even when a shift refills the slot or wraps tested entries ahead |
| OpenMaps.OpenMap.EraseIf | include/slick/perfmon/detail/open_map.hpp:161-176 | one pass removes exactly the entries satisfying the predicate, each once, and returns their number |
| OpenMaps.OpenMap.Keys | include/slick/perfmon/detail/open_map.hpp:136-142 | for_each visits every live key exactly once |
| OpenMaps.OpenMap.Clear | include/slick/perfmon/detail/open_map.hpp:182-185 | the table is empty and keeps its capacity |
| OpenMaps.Perform | include/slick/perfmon/detail/open_map.hpp:63-185 | each operation takes the table, read as a capped finite map, where the map operation takes it, and answers the same |
| OpenMaps.Run | include/slick/perfmon/detail/open_map.hpp:63-185 | for any hash function and any sequence of operations, the answers are those of a finite map capped at max_entries |
| PairKeys.SpanKeyUnique | include/slick/perfmon/pairing.hpp:38-44 | span keys are distinct for distinct (point, seq), and carry their point |
| PairKeys.StageKeyUnique | include/slick/perfmon/pairing.hpp:19-28 | stage keys are distinct for distinct (point, from, to) |
| Stamps.EventRoundTrip | include/slick/perfmon/stamp_types.hpp:58-64 | step and the low 24 bits of the sequence number survive the event word |
| Anomalies.NothingLost | include/slick/perfmon/pairing.hpp:279-290 | summed over the point table and the overflow bucket, the counters are the number of anomalies that happened |
| Anomalies.WhollyInOnePlace | include/slick/perfmon/pairing.hpp:279-290 | each point's anomalies are all in its own entry or all in the bucket |
| Anomalies.CountersGrow | include/slick/perfmon/pairing.hpp:63-72 | counters never decrease over a session, so interval differences are well defined |
| Anomalies.OwnCounter | include/slick/perfmon/pairing.hpp:279-290 | a point with an entry of its own has all of its anomalies there: its counter grows by exactly the number of its anomalies, of each kind, that happened in between |
| Pairing.Pairer.constructor | include/slick/perfmon/pairing.hpp:101-124 | empty tables, zero counters, queue and batch size of a fresh session |
| Pairing.Pairer.CountAnomaly | include/slick/perfmon/pairing.hpp:279-290 | one anomaly counted in the point's entry, or in the bucket when it has none and there is no room |
| Pairing.Pairer.RecordOne | include/slick/perfmon/pairing.hpp:404-425 | of all stages only that of the measurement changes: at the end of its interval joins what was measured less the overhead of as many stamps as it has transitions, or zero; with no room for the stage, one more out of range at the point instead |
| Pairing.Pairer.RefillEvictQueue | include/slick/perfmon/pairing.hpp:373-398 | the queue becomes the oldest batch of open spans, oldest first, whatever the table order |
| Pairing.Pairer.Visit | include/slick/perfmon/pairing.hpp:383-393 | the bounded heap holds the oldest of the spans visited so far |
| Pairing.Pairer.PopLive | include/slick/perfmon/pairing.hpp:349-355 | the first queued candidate still open and untouched, or none is left |
| Pairing.Pairer.EvictOldest | include/slick/perfmon/pairing.hpp:345-365 | drops one span the policy allows, within two passes, whenever any is open |
| Pairing.Pairer.OpenBegin | include/slick/perfmon/pairing.hpp:309-327 | re-opens a span as abandoned, or makes room and inserts; the peak is kept |
| Pairing.Pairer.OnEvent | include/slick/perfmon/pairing.hpp:130-193 | one event takes the pairer where the specification says: value, begin, orphan, invalid, step or end |
| Pairing.Pairer.StepSpan | include/slick/perfmon/pairing.hpp:186-192 | a step records its transition and touches the span |
| Pairing.Pairer.EndSpan | include/slick/perfmon/pairing.hpp:170-185 | an end records the last transition, unless it is the whole span, then the total, and closes the span |
| Pairing.Pairer.CleanNext | include/slick/perfmon/pairing.hpp:198-201 | whether pairing this stamp next opens a closed span or touches an open one |
| Pairing.Pairer.AgeOut | include/slick/perfmon/pairing.hpp:206-217 | with no limit nothing; else every span left was seen within the limit and is unchanged, every span gone was not; each is counted abandoned at its point, once, and the answer is how many |
| Pairing.Pairer.AbandonEverything | include/slick/perfmon/pairing.hpp:224-236 | every open span counts as abandoned exactly once, at its point; tables and queue are empty |
| Pairing.Pairer.ClearIntervals | include/slick/perfmon/pairing.hpp:245-247 | interval accumulators empty, lifetime ones untouched |
| PairingRuns.EvictionFreesASlot | include/slick/perfmon/pairing.hpp:345-365 | an allowed eviction drops exactly one open span |
| PairingRuns.StepKeepsLedger | include/slick/perfmon/pairing.hpp:130-327 | every event, sweep and session end keeps begins and other stamps balanced and open spans telescoped |
| PairingRuns.SpansConserved | include/slick/perfmon/pairing.hpp:130-327 | over every run: begins = completed + abandoned + invalid + still open, and other stamps = paired + orphan + invalid, counters summed over table and bucket |
| PairingRuns.TotalAgainstStages | include/slick/perfmon/pairing.hpp:404-409 | the corrected total never exceeds the sum of corrected transitions, and equals it exactly when every transition covers its overhead, or none exceeds it |
| PairingRuns.TotalsTelescope | include/slick/perfmon/pairing.hpp:161-193 | in every run a completed span's raw transitions add up to its raw total, and its corrected total is at most the sum of its corrected transitions |
| PairingRuns.EvictsOldest | include/slick/perfmon/pairing.hpp:345-365 | with stamps in time order, the span evicted was seen no later than any other open span |
| PairingRuns.StepKeepsQueue | include/slick/perfmon/pairing.hpp:345-398 | touches, ends, re-begins, sweeps and evictions keep every older live span ahead in the queue |
| PairingRuns.BatchingIsExact | include/slick/perfmon/pairing.hpp:329-398 | over any run with stamps in time order, the batched queue leaves the state a table that scans for the oldest span would |
| PairingEffects.SpansAreMade | include/slick/perfmon/pairing.hpp:161-193 | in every run an open span is what the stamps since its begin make it: its start, the last stamp, its step, and one transition a stamp |
| PairingEffects.PairedDoes | include/slick/perfmon/pairing.hpp:161-193 | over any run: a step or end adds to the stage (point, step of the stamp before, its own step) the time between the two less one overhead, and an end to the total stage the time since the begin less one overhead for each part; the end of a span with no step adds the total alone; no other stage changes |
| PairingEffects.StepDoes | include/slick/perfmon/pairing.hpp:186-192 | a step adds its one transition, told from the stamps of the span, and the span has one stamp more |
| PairingEffects.EndDoes | include/slick/perfmon/pairing.hpp:170-185 | an end adds its last transition and the total, in that order, told from the stamps of the span, which is closed |
| PairingEffects.ValueDoes | include/slick/perfmon/pairing.hpp:133-142 | a value joins the value stage of its point as it is, and no other changes |
| PairingEffects.BeginDoes | include/slick/perfmon/pairing.hpp:309-327 | a begin opens its span; abandoned is counted, once and at the right point, for the span it re-opens or the one a full table gives up; nothing is measured |
| PairingEffects.StrayDoes | include/slick/perfmon/pairing.hpp:152-168 | a stamp without a span counts as orphan; one that goes back in time counts as invalid and drops its span; nothing is measured |
| PairingEffects.SweepDoes | include/slick/perfmon/pairing.hpp:206-217 | a sweep drops exactly the spans not seen within the limit, none without a limit, each counted abandoned at its point |
| PairingEffects.AbandonAllDoes | include/slick/perfmon/pairing.hpp:224-236 | a session end drops every span, each counted abandoned at its point |
| StageOrder.Insert | include/slick/perfmon/collector.hpp:1407-1411 | the insertion walk keeps the stage a stable sort by timestamp of what arrived |
| StageOrder.InsertedStays | include/slick/perfmon/collector.hpp:1407-1411 | putting a stamp behind those of its tick preserves every tick's order of arrival |
| StageOrder.SplitWhole | include/slick/perfmon/collector.hpp:1395-1411 | every sample of a batch goes one way or the other, in order and none twice: with rings, values to the pairer and stamps to the stage; without, all to the pairer |
| StageOrder.SortKeepsAll | include/slick/perfmon/collector.hpp:1407-1411 | a stable sort holds exactly the stamps that arrived |
| Merging.Merger.ReadShared | include/slick/perfmon/collector.hpp:1381-1414 | stage and pairer together gain exactly the batch; without thread rings all of it goes to the pairer, in order, and the stage is untouched; with them its values do, in order, and its stamps join the stage, a stable sort of what arrived |
| Merging.Merger.Feed | include/slick/perfmon/collector.hpp:1250-1250 | handing a sample to the pairer is one step of the pairer, and the history fed grows by it |
| Merging.Merger.FeedValues | include/slick/perfmon/collector.hpp:1310-1322 | values at the front of a chunk are paired, up to the next stamp |
| Merging.Merger.Park | include/slick/perfmon/collector.hpp:1326-1332 | the cursor is left on the first sample not consumed, and the stamp it waits for is noted |
| Merging.Merger.SetStop | include/slick/perfmon/collector.hpp:1337-1339 | the first head read in a pass is its stop |
| Merging.Merger.ReadRing | include/slick/perfmon/collector.hpp:1343-1349 | one read at most as long as what is left to the stop; loss and cursor advance together |
| Merging.Merger.Refill | include/slick/perfmon/collector.hpp:1342-1352 | reads until there is a batch or nothing new, and ends however often it is lapped |
| Merging.Merger.NextStamp | include/slick/perfmon/collector.hpp:1308-1361 | moves a source to its next stamp below the watermark with only its own values fed, or finishes the ring; what it can still yield never grows |
| Merging.Merger.LowerBound | include/slick/perfmon/collector.hpp:1203-1205 | how many staged stamps are below the watermark |
| Merging.Merger.Collect | include/slick/perfmon/collector.hpp:1202-1226 | every ring is read to its first stamp below the watermark, finished, or rightly left alone |
| Merging.Merger.PreferCleanTie | include/slick/perfmon/collector.hpp:1285-1299 | the last of the heap pairs cleanly exactly if any head tied with it does; heap order and timestamp are kept |
| Merging.Merger.TakeEarliest | include/slick/perfmon/collector.hpp:1246-1256 | the stamp fed next is as early as any head and clean if any that early is; the sources' total strictly shrinks |
| Merging.Merger.MergeOne | include/slick/perfmon/collector.hpp:1231-1235 | a single source is merged to its end without a heap |
| Merging.Merger.MergeByHeap | include/slick/perfmon/collector.hpp:1236-1257 | any number of sources is merged to their ends through the heap |
| Merging.Merger.DropFed | include/slick/perfmon/collector.hpp:1259-1265 | what was fed of the stage leaves it |
| Merging.Merger.Merge | include/slick/perfmon/collector.hpp:1202-1268 | one pass, with producers publishing at will: all rings finished, stamps fed in time order below the watermark, the stage cut at it, loss accounted |
| Merging.Merger.MergePass | include/slick/perfmon/collector.hpp:1199-1268 | the shared ring first, its batch split without loss into values paired in order and stamps staged stably, then the merge of rings and stage |
| MergeSpec.AdvanceKeeps | include/slick/perfmon/collector.hpp:1246-1256 | taking the earliest head and moving its source on keeps order, accounts and coverage of every source |
| MergeSpec.SkipKeeps | include/slick/perfmon/collector.hpp:1214-1219 | a ring waiting on a stamp past the watermark can be left alone |
| MergeSpec.ReadKeeps | include/slick/perfmon/collector.hpp:1342-1359 | a read keeps fed + lost = cursor advance and the allowance up to the stop, lapped or not |
| HeadHeap.SwapTied | include/slick/perfmon/collector.hpp:1292-1298 | swapping two heads of one timestamp keeps the heap and the earliest last |
| HeadHeap.CleanTieIsBest | include/slick/perfmon/collector.hpp:1285-1299 | the choice within the heap is the choice among all active sources |
| Delivery.NothingLeftBehind | include/slick/perfmon/collector.hpp:1199-1268 | every stamp below the watermark out when the pass first read its ring is behind the cursor; with no lap it was paired exactly once, at its index |
| Delivery.CursorIsFirstLeft | include/slick/perfmon/collector.hpp:1325-1360 | fed + lost = cursor advance, cursor at most head, at most stop - first cursor samples fed; with no lap the cursor is the first sample not consumed |
| Delivery.ReadPastStop | include/slick/perfmon/collector.hpp:1345-1349 | a batch reaches past the stop exactly when the ring was lapped that far |
| Delivery.WaitingOmitsNothing | include/slick/perfmon/collector.hpp:1214-1219 | a ring that waits past the watermark holds no stamp below it from its cursor on, now or later |
| Delivery.StageFedInOrder | include/slick/perfmon/collector.hpp:1203-1212 | the staged stamps fed are exactly those below the watermark, from the front |
| Delivery.PassIsARun | include/slick/perfmon/collector.hpp:1231-1257 | the pairer's part in a pass is a run of the pairer on the samples fed, in that order |
| Passes.NothingEarlier | include/slick/perfmon/collector.hpp:1199-1268 | if no stamp below the watermark lies at or past a stop, nor comes late to the stage, the next pass feeds nothing below it |
| Passes.SessionIsInOrder | include/slick/perfmon/collector.hpp:1199-1268 | over any number of passes with rising watermarks on those terms, with values and sweeps in between, stamps reach the pairer in time order |
| Passes.SessionIsExact | include/slick/perfmon/pairing.hpp:309-398 | so over the whole session the batched eviction leaves what dropping the oldest span each time would |
| Ties.CleanMeansQuiet | include/slick/perfmon/pairing.hpp:198-201 | an orphan is counted for an end or step, or a span re-opened by a begin, exactly when the stamp does not pair cleanly |
| Ties.OneStampAhead | include/slick/perfmon/collector.hpp:1275-1284 | the tie rule is local: of a step and an end of one span on one tick both are clean, yet the end first orphans the step |
| NameTables.NameKeyUnique | include/slick/perfmon/control_block.hpp:154-163 | keys are distinct and clear of the claim bit |
| NameTables.ClaimKeeps | include/slick/perfmon/control_block.hpp:500-504 | claiming a free slot keeps keys unique and taken slots a prefix |
| NameTables.StepKeeps | include/slick/perfmon/control_block.hpp:463-554 | every load, compare-and-swap, byte, store and bump of every publisher keeps the table's invariant, stale loads included |
| NameTables.OneSlotPerKey | include/slick/perfmon/control_block.hpp:344-364 | in every run no key is in two slots and the taken slots are a prefix |
| NameTables.KeysStay | include/slick/perfmon/control_block.hpp:463-531 | a taken slot never changes key, a published one never changes word or bytes |
| NameTables.LookupIsWhole | include/slick/perfmon/control_block.hpp:325-341 | the name read from a published slot, however late, is the whole of the name one publisher of that key supplied |
| NameTables.SuccessMeansAgreement | include/slick/perfmon/control_block.hpp:460-531 | all publishers told true for one key supplied the same name, which is the one readers see |
| NameTables.EveryActionCounts | include/slick/perfmon/control_block.hpp:545-554 | a publisher's own actions are bounded, whatever the others do or stop doing |
| NameCode.StepIsLater | include/slick/perfmon/control_block.hpp:463-531 | whoever acts, taken slots keep their keys and published ones their names, and no other publisher is moved or has the slot it owns touched |
| NameCode.Judged | include/slick/perfmon/control_block.hpp:500-531 | the next byte of a published name settles whether the names agree, or leaves it open, exactly |
| NameCode.NameTable.PublishOne | include/slick/perfmon/control_block.hpp:463-531 | the whole scan, with everybody acting between any two of its accesses: true means a slot of this key holds this name for every reader; false that the key is taken or the table full; when the caller already knows of the key's slot, the answer is exactly whether the names agree |
| NameCode.NameTable.TrySlot | include/slick/perfmon/control_block.hpp:467-529 | one slot settles the call only if it is the key's own, and does if it is known to be |
| NameCode.NameTable.AwaitClaim | include/slick/perfmon/control_block.hpp:545-554 | bounded waiting, ending with a word of the same key, claimed still or published |
| NameCode.NameTable.SameName | include/slick/perfmon/control_block.hpp:496-496 | whether the bytes up to the NUL are the name, whole |
| NameCode.NameTable.CompareAndSwap | include/slick/perfmon/control_block.hpp:500-503 | the claim of a free slot, or else a word that is not free |
| NameCode.NameTable.CopyName | include/slick/perfmon/control_block.hpp:504-505 | the name is written into the claimed slot, its NUL last |
| NameCode.NameTable.Announce | include/slick/perfmon/control_block.hpp:506-513 | the name is readable under its key, unannounced, before the generation moves, and the slot is announced by that later generation |
| NameCode.NameTable.LookUp | include/slick/perfmon/control_block.hpp:325-341 | nothing, or the whole name of a slot of that key, copied while publishers go on; a key the reader knows to be published is found |
| NameCode.NameTable.ClaimedNames | include/slick/perfmon/control_block.hpp:353-364 | the slots counted are taken, and the count stops at none the reader knows of |
| LabelCaches.ActsKeeps | include/slick/perfmon/collector.hpp:1970-2025 | refreshing, looking slot by slot and caching keep every cached label true or yet unannounced |
| LabelCaches.PublisherKeeps | include/slick/perfmon/control_block.hpp:507-512 | a name that lands is announced by a later generation than any cached one |
| LabelCaches.LabelsAgree | include/slick/perfmon/collector.hpp:1970-2025 | with the cached generation current and no publisher of the key between its key store and its bump, a cached label is what resolving now gives, and the one the names in the table make |
| LabelCaches.ResolveShows | include/slick/perfmon/collector.hpp:1980-2025 | a point is labelled by the name in the slot of (point, 0), a stage by that of (point, the step it ends on), unless it has none or a stage is named as values are; the total and value stages by fixed words |
| LabelCaches.DecimalReads | include/slick/perfmon/collector.hpp:1987-1987 | the numbers in a generated label are written in digits that read back as them, without a leading zero |
| LabelCaches.StepIsBeside | include/slick/perfmon/control_block.hpp:463-531 | a publisher's action announces a slot only by a later generation than there has been, and never touches a published one |
| LabelCode.NameCache.Refresh | include/slick/perfmon/collector.hpp:1970-1978 | a new generation empties the cache, the old one leaves it; the generation is at least any the collector knows of |
| LabelCode.NameCache.LabelOf | include/slick/perfmon/collector.hpp:1980-2025 | a label is fixed, the cached one, or looked up slot by slot and byte by byte while publishers act; with the generation current and nobody announcing its key it is the name in the slot of its own key, a stage by the step it ends on, or the generated label if there is none to show |
| LabelCode.NameCache.LookUp | include/slick/perfmon/control_block.hpp:325-341 | the label found is true to the collector's generation, and is cached or nothing is |
| LabelCode.NameCache.ReadLabel | include/slick/perfmon/control_block.hpp:336-338 | the name copied from a published slot is whole |
| RingOwnership.PackingKeepsApart | include/slick/perfmon/detail/ring_table.hpp:30-36 | state and pid survive the owner word, sessions with different tags never share one, retiring keeps pid and tag |
| RingOwnership.ActionKeeps | include/slick/perfmon/detail/ring_table.hpp:130-156 | every claim, attach, publish, exit, shutdown, death, reclaim, drain and release keeps the ownership invariant |
| RingOwnership.OneWriter | include/slick/perfmon.hpp:132-164 | in every run, modules that share a session included, a ring has at most one writer, the claim word is its session's, and its next is the head between publishes |
| RingOwnership.JoinSessionKeeps | include/slick/perfmon.hpp:296-301 | a module of the same process that joins a session, and so its claim word, keeps the ownership invariant |
| RingOwnership.AttachSeesTheHead | include/slick/perfmon/detail/thread_ring.hpp:45-50 | the head a claimant loads, as stale as its acquire permits, is the head |
| RingOwnership.HeadsOnlyRise | include/slick/perfmon/detail/thread_ring.hpp:22-28 | only a publish changes a head, and by one |
| RingOwnership.HeadsNeverFall | include/slick/perfmon/detail/ring_table.hpp:118-128 | a head never decreases over any run, across owners |
| RingOwnership.FreedOnlyWhenDrained | include/slick/perfmon/collector.hpp:1450-1462 | a ring is freed only when retired, without a writer, and with the cursor at its final head |
| RingOwnership.NobodyElseFrees | include/slick/perfmon/detail/ring_table.hpp:130-156 | no other action frees a ring, short of taking over a table between sessions |
| RingOwnership.ReclaimKeeps | include/slick/perfmon/collector.hpp:1419-1432 | a dead process's ring becomes retired with its head final, no other changes, and nobody was writing it |
| RingOwnership.RetireOneKeeps | include/slick/perfmon/collector.hpp:472-477 | a step of shutdown retires its ring if its own session holds it, and then nobody writes that; no other ring changes |
| RingOwnership.ExitKeeps | include/slick/perfmon.hpp:132-139 | a thread's exit retires exactly the ring it writes, with its head final, or none |
| RingTables.OthersLeaveThread | include/slick/perfmon.hpp:132-164 | no action of another thread, of the collector or of another module touches a live thread's binding or the ring it writes |
| RingTables.OthersLeaveCollector | include/slick/perfmon/collector.hpp:1419-1462 | nobody but the collector moves its cursors, changes a retired ring or a dead process's, or frees one |
| RingTables.OthersLeaveModule | include/slick/perfmon/collector.hpp:472-477 | nobody takes a ring under a session that is being ended |
| RingTables.RingTable.Claim | include/slick/perfmon/detail/ring_table.hpp:131-142 | the claim loop, others acting between its accesses: the ring claimed was free when swapped, is held under the thread's session and not yet attached; of the rings the thread has a word no older than the stamp of, each before it, or every one if none is claimed, was taken at some moment since the stamp began |
| RingTables.RingTable.BoundWriter | include/slick/perfmon.hpp:143-164 | a stamp's ring is in its module's live session, held under that session's word, and the thread's count is at its head; without one, a claim in this session failed before, or every ring it is sure of was taken at some moment |
| RingTables.RingTable.Stamp | include/slick/perfmon.hpp:143-164 | a stamp into a ring of one's own moves that ring's head forward, by one if the thread was bound already, and leaves the thread's count equal to it; it goes to the shared ring only if a claim failed, now or before |
| RingTables.RingTable.ExitThread | include/slick/perfmon.hpp:132-139 | the ring the thread writes is handed back, with the head where the thread left it |
| RingTables.RingTable.ReleaseRetiredRings | include/slick/perfmon/collector.hpp:1450-1462 | of the rings found retired, exactly those whose cursor is at the final head are freed |
| RingTables.RingTable.ReleaseRing | include/slick/perfmon/collector.hpp:1450-1462 | a retired ring is freed exactly if it is drained, and no other retired ring is touched |
| RingTables.RingTable.ReclaimDeadRings | include/slick/perfmon/collector.hpp:1419-1432 | every ring a dead process holds is retired on its behalf, its head as it was left |
| RingTables.RingTable.Shutdown | include/slick/perfmon/collector.hpp:472-477 | afterwards the ended session holds no ring, whatever the others did meanwhile |
| RetiredTables.MovedOnIsSafe | include/slick/perfmon/collector.hpp:979-998 | when every noted module has moved to a later session, a module can publish into the table exactly if it came too late to a session that had given it up |
| RetiredTables.SafeUnlessStrayed | include/slick/perfmon/collector.hpp:954-998 | a table handed out is safe from all modules if and only if none attached to an ended session after that had given this table up |
| RetiredTables.LateAttach | include/slick/perfmon.hpp:296-301 | that does happen: a module that attaches to the first session once the second has its table can publish into the table of the third, which is the same |
| RetiredTables.TooManyIsFull | include/slick/perfmon.hpp:99-112 | a session more than kMaxModules other modules stamped into is never reused |
| RetiredTables.Host.NoteModule | include/slick/perfmon.hpp:99-112 | the module is on the list or the list is full, and nobody else's note is lost |
| RetiredTables.Host.HasModule | include/slick/perfmon.hpp:60-67 | whether a module is on the list |
| RetiredTables.Host.AttachModule | include/slick/perfmon.hpp:296-301 | attaching notes the module, to an ended session too, and records exactly whether that had given its table up before |
| RetiredTables.Host.Stamp | include/slick/perfmon.hpp:143-164 | a stamp's binding notes its module, and publishes into that session's table |
| RetiredTables.Host.ModulesMovedOn | include/slick/perfmon/collector.hpp:979-998 | true exactly if the list did not overflow and each module on it is noted in a later retired session |
| RetiredTables.Host.TakeRetiredTable | include/slick/perfmon/collector.hpp:954-965 | hands out the table of the first retired local session of this geometry that everybody noted has moved on from, taking it from that session; only strayed modules can publish into it, and all that have had it have this geometry; nothing only if there is none |
| RetiredTables.Host.ObtainTable | include/slick/perfmon/collector.hpp:901-937 | the first retired table there is to take, else a new one; nobody else owns it, and only strayed modules publish into it |
| RetiredTables.Host.Start | include/slick/perfmon/collector.hpp:901-937 | a new session over the table a retired one gives up, or a new table when none does; only strayed modules publish into it, and every session that has had it has the same rings |
| RetiredTables.Host.Shutdown | include/slick/perfmon/collector.hpp:472-483 | the session joins the retired ones with its table |
| Buckets.ValueInBucket | include/slick/perfmon/histogram.hpp:174-182 | a value lies within the bounds of the bucket it is counted in |
| Buckets.OnlyBucket | include/slick/perfmon/histogram.hpp:174-202 | and in no other |
| Buckets.BucketsTile | include/slick/perfmon/histogram.hpp:185-202 | each bucket begins where the one before ends |
| Buckets.IndexKeepsOrder | include/slick/perfmon/histogram.hpp:174-182 | smaller values are in no later bucket |
| Buckets.IndexInRange | include/slick/perfmon/histogram.hpp:49-51 | the values with a bucket in the array are exactly the 64-bit ones |
| Buckets.BucketsFitTheWord | include/slick/perfmon/histogram.hpp:185-211 | bounds, midpoints and shifted values of every bucket stay within 64 bits |
| Buckets.IndexFits | include/slick/perfmon/histogram.hpp:46-51 | up to precision 26 every index fits 32 bits |
| Buckets.WithinHalfABucket | include/slick/perfmon/histogram.hpp:53-54 | the reported value is within v / 2^(p+1) of every value v it stands for |
| Ranks.RankIsCeiling | include/slick/perfmon/histogram.hpp:163-170 | the rank is the exact ceiling of n * scaled / 10^9, at least one |
| Ranks.RankFits | include/slick/perfmon/histogram.hpp:163-170 | no intermediate value wraps 64 bits, and the rank is at most n |
| Ranks.NearestExists | include/slick/perfmon/histogram.hpp:150-162 | a smallest sample with at least that part at or below it exists |
| Ranks.NearestIsUnique | include/slick/perfmon/histogram.hpp:150-162 | and is unique |
| Ranks.RankIsThere | include/slick/perfmon/histogram.hpp:150-170 | counting samples upward reaches the rank at that sample and not before |
| Histograms.FirstReachedHoldsNearest | include/slick/perfmon/histogram.hpp:133-143 | the first bucket at which the running count reaches the rank holds the nearest-rank sample |
| Histograms.Histogram.constructor | include/slick/perfmon/histogram.hpp:228-240 | an empty histogram, its band encoded empty |
| Histograms.Histogram.Add | include/slick/perfmon/histogram.hpp:56-70 | one more sample; counts, total and occupied band follow |
| Histograms.Histogram.Clear | include/slick/perfmon/histogram.hpp:72-80 | no samples, although only the band is zeroed |
| Histograms.Histogram.Merge | include/slick/perfmon/histogram.hpp:86-100 | the samples of both, although only the other's band is walked; also when that is this one |
| Histograms.Histogram.ValueAt | include/slick/perfmon/histogram.hpp:115-145 | the midpoint of the bucket that holds the exact nearest-rank sample of everything added and merged; at the ends, the smallest or largest |
| Accumulators.WelfordStep | include/slick/perfmon/accumulator.hpp:36-39 | the update gives the mean and the squared deviations of the samples with the new one |
| Accumulators.ChanStep | include/slick/perfmon/accumulator.hpp:71-81 | the combination gives the mean and squared deviations of both sample sequences, the first empty or not |
| Accumulators.Accumulator.constructor | include/slick/perfmon/accumulator.hpp:121-127 | an empty accumulator |
| Accumulators.Accumulator.Add | include/slick/perfmon/accumulator.hpp:26-42 | count, extremes, sum, mean and m2 are those of the samples with the new one |
| Accumulators.Accumulator.Clear | include/slick/perfmon/accumulator.hpp:44-52 | those of no samples |
| Accumulators.Accumulator.MergeInto | include/slick/perfmon/accumulator.hpp:56-83 | the destination is as if it had been given both sample sequences, empty ones included; also when that is this one |
| Accumulators.Accumulator.ValueAt | include/slick/perfmon/accumulator.hpp:107-115 | within the observed range, and still within one part in 2^(p+1) of the exact sample |
| Reports.NoteRow | include/slick/perfmon/collector.hpp:1709-1722 | the point's total, or else its first row, carries its anomalies; whether any row has samples is known |
| Reports.StageRows | include/slick/perfmon/collector.hpp:1725-1752 | one row per stage with its samples, its point's delta and totals, and where each point's rows stand |
| Reports.TellPoint | include/slick/perfmon/collector.hpp:1778-1819 | a point's new anomalies end up on a row that is written, once, and its baseline moves up; a point that ever had one has a row with its lifetime counters, exempted only if something is new |
| Reports.AllRows | include/slick/perfmon/collector.hpp:1699-1835 | exactly one row per stage and no samples on any other, every non-zero delta on a selected row, at most one row without samples exempted per point and none with nothing new, a row with its lifetime counters for every point that has any and for the bucket, all baselines at the totals |
| Reports.Reporter.BuildReports | include/slick/perfmon/collector.hpp:1699-1835 | the deltas are what happened since the last flush, per point and in the bucket; the lifetime counters of each are on a row, new or not |
| Reports.WriteLines | include/slick/perfmon/collector.hpp:2077-2122 | the lines are exactly the selected rows in order, or the collector's own when none is and there is loss or stall to tell |
| Reports.LinesSay | include/slick/perfmon/collector.hpp:2077-2122 | every non-zero anomaly, loss or stall delta is on at least one line |
| Reports.Reporter.CollectorDeltas | include/slick/perfmon/collector.hpp:1645-1654 | losses and stalls new since the last flush |
| Reports.Reporter.Flush | include/slick/perfmon/collector.hpp:1632-1682 | a whole flush: sweep of exactly the spans past the limit, deltas, rows, lifetime counters shown, lines, lifetime records closed over the interval |
| Intervals.DeltasAddUp | include/slick/perfmon/collector.hpp:1699-1857 | over any sequence of flushes, the deltas on each point's rows, none when it has no row, add up to its lifetime counters; so do the shared bucket's |
| Intervals.TotalsAddUp | include/slick/perfmon/collector.hpp:1739-1746 | the lifetime totals a row shows are the sums of the deltas on the rows of all flushes so far |
| Intervals.CountsAddUp | include/slick/perfmon/collector.hpp:1725-1752 | over any sequence of flushes, with stages appearing in between, the counts on a stage's rows add up to the samples of its lifetime record, which is what its last row shows |
| Intervals.SamplesTold | include/slick/perfmon/collector.hpp:1725-1752 | the rows of one flush tell of exactly the stage's interval samples |
| Intervals.LifetimeShown | include/slick/perfmon/collector.hpp:1766-1769 | at every flush each point with non-zero lifetime counters has a row that shows them, and so has the bucket |
| Intervals.RunSession | include/slick/perfmon/collector.hpp:1632-1682 | batches paired and flushes made alternately, from an empty session: the deltas on the rows kept add up to the counters the pairer has, the counts to the samples it recorded, and the rows of the last flush show every lifetime counter |
| Intervals.StepGrows | include/slick/perfmon/pairing.hpp:404-425 | between flushes the pairer leaves lifetime records alone, only adds samples to intervals, stages with nothing told, and anomalies |

## Left out

- The pairer's tables are finite maps. `OpenMaps.Run` proves the real table behaves as one, visited in some order
  of its keys; a pointer into the table kept across an operation is not modelled.
- A stage's accumulators are the sequences of values added to them; `Histograms` and `Accumulators` are proved apart.
- `& mask`, shifts and `clz` are quotients, remainders and a search for the highest bit; the or of
  `next_pow2` goes bit by bit. Sample fields and 64-bit counters are unbounded naturals.
- The standard heap, sort and lower_bound algorithms are used by contract; the order rows are sorted in is not modelled.
- `slick::queue` and `slick::shm` internals, the stall timer, the final drain's deadline and opening the transport:
  the shared ring is a sequence of batches, the loss and stall counts are parameters.
- The rings' histories are given to a merge pass in advance, and each head load reveals more of them; what a read
  returns is taken from `RingReads`, which `ThreadRings` and `RingCode` prove.
- Clocks, calibration, overhead measurement, unit conversion, `sqrt` and rounding: statistics are exact reals, and
  a percentile argument arrives already scaled to parts in 10^9, or as beyond one of the ends.
- Writing text: formatting, file handling, flushing intervals. Only which rows are written is modelled, for a stream
  that is open.
- Threads, sleeping and process liveness calls: nondeterministic actions and an alive flag.
- The wrap of session tags after 2^24 sessions, and reuse of process ids.
- Shared-mode entries dropped from the retired list when a segment is opened again; they never hold a table.
- RingTables.RingTable.Claim: the word of a ring may look taken when it no longer is (its load is relaxed), so a
  free ring is promised to be found only among those whose word the thread has seen no older than its stamp.
- RingOwnership.OneWriter: a module keeps one session at a time; moving back and forth between two live sessions
  would leave rings claimed until the first one ends.
- RetiredTables.Host.AttachModule: modules move only to newer sessions.
- RingOwnership.FreedOnlyWhenDrained: a new collector starts its cursors at the heads, so samples it never meant to
  read count as drained.
- Reports.Reporter.Flush: the clock estimate, the peak of open spans and the swap of the published rows; reclaiming
  dead rings and refreshing labels are proved apart, in `RingTables` and `LabelCode`.
- `ScopedSample`, macros, the disabled build, configuration checks, examples and benchmarks.
