# Wafflex, verified

Wafflex is an nginx module that applies rules to requests. This project models the parts
of it that are hardest to get right, and proves what they are for:

- **Slab allocator** (`SlabTiles`, `SlabLists`, `SlabPages`, `SlabChunks`, `SlabSearch`,
  `SlabPool`, `SlabRuns`). The page array is tiled into runs. Page descriptors are an array,
  updated in place by `Pool`; links are indices; the low two bits of `prev` are a tag of
  their own. The invariant ties descriptors, ten circular lists and bitmaps to the tiling.
- **IPC alert channel** (`Queues`, `IpcPackets`, `IpcRuns`, `IpcChannel`). Alerts are cut into
  packets, packets of many senders share a pipe, and the reader puts them together. `IpcRuns`
  is the system as a state machine over send, write and receive; `IpcChannel` has the two
  ends of a channel as objects.
- **Limiter** (`LimiterLeases`, `LimiterProcs`, `LimiterRate`). The lease of shared counters
  over first-in first-out channels, as a state machine over the handlers; the processes and
  their tables as objects; and what a counter lets through.
- **Evaluator** (`ConditionStack`, `Conditions`, `Pipeline`, `Suspensions`, `SafePhases`,
  `SuspensionExamples`, `Evaluator`). Conditions, rules,
  lists and phases that are suspended and entered again from the top. When a leaf waits is
  the environment's choice: a list of decisions, over which everything is quantified.
- **Redis protocol** (`Resp`, `RespDrain`, `RespReader`, `RespFormat`) and **asynchronous
  connection** (`Async`, `AsyncContext`). The format is the Redis serialization protocol
  (RESP2), sections "Bulk strings" and "Arrays". What a callback calls is a list of calls.
- **Data structures and codecs** (`Reaper`, `DictChains`, `Dict`, `SdsQuote`, `SdsWords`,
  `SdsText`, `Json`, `JsonSafe`).

`Basics` holds what several of them share. In each part, what a loop or an object computes
is given by functions on values, its methods are proved to compute just that, and the
theorems are lemmas about the functions.

What the code and its comments disagree about, the code decides:

- The depth message of the reply reader speaks of a depth over 7; eight levels of arrays
  are read, and the ninth is the error.
- The comment on callbacks that may free a connection holds for command callbacks. The
  connect and disconnect callbacks take a constant context and are taken to call nothing.
- `rule.action.i`, `rule.i` and `rule.condition_done` are not reset on every way out of a
  rule or a list. So a suspended phase does not always do what it means. Which phases do in
  every run is `SafePhases.AlwaysIff`, and in a given run `Suspensions.RunIff`.
  `Suspensions.RunIsMeaning` is the plain case, of waits only in conditions and first actions
  and "skip" only in the last list; `Pipeline.Unsuspended` is the case of no wait at all; and
  `SuspensionExamples` has an input for each way in which it goes wrong.

## Model

| member | source | states |
|---|---|---|
| `SlabRuns.Serve` | src/util/ngx_shmem_hacked_slab.c:122-615 | any sequence of requests of any sizes, where callers give back only what they hold, is answered as it should be: NULL only when nothing that would do is left, else a new address whose block fits; giving back what is held is reported as freed and frees just that; and at each moment the live blocks are exactly those of the ledger of requests and answers |
| `SlabRuns.AlwaysApart` | src/util/ngx_shmem_hacked_slab.c:122-615 | at every moment of such a run, what the answers say is held is exactly what is live, each piece as large as asked, in the pool, no two overlapping, and none over the bitmap of a page of small chunks; no two free runs touch; and the reserved count is the number of pages outside free runs |
| `SlabRuns.HeldApart` | src/util/ngx_shmem_hacked_slab.c:410-615 | what callers hold lies in the pool, pairwise apart, and off every in-page bitmap |
| `SlabRuns.LiveIsNoticed` | src/util/ngx_shmem_hacked_slab.c:410-615 | the address of a live block is never of the two kinds that fool the free path |
| `SlabPool.Pool.Alloc` | src/util/ngx_shmem_hacked_slab.c:123-366 | a request gains one new block, no other block appears, moves or goes; the block is of the smallest class that will do, or of the least number of pages; a null answer means that nothing which would do is left |
| `SlabPool.Pool.AllocRun` | src/util/ngx_shmem_hacked_slab.c:130-146 | a request over the largest chunk takes a run of just enough pages, or there is no such run |
| `SlabPool.Pool.AllocClass` | src/util/ngx_shmem_hacked_slab.c:162-366 | a request for a chunk takes one of the first page on its class list, which always has one, or of a fresh page; it fails only when every page of the class is full and no page is free |
| `SlabPool.Pool.FindChunk` | src/util/ngx_shmem_hacked_slab.c:167-295 | the search of a page on a class list always finds a free chunk in that page |
| `SlabPool.Pool.TakeChunk` | src/util/ngx_shmem_hacked_slab.c:165-295 | the chunk found becomes live; a page left without a free chunk leaves its class list |
| `SlabPool.Pool.FreshChunk` | src/util/ngx_shmem_hacked_slab.c:297-359 | a free page becomes one of chunks with its own bitmap marked and one chunk live, and is alone on its class list |
| `SlabPool.Pool.FreeBlock` | src/util/ngx_shmem_hacked_slab.c:410-615 | an address is reported as freed exactly if a live block starts there or it is one of two kinds that fool the code: the first page of a free run, and a chunk of a page's own bitmap; a live block is then gone and no other; the state stays sound exactly if the code was not fooled; anything else is reported and changes nothing |
| `SlabPool.Pool.FreeRun` | src/util/ngx_shmem_hacked_slab.c:562-587 | a run of pages is freed exactly at its first byte; the first page of a free run passes for one, and lowers the count of reserved pages once more; other addresses in whole pages are reported |
| `SlabPool.Pool.FreeAddr` | src/util/ngx_shmem_hacked_slab.c:429-560 | a chunk is freed exactly if the address is its first byte and its bit is set, which that of a chunk of the page's own bitmap always is |
| `SlabPool.Pool.FreeBitmapChunk` | src/util/ngx_shmem_hacked_slab.c:431-483 | giving back a chunk of a page's own bitmap clears the bit that keeps it from being handed out, and frees no page |
| `SlabPool.Pool.FreeChunk` | src/util/ngx_shmem_hacked_slab.c:446-483 | a full page rejoins its class list; a page goes back to the page allocator exactly when its last chunk is freed |
| `SlabPool.Pool.IsFull` | src/util/ngx_shmem_hacked_slab.c:446-508 | the full pages are those whose link is null, or for exact chunks whose word is all ones: just those on no list |
| `SlabPool.Pool.AllocPages` | src/util/ngx_shmem_hacked_slab.c:619-673 | the first run on the free list that is long enough gives its first pages; the tiling of the pages into runs changes just there; null exactly when no free run is long enough; the reserved count stays the number of pages outside free runs |
| `SlabPool.Pool.FreePages` | src/util/ngx_shmem_hacked_slab.c:677-761 | the run given back and the free runs that touch it become one free run on the free list; the reserved count falls by its length; coalescing stays complete; a run that was free already stays as it is, and only the count goes wrong |
| `SlabPool.Pool.Cut` | src/util/ngx_shmem_hacked_slab.c:629-638 | splitting a free run: its rest takes its place on the free list |
| `SlabPool.Pool.JoinRight` | src/util/ngx_shmem_hacked_slab.c:701-721 | a free run after the released one is taken off the free list and swallowed |
| `SlabPool.Pool.JoinLeft` | src/util/ngx_shmem_hacked_slab.c:723-748 | a free run before it, found through the back pointer of its last page, is swallowed |
| `SlabPool.Pool.PutFree` | src/util/ngx_shmem_hacked_slab.c:750-760 | the merged run goes to the front of the free list, its last page pointing back to its first |
| `SlabTiles.TakenOK` | src/util/ngx_shmem_hacked_slab.c:619-673 | taking pages keeps every page in exactly one run, keeps free runs apart, and reserves exactly those pages more |
| `SlabTiles.ReleaseOK` | src/util/ngx_shmem_hacked_slab.c:677-761 | giving a run back keeps the tiling, leaves no two free runs adjacent, and unreserves exactly its pages |
| `SlabTiles.ReleaseCoalesced` | src/util/ngx_shmem_hacked_slab.c:701-748 | after a release no two free runs touch |
| `SlabTiles.ReleaseFree` | src/util/ngx_shmem_hacked_slab.c:677-761 | giving back a free run again leaves the runs as they are |
| `SlabTiles.MergedAt` | src/util/ngx_shmem_hacked_slab.c:701-748 | the merged run is the released one with its free neighbours and nothing else |
| `SlabTiles.RunsApart` | src/util/ngx_shmem_hacked_slab.c:619-761 | distinct runs do not overlap |
| `SlabPages.FreeListExact` | src/util/ngx_shmem_hacked_slab.c:619-761 | a page is on the free list exactly if a free run starts there, and the free list holds it once |
| `SlabPages.NoFitAtAll` | src/util/ngx_shmem_hacked_slab.c:625-672 | if no run on the free list is long enough, no free run in the pool is |
| `SlabPages.CutPool` | src/util/ngx_shmem_hacked_slab.c:629-638 | the link writes of a split keep all ten lists and every run descriptor in order |
| `SlabPages.MergePool` | src/util/ngx_shmem_hacked_slab.c:709-745 | the descriptor writes of a merge keep all lists and descriptors in order |
| `SlabPages.RightIsFree` | src/util/ngx_shmem_hacked_slab.c:701-708 | the test of the next descriptor finds a free run exactly if the next run is free |
| `SlabPages.LeftIsFree` | src/util/ngx_shmem_hacked_slab.c:723-733 | the test through the previous descriptor finds a free run exactly if the run before is free |
| `SlabLists.ListsUnlink` | src/util/ngx_shmem_hacked_slab.c:199-205 | taking a descriptor out by its own links removes it from its list and leaves the nine others |
| `SlabLists.ListsPush` | src/util/ngx_shmem_hacked_slab.c:453-457 | putting a descriptor behind a sentinel adds it in front of that list and leaves the nine others |
| `SlabLists.ListsReplace` | src/util/ngx_shmem_hacked_slab.c:632-638 | a descriptor that takes over the links of another stands in its place |
| `SlabChunks.BlocksDisjoint` | src/util/ngx_shmem_hacked_slab.c:122-615 | two live blocks never overlap, whichever layouts their pages have |
| `SlabChunks.BlockInside` | src/util/ngx_shmem_hacked_slab.c:122-615 | a live block lies inside the pool and inside one busy run |
| `SlabChunks.BitmapSafe` | src/util/ngx_shmem_hacked_slab.c:300-328 | no live block touches the bitmap that a page of small chunks keeps in itself |
| `SlabChunks.HeaderHoldsBitmap` | src/util/ngx_shmem_hacked_slab.c:304-317 | the chunks set aside at the front of a page of small chunks are just enough for its bitmap |
| `SlabChunks.SizeTable` | src/util/ngx_shmem_hacked_slab.c:76-89 | the sizes, counts and bitmap sizes of the nine classes |
| `SlabChunks.ClassPage` | src/util/ngx_shmem_hacked_slab.c:162-166 | the first page of a class list is one of that class with a free chunk |
| `SlabChunks.ClassExhausted` | src/util/ngx_shmem_hacked_slab.c:297-366 | an empty class list means that every page of the class is full |
| `SlabChunks.OneClassFits` | src/util/ngx_shmem_hacked_slab.c:148-157 | only one class is of the right size for a request |
| `SlabSearch.SearchWords` | src/util/ngx_shmem_hacked_slab.c:176-213 | the word by word, bit by bit search returns the first clear bit of the bitmap |
| `SlabSearch.NoneSet` | src/util/ngx_shmem_hacked_slab.c:462-478 | the masked scan of the bitmap tells exactly whether a chunk is still live |
| `SlabSearch.ShiftFor` | src/util/ngx_shmem_hacked_slab.c:148-151 | the shifting loop finds the least power of two that is enough |
| `IpcRuns.AlertsArrive` | src/util/ipc.c:646-899 | in every run, with any interleaving of senders on the pipe and any failing writes: no packet is rejected, none overruns its buffer, and the handler gets from each sender the alerts it was asked to send, in order, each once, with name and data as they were; all of them once nothing is queued or in the pipe |
| `IpcRuns.LaneRead` | src/util/ipc.c:646-780 | a packet taken from the pipe is always the next one of its sender: it starts, continues or completes that sender's alert and disturbs no other buffer |
| `IpcRuns.SentIsAsked` | src/util/ipc.c:807-899 | what a sender has sent is what it was asked to send, in order |
| `IpcPackets.PacketsFit` | src/util/ipc.c:857-895 | no packet is longer than what a pipe writes at once, and its lengths fit the 16-bit and 8-bit fields of the header |
| `IpcPackets.SendableIff` | src/util/ipc.c:819-831 | what may be sent: any name that fits 8 bits with its terminator, and any data that fits 32 bits beside the longest name |
| `IpcPackets.PacketsCarry` | src/util/ipc.c:857-895 | the packets of an alert carry its name and then its data, in as few packets of 4096 bytes, header and all, as will do |
| `IpcPackets.MisfitDrops` | src/util/ipc.c:569-620 | a part that does not belong to what its slot has begun: the buffer is dropped, and the part opens a new one exactly if it is a first part of another process |
| `IpcPackets.ArriveWhole` | src/util/ipc.c:690-719 | an alert in one packet is handed over whole |
| `IpcPackets.ArriveFirst` | src/util/ipc.c:721-770 | a first part opens a buffer that holds the name and the data so far |
| `IpcPackets.ArriveNext` | src/util/ipc.c:721-770 | a further part lands at its place in the buffer; the last one completes name and data exactly |
| `IpcChannel.WriteChannel.SendAlert` | src/util/ipc.c:807-899 | an alert is sent exactly if its name and a terminator fit 8 bits, and its data beside the longest name fits 32 bits; its packets join the queue one by one, and after each as much is written as there is room for |
| `IpcChannel.WriteChannel.SendParts` | src/util/ipc.c:857-895 | the loop over name and data left produces the packets of the alert and no others |
| `IpcChannel.WriteChannel.WriteHandler` | src/util/ipc.c:454-500 | the queue and then the packet at hand are written in order as long as there is room; the rest is queued |
| `IpcChannel.FlowedIs` | src/util/ipc.c:454-500 | what is written is the longest front of the queue that finds room, and the rest stays in order |
| `IpcChannel.AllPassedKeeps` | src/util/ipc.c:807-899 | through a send nothing in the pipe or queued is lost, doubled or moved |
| `IpcChannel.AllRoomPasses` | src/util/ipc.c:807-899 | when all writes find room, a send leaves nothing queued, nor what was queued before it |
| `IpcChannel.SendIsSteps` | src/util/ipc.c:807-899 | a send on the channel is the send step of the system and then write steps of that sender |
| `IpcChannel.HandlerIsSteps` | src/util/ipc.c:454-500 | a write event on the channel is as many write steps of the system as there is room for |
| `IpcChannel.WriteChannel.EnqueueTmp` | src/util/ipc.c:394-446 | the packet at hand joins the end of the queue |
| `IpcChannel.WriteChannel.EnqueueWrite` | src/util/ipc.c:448-452 | a packet at hand is queued before the next takes its place |
| `IpcChannel.Pipe.WriteIovec` | src/util/ipc.c:371-392 | a packet is written whole or not at all |
| `IpcChannel.ReadChannel.GetReadbuf` | src/util/ipc.c:569-620 | the buffer found or made for a part packet, and the buffers dropped when it does not fit |
| `IpcChannel.ReadChannel.ReadOne` | src/util/ipc.c:646-780 | one packet is read as specified, complaints included |
| `IpcChannel.ReadChannel.ReadAll` | src/util/ipc.c:646-780 | the read loop takes packets until the pipe is empty or one makes no sense |
| `IpcChannel.DrainIsReceives` | src/util/ipc.c:646-780 | the read loop is as many single receptions as the pipe has packets |
| `Queues.Queue.Push` | src/util/ipc.c:430-437 | a value joins the end of the linked queue |
| `Queues.Queue.Shift` | src/util/ipc.c:466-475 | the first value leaves the linked queue, and the tail is cleared with the last |
| `LimiterLeases.LeasesSafe` | src/ruleset/limiter.c:178-300 | in every run: no assertion fails and no freed counter is touched; what a worker holds, or a response or release carries, is the manager's own counter for the key; and a reference count is at least the number of holders, responses and releases |
| `LimiterLeases.NeverWrong` | src/ruleset/limiter.c:178-300 | at no moment of a run would the next step, whichever it is, use a counter that was freed, or drop or free another than its table has |
| `LimiterLeases.FaultIff` | src/ruleset/limiter.c:178-300 | a fault is just that, in any state at all |
| `LimiterLeases.ReapIsSafe` | src/ruleset/limiter.c:178-208 | when a counter is freed, no worker holds it, none is about to receive it, and none is giving it back |
| `LimiterLeases.UnreferredUnheld` | src/ruleset/limiter.c:178-208 | at reference count zero a counter is nowhere outside the manager |
| `LimiterLeases.WorkerTakesOK` | src/ruleset/limiter.c:252-285 | a worker's handling of any message keeps the invariant, and its release assertion holds |
| `LimiterLeases.ManagerTakesOK` | src/ruleset/limiter.c:224-300 | the manager's handling of any message keeps the invariant, whichever free address the allocator gives |
| `LimiterLeases.ExamineOK` | src/ruleset/limiter.c:178-208 | reaping, asking for a counter back, and leaving it all keep the invariant |
| `LimiterLeases.ReferenceLeaks` | src/ruleset/limiter.c:302-343 | the count is only a bound: after two suspended requests of one worker and a full release, a counter nobody refers to keeps one reference |
| `LimiterLeases.StepAccounts` | src/ruleset/limiter.c:178-300 | what each step does to the count and the references of each counter |
| `LimiterLeases.CountsAreSums` | src/ruleset/limiter.c:43-47 | in every run a counter's count is the sum of the increments applied to it since it was made, and its references are those given less those returned |
| `LimiterLeases.AnsweredAndAsked` | src/ruleset/limiter.c:178-250 | a request is answered at once, to the worker that asked and with the counter of its key; a counter that is due is freed if it has no reference, and else asked back of every worker |
| `LimiterLeases.Asks` | src/ruleset/limiter.c:302-343 | a worker asks for a counter it does not hold |
| `LimiterLeases.TakesAndReturns` | src/ruleset/limiter.c:252-285 | a worker that is sent a counter holds it from then on, and one that is asked for it gives it back if it holds it |
| `LimiterRate.RateBound` | src/ruleset/limiter.c:43-47 | however additions and looks of requests interleave, fewer than limit + 1 + limit * T / interval requests pass a limit-break in the first T seconds |
| `LimiterRate.CurrentValueIs` | src/ruleset/limiter.c:43-47 | the value left of a count is the count less what the limit has let through, over real numbers: zero exactly if that is under one, and else rounded down |
| `LimiterRate.WithinLimitIff` | src/ruleset/limiter.c:347-353 | the truncated check passes exactly while the count is under limit + 1 + limit * age / interval |
| `LimiterRate.BurstPasses` | src/ruleset/limiter.c:347-353 | at any age, any number of requests under the bound can all pass at one moment |
| `LimiterRate.RateIff` | src/ruleset/limiter.c:347-353 | a number of requests can pass by a given age if and only if it is under the bound |
| `LimiterProcs.LimiterTable.Find` | src/ngx_wafflex_nginx_lua_scripts.c:247-257 | a value is found exactly if it was set for that limiter and key |
| `LimiterProcs.LimiterTable.Set` | src/ngx_wafflex_nginx_lua_scripts.c:259-273 | setting changes the entry of one limiter and key |
| `LimiterProcs.LimiterTable.UnsetValue` | src/ngx_wafflex_nginx_lua_scripts.c:275-291 | unsetting removes the entry and says so; an absent one is not found; another pointer than the one given, if one is, is the failed assertion; no empty inner table is kept |
| `LimiterProcs.Manager.OnRequest` | src/ruleset/limiter.c:224-250 | a request is answered with the counter of its key, with one more reference, or a new one |
| `LimiterProcs.Manager.ReadyToReap` | src/ruleset/limiter.c:178-200 | a counter is due if forced, or if it is a second old and its count is zero or less than one above what the limit has let through, over real numbers; due, it goes if it has no reference or is forced, and with a reference it is asked back from the workers |
| `LimiterProcs.DueIff` | src/ruleset/limiter.c:178-187 | unforced, a counter may go exactly if it is a second old and its count is zero or spent, over real numbers |
| `LimiterProcs.Manager.Examine` | src/ruleset/limiter.c:178-208 | the look of the reaper at a counter is the step of the protocol, with the counter due exactly if it is a second old and spent, over real numbers |
| `LimiterProcs.Manager.OnReleaseResponse` | src/ruleset/limiter.c:287-300 | a release takes one reference; at none the counter is looked at again at once |
| `LimiterProcs.WorkerEnd.FindOrAsk` | src/ruleset/limiter.c:309-337 | a worker uses the counter it holds or asks the manager for it |
| `LimiterProcs.WorkerEnd.Take` | src/ruleset/limiter.c:252-285 | a response enters the table; a release request empties it and is answered; the assertion fails exactly on a different pointer |
| `Conditions.CompleteIsMeaning` | src/ruleset/condition.c:153-222 | however a nested any/all/negated condition is suspended and resumed, it ends with the short-circuit verdict (which is what `Conditions.VerdictHolds` and `Conditions.StopsAtFirst` say it is), each leaf it needs having answered once, in order, and an empty stack |
| `Conditions.VerdictHolds` | src/ruleset/condition.c:153-222 | however it is suspended, a condition whose leaves answer true or false ends with true exactly if it holds as a Boolean formula: a leaf by its answer, any and all as "exists" and "for all", each turned round if negated |
| `Conditions.MeaningHolds` | src/ruleset/condition.c:153-222 | the same of the undisturbed verdict |
| `Conditions.OppositeFlips` | src/ruleset/condition.c:193-205 | turning the negation of a condition over turns true and false over, asks the same leaves, and keeps an error |
| `Conditions.StopsAtFirst` | src/ruleset/condition.c:153-191 | children are asked from the left up to the first that settles the verdict, errors included, and no further |
| `Conditions.Resumption` | src/ruleset/condition.c:153-191 | one evaluation against the undisturbed one: finished it is the same, deferred it leaves exactly the rest |
| `Conditions.StackDiscipline` | src/ruleset/condition.c:153-191 | the saved stack is empty unless the result is "defer", and then it is a place to come back to |
| `Conditions.Straight` | src/ruleset/condition.c:153-222 | undisturbed evaluation is the short-circuit meaning |
| `Conditions.TailData` | src/ruleset/condition.c:63-74 | an answer put at the bottom of the stack reaches the leaf that waits and changes nothing else |
| `Conditions.EvalCondition` | src/ruleset/condition.c:193-222 | the evaluator, on the linked stack, computes the specified result, stack and leaves |
| `Conditions.EvalWait` | src/ruleset/condition.c:378-400 | a waiting leaf pushes one element and pops it when it comes back |
| `Conditions.EvalList` | src/ruleset/condition.c:153-191 | the loop over children pops where it was, and pushes where it stops |
| `ConditionStack.Stack.Push` | src/ruleset/condition.c:29-39 | an element joins the front of the stack |
| `ConditionStack.Stack.Pop` | src/ruleset/condition.c:41-52 | the front element leaves the stack, and the tail is cleared with the last |
| `ConditionStack.Stack.Clear` | src/ruleset/condition.c:53-61 | all elements leave the stack |
| `ConditionStack.Stack.SetTail` | src/ruleset/condition.c:63-74 | the last element is replaced |
| `SafePhases.AlwaysIff` | src/ruleset/list.c:30-63 | a phase of rules never updated does what it means in every run, however it is suspended, if and only if it is safe: no flag, rule index or action index that a rule on its way can leave meets a rule that it harms; "skip" and waits anywhere |
| `SafePhases.SafeRun` | src/ruleset/list.c:30-63 | a safe phase does what it means in every run, also if rules share leaves or actions |
| `SafePhases.LeftIsPossible` | src/ruleset/rule.c:9-97 | what a rule entered fairly leaves, suspended or not, is one of the things listed |
| `SafePhases.PossibleIsLeft` | src/ruleset/rule.c:9-97 | and each of the things listed is left by some suspension of it |
| `Suspensions.RunIff` | src/ruleset/phase.c:11-61 | a run, suspended any number of times, carries out the actions the phase means, in that order, and returns its result, if and only if every rule on its way is entered fairly and only idle rules are passed over |
| `Suspensions.FairRun` | src/ruleset/phase.c:11-61 | a run in which every rule on the way is entered fairly does what the phase means, also if rules share leaves or actions |
| `Suspensions.RunIsMeaning` | src/ruleset/phase.c:11-61 | with waits only in conditions and first actions and "skip" only in the last list, every run carries out the actions of a straight run, in the same order, and returns the same result |
| `Suspensions.RunIsThrough` | src/ruleset/phase.c:25-60 | entering the phase again and again is carrying its rules through one after the other |
| `Suspensions.ListsEntry` | src/ruleset/phase.c:25-60 | one entry of a phase does the first part of what is left and leaves the rest, to be resumed at the list where it stopped |
| `Suspensions.RulesEntry` | src/ruleset/list.c:30-63 | the same for a list, to be resumed at the rule where it stopped |
| `Suspensions.RuleIff` | src/ruleset/rule.c:46-97 | a rule does what it means if and only if it is entered fairly, whatever flag and action index it finds |
| `Suspensions.StaleFlag` | src/ruleset/rule.c:46-97 | a rule entered with the flag that "skip" leaves does what it means, before the first suspension, if and only if its condition does not have to wait, and after it if and only if its condition asks nothing and both clauses come to the same |
| `Suspensions.StaleIndex` | src/ruleset/rule.c:9-44 | a rule entered after a suspension with the action index of an earlier wait does what it means if and only if the index is zero or it has no action to carry out |
| `Suspensions.StaleRuleIndex` | src/ruleset/list.c:30-63 | a list entered at the rule index that "skip" leaves does what it means if and only if the rules passed over ask nothing and do nothing |
| `Suspensions.ConditionRuns` | src/ruleset/rule.c:46-97 | a rule whose flag does not stand asks its condition to the end, however often that is suspended, and then carries out the clause from the saved index |
| `Pipeline.Unsuspended` | src/ruleset/phase.c:11-61 | a request that nothing suspends gets the meaning of the phase, with rules of any generation and "skip" anywhere |
| `Pipeline.UpdatedStartsOver` | src/ruleset/rule.c:61-97 | a rule that was updated since it was suspended is evaluated all over, whatever was saved |
| `Pipeline.RuleMeans` | src/ruleset/rule.c:46-97 | a rule asks its condition and then carries out the "then" actions if it holds as a Boolean formula and the "else" actions if not; none after an error |
| `Pipeline.ActionsMean` | src/ruleset/rule.c:9-44 | actions are carried out up to and with the first that is not OK, whose result is that of the clause |
| `Pipeline.DisabledIsIdle` | src/ruleset/list.c:11-64 | a disabled rule and a disabled list do nothing |
| `Pipeline.RulesMean` | src/ruleset/list.c:11-64 | rules apply up to and with the first that is not OK; "skip" ends the list and no more |
| `Pipeline.ListsMean` | src/ruleset/phase.c:11-61 | lists apply up to and with the first that is not OK |
| `Pipeline.ActionsRun` | src/ruleset/rule.c:9-44 | the actions of a clause are carried out in order up to the first that is not OK, or up to one that has to wait, whose index is saved with the rest of the clause left |
| `SuspensionExamples.SkipThenWait` | src/ruleset/list.c:47-52 | "skip", and then a condition that waits: it is not asked to the end, and the wrong clause is carried out |
| `SuspensionExamples.WaitThenSkip` | src/ruleset/list.c:47-52 | a wait, and then "skip": the next condition is not asked although it need not wait, and the wrong clause is carried out |
| `SuspensionExamples.SkipFromSecond` | src/ruleset/list.c:47-52 | a wait, and then "skip" from the second rule: the first rule of the next list is passed over |
| `SuspensionExamples.WaitPastFirst` | src/ruleset/rule.c:22-43 | a wait past the first action of a clause: a later rule loses its action |
| `Evaluator.RequestCtx.EvalActions` | src/ruleset/rule.c:9-44 | the action loop computes the specified result and context |
| `Evaluator.RequestCtx.EvalRule` | src/ruleset/rule.c:46-97 | the rule evaluator computes the specified result and context |
| `Evaluator.RequestCtx.EvalRules` | src/ruleset/list.c:11-64 | the list evaluator computes the specified result and context |
| `Evaluator.RequestCtx.EvalPhase` | src/ruleset/phase.c:11-61 | the phase evaluator computes the specified result and context |
| `Evaluator.RequestCtx.Enter` | src/ngx_wafflex.c:171-186 | a deferral turns the checks on for the next entry |
| `Evaluator.RequestCtx.Serve` | src/ngx_wafflex.c:113-186 | entering a request until it does not defer is the specified run, and gets the meaning of the phase if every rule is entered fairly, and only then if leaves and actions can be told apart |
| `RespDrain.CuttingDoesNotMatter` | src/hiredis/read.c:445-525 | however a stream is cut into feeds, the replies, the fault, and what is left to read are those of one feed of the whole |
| `RespDrain.DrainCut` | src/hiredis/read.c:477-525 | reading one piece and then another is reading both |
| `RespDrain.StepGrows` | src/hiredis/read.c:367-414 | a step that can be taken is the same when more bytes follow |
| `RespDrain.Step` | src/hiredis/read.c:367-414 | every step consumes at least one byte and none beyond the end |
| `RespDrain.FinishOK` | src/hiredis/read.c:190-213 | completing items keeps the task stack in order, and a complete reply empties it |
| `RespDrain.ReaderUndoesEncode` | src/hiredis/read.c:215-414 | a reply of any kind is read as it was written, and what follows as if it came first, exactly if its arrays are nested at most eight deep; deeper ones are the fault |
| `RespDrain.ReadsReply` | src/hiredis/read.c:215-414 | the same at any level of the task stack |
| `RespDrain.ReadsNullArray` | src/hiredis/read.c:319-331 | the null array is read as nil at any level but the ninth |
| `RespDrain.ReadsNoArray` | src/hiredis/read.c:319-331 | of the array lengths under zero, -1 is a nil and any other an array without items |
| `RespDrain.ReadsNoString` | src/hiredis/read.c:262-270 | any string length under zero is a nil |
| `RespDrain.ReadsUnknown` | src/hiredis/read.c:371-394 | a reply that begins with any but the five marks is the fault that names the byte |
| `RespDrain.ReadsPlus` | src/hiredis/read.c:148-173 | an integer may have a plus sign |
| `RespDrain.ReadsOddInteger` | src/hiredis/read.c:148-173 | an integer with a byte in it that is no digit is read as -1 |
| `RespDrain.DeepReply` | src/hiredis/read.c:308-313 | an array nested too deep is a fault wherever it is |
| `RespFormat.CommandReadsBack` | src/hiredis/hiredis.c:530-566 | a formatted command, cut into feeds in any way, reads as one array of exactly its arguments, with nothing left over |
| `RespFormat.FormatCommandArgv` | src/hiredis/hiredis.c:530-566 | the buffer holds the command, is as long as was counted, and ends in a zero |
| `RespFormat.FormatSdsCommandArgv` | src/hiredis/hiredis.c:477-519 | the string built is the same command and as long as was counted |
| `RespFormat.TotalLen` | src/hiredis/hiredis.c:538-543 | the length counted beforehand is the length of the command |
| `RespFormat.CountDigits` | src/hiredis/hiredis.c:193-203 | the number of decimal digits |
| `RespFormat.BulkLen` | src/hiredis/hiredis.c:206-208 | the length of one argument as sent |
| `Resp.ReadLongOfDecimal` | src/hiredis/read.c:148-173 | a number in decimal is read as itself |
| `Resp.WireForms` | src/hiredis/hiredis.c:530-566 | the bytes of each kind of reply, an array of strings being how a command is sent |
| `Resp.DecimalForm` | src/hiredis/sds.c:299-328 | a number in decimal has no leading zero, and a minus sign exactly if it is under zero |
| `Resp.NewlineGrows` | src/hiredis/read.c:120-144 | a line end once found stays the first when more bytes follow |
| `RespReader.SeekNewline` | src/hiredis/read.c:120-144 | the nested loops find the first line end, and read no further than the terminating zero |
| `RespReader.ReadLongLong` | src/hiredis/read.c:148-173 | the digit loop computes the number read, or -1 |
| `RespReader.Reader.MoveToNextTask` | src/hiredis/read.c:190-213 | the loop completes all the arrays that end with an item, and its assertions hold |
| `RespReader.Reader.ProcessLineItem` | src/hiredis/read.c:215-247 | a line item is one step of reading |
| `RespReader.Reader.ProcessBulkItem` | src/hiredis/read.c:249-300 | a bulk item is one step, taken only when all of it is there |
| `RespReader.Reader.ProcessMultiBulkItem` | src/hiredis/read.c:302-365 | an array header is one step: an empty array, a nil, or a level more |
| `RespReader.Reader.ProcessItem` | src/hiredis/read.c:367-414 | an item processed brings reading closer to the same outcome and consumes input |
| `RespReader.Reader.Feed` | src/hiredis/read.c:445-475 | bytes join those to be read, unless there was a fault |
| `RespReader.Reader.GetReply` | src/hiredis/read.c:477-525 | the next reply of the stream, none if it is not complete, or the fault; discarding read bytes changes nothing |
| `RespReader.Reader.Discard` | src/hiredis/read.c:511-517 | dropping the bytes already read leaves what is to be read |
| `RespReader.Reader.FeedAndDrain` | src/hiredis/read.c:445-525 | feeding a piece and taking replies is one step of reading in pieces |
| `Async.CallbacksConserved` | src/hiredis/async.c:227-362 | in every run, whatever callbacks call: the k-th accepted command's callback is called once, with the k-th reply that came or at the end with none; the connection is freed once at most, and then no callback is left; the clean-disconnect assertion never fails |
| `Async.AskedIsDone` | src/hiredis/async.c:265-349 | in every run: once a callback that was called has asked for the connection to be freed, it is freed by the end of the event, and exactly once |
| `Async.IssuedAreAccepted` | src/hiredis/async.c:583-648 | the commands a callback issues are accepted in order, all of them if the connection is not closing and else none |
| `Async.CallsFlag` | src/hiredis/async.c:323-362 | within a callback, freeing and disconnecting set their flags and call nobody |
| `Async.NewIsOpen` | src/hiredis/async.c:583-648 | a new connection has called nobody and accepts a command |
| `Async.OutsideIsDone` | src/hiredis/async.c:323-362 | outside callbacks freeing is done at once, disconnecting too if nothing is pending, and a command is queued unless the connection is disconnecting |
| `Async.ReadsOut` | src/hiredis/async.c:411-489 | after replies were processed, a connection that is to disconnect and has nothing pending or to be written is not left open |
| `Async.Unasked` | src/hiredis/async.c:439-464 | a reply that nothing waits for: an error ends the connection, any other is the failed assertion |
| `Async.FailureEnds` | src/hiredis/async.c:516-562 | a failed read or write, or a fault of the protocol, ends the connection |
| `Async.ClosingAcceptsNone` | src/hiredis/async.c:583-589 | once disconnecting or freeing has begun no command is accepted, not even by callbacks during teardown |
| `Async.ProcessConserves` | src/hiredis/async.c:411-489 | processing replies keeps the matching, and uses replies in the order they came |
| `Async.TeardownConserves` | src/hiredis/async.c:275-317 | teardown calls every pending callback without a reply and frees once |
| `Async.FireConserves` | src/hiredis/async.c:265-272 | calling one callback, with all that it calls in turn, keeps the matching |
| `AsyncContext.Context.Command` | src/hiredis/async.c:583-648 | a command is accepted exactly if the connection is not closing |
| `AsyncContext.Context.RunCallback` | src/hiredis/async.c:265-272 | a callback is called, and frees or disconnects that it asks for are put off |
| `AsyncContext.Context.FreeContext` | src/hiredis/async.c:275-317 | the teardown loop ends, though callbacks call back into the connection |
| `AsyncContext.Context.FreeAsync` | src/hiredis/async.c:323-328 | freeing is at once outside callbacks and deferred inside |
| `AsyncContext.Context.DisconnectNow` | src/hiredis/async.c:331-349 | a clean end needs an empty list, an error closes the connection to commands first |
| `AsyncContext.Context.DisconnectAsync` | src/hiredis/async.c:357-362 | disconnecting waits for pending replies and for callbacks |
| `AsyncContext.Context.ProcessCallbacks` | src/hiredis/async.c:411-489 | the reply loop is the specified processing, early ends included; what that does is `Async.CallbacksConserved`, `Async.AskedIsDone` and `Async.ReadsOut` |
| `AsyncContext.Context.HandleRead` | src/hiredis/async.c:516-535 | a readable socket is the specified event |
| `AsyncContext.Context.HandleWrite` | src/hiredis/async.c:537-562 | a writable socket is the specified event |
| `Reaper.RotatedIs` | src/util/reaper.c:255-310 | a rotating tick looks at the first things, each once; reaps the ready ones once each; and leaves the unexamined things followed by the kept ones, in order |
| `Reaper.ScannedIs` | src/util/reaper.c:205-226 | a plain tick reaps the ready among the first things and leaves the others where they were |
| `Reaper.KeptOrRipe` | src/util/reaper.c:255-310 | kept and reaped together are exactly the things looked at |
| `Reaper.ReachBound` | src/util/reaper.c:262-267 | a tick that stops early has met just one more unready thing than allowed |
| `Reaper.ReachesAll` | src/util/reaper.c:262-274 | with a bound of zero everything is looked at |
| `Reaper.UnboundedTick` | src/util/reaper.c:205-310 | with a bound of zero both ticks reap all that is ready and keep the rest in order |
| `Reaper.ReapList.RotatingTick` | src/util/reaper.c:255-310 | the loop on the linked list does what is specified, ends, and leaves links, ends and count consistent; with a bound of zero it reaps all that is ready and keeps the rest |
| `Reaper.ReapList.ReapTick` | src/util/reaper.c:205-226 | the same for the plain tick |
| `Reaper.ReapList.Add` | src/util/reaper.c:120-149 | a ready thing is reaped at once, any other joins the end |
| `Reaper.ReapList.Withdraw` | src/util/reaper.c:153-179 | a thing leaves the list, and its links are cleared |
| `Reaper.ReapList.ReapReadyThing` | src/util/reaper.c:181-203 | a thing leaves the list and is reaped; the assertions on its neighbours hold |
| `Dict.HashTable.Add` | src/hiredis/dict.c:135-154 | an entry is added exactly if its key is new; the table stays a map with used <= size; it doubles exactly if it was full and has four slots at first |
| `Dict.HashTable.Replace` | src/hiredis/dict.c:160-179 | the key has the new value; true exactly if it was new |
| `Dict.HashTable.Delete` | src/hiredis/dict.c:182-210 | the key is gone, true exactly if it was there; no other slot changes |
| `Dict.HashTable.Find` | src/hiredis/dict.c:243-256 | the value of the key, if it has one |
| `Dict.HashTable.Expand` | src/hiredis/dict.c:88-132 | the map and the count stay; the size is the least doubling of the initial one that is enough; refused exactly if there are more entries |
| `Dict.HashTable.KeyIndex` | src/hiredis/dict.c:294-337 | room is made, by doubling a full table and no other, and the slot of a new key returned |
| `Dict.NextPower` | src/hiredis/dict.c:306-315 | the least doubling of the initial size that is enough |
| `DictChains.RehashKeeps` | src/hiredis/dict.c:104-128 | moving all entries to a table of any size keeps every lookup and the number of entries |
| `DictChains.FlatIsMap` | src/hiredis/dict.c:268-286 | going through the slots meets every entry of the map exactly once |
| `Dict.DictIterator.Next` | src/hiredis/dict.c:268-286 | the next of the entries still to come, or none |
| `Dict.Sweep` | src/hiredis/dict.c:278-283 | entries are each returned once though the one returned is deleted meanwhile |
| `SdsQuote.SplitUndoesQuote` | src/hiredis/sds.c:740-923 | splitting the space-joined quotations of any byte strings returns exactly those |
| `SdsWords.WordsSplit` | src/hiredis/sds.c:815-923 | words without quotes and blanks, joined by blanks, are split into themselves |
| `SdsWords.SingleSplits` | src/hiredis/sds.c:867-882 | a string in single quotes, its apostrophes escaped, is split into itself exactly if it does not end in a backslash, and is else an error |
| `SdsWords.QuoteMustEnd` | src/hiredis/sds.c:856-860 | a closing quote that is followed by anything but a blank is an error |
| `SdsWords.QuoteMustClose` | src/hiredis/sds.c:861-863 | and so is a quote that is never closed |
| `SdsWords.EscapeTable` | src/hiredis/sds.c:740-763 | the quotation of each of the 256 bytes |
| `Basics.HexTable` | src/hiredis/sds.c:767-795 | the hexadecimal digits, written in lower case and read in either |
| `SdsWords.BackslashTable` | src/hiredis/sds.c:833-855 | what each byte after a backslash reads as, hexadecimal digits in either case |
| `SdsWords.PlainRepr` | src/hiredis/sds.c:740-763 | a string of visible bytes without quote and backslash is quoted as it is |
| `SdsQuote.ReadsEscaped` | src/hiredis/sds.c:832-866 | inside quotes, the escapes of a string read as that string |
| `SdsQuote.LineIsText` | src/hiredis/sds.c:740-763 | quotations hold no zero byte, whatever the string |
| `SdsQuote.CatRepr` | src/hiredis/sds.c:740-763 | the loop appends the quotation |
| `SdsQuote.OneToken` | src/hiredis/sds.c:825-901 | the loop over one argument, in and out of both kinds of quotes |
| `SdsQuote.SplitArgsLine` | src/hiredis/sds.c:815-923 | the loop over a line, with its error cases |
| `SdsText.SplitThenJoin` | src/hiredis/sds.c:658-705 | joined with the separator, the pieces are the string; none of them contains the separator |
| `SdsText.LeftmostCut` | src/hiredis/sds.c:658-705 | the first cut is at the first separator, and what follows is cut as a string of its own |
| `SdsText.NoCut` | src/hiredis/sds.c:658-705 | a string without a separator is its only piece |
| `SdsText.SplitLen` | src/hiredis/sds.c:658-705 | the loop cuts at the separators found from the left; none without a separator |
| `SdsText.JoinSds` | src/hiredis/sds.c:962-971 | the loop joins the pieces |
| `SdsText.Ll2Str` | src/hiredis/sds.c:299-328 | a signed 64-bit number is written in decimal, in place, within the 21 bytes |
| `SdsText.Ull2Str` | src/hiredis/sds.c:331-357 | the same for an unsigned one |
| `Json.ScanUndoesQuote` | src/ngx_wafflex_nginx_lua_scripts.c:954-1009 | a quoted string, any bytes at all and anywhere in a text, is scanned back byte for byte, to just past its closing quote |
| `JsonSafe.QuotedIsSafe` | src/ngx_wafflex_nginx_lua_scripts.c:995-1009 | a quoted string holds no control byte and none of the other characters to be escaped, quote and backslash apart |
| `JsonSafe.QuotedAsIs` | src/ngx_wafflex_nginx_lua_scripts.c:995-1009 | a string is quoted as it is exactly if none of those characters begins anywhere in it |
| `JsonSafe.SpecialMatches` | src/ngx_wafflex_nginx_lua_scripts.c:995-1009 | each of those characters, given by its number, is matched whole in one of the passes |
| `JsonSafe.MatchIsSpecial` | src/ngx_wafflex_nginx_lua_scripts.c:995-1009 | and nothing else is |
| `JsonSafe.EitherCase` | src/ngx_wafflex_nginx_lua_scripts.c:1323-1345 | an escape by number reads the same with digits of either case |
| `JsonSafe.PairInEitherCase` | src/ngx_wafflex_nginx_lua_scripts.c:1327-1345 | a pair of escaped surrogates is the one character they stand for, digits in either case |
| `JsonSafe.NoNumberNoEscape` | src/ngx_wafflex_nginx_lua_scripts.c:1323-1352 | with a byte among the four that is no digit there is no number, and the letter u is meant |
| `JsonSafe.ShortEscapes` | src/ngx_wafflex_nginx_lua_scripts.c:949-958 | the characters with an escape of their own, written and read |
| `JsonSafe.UnicharIsChar` | src/ngx_wafflex_nginx_lua_scripts.c:1283-1302 | every number up to the last that is no surrogate has a character of UTF-8, which decodes to it |
| `JsonSafe.Utf8Bits` | src/ngx_wafflex_nginx_lua_scripts.c:959-972 | the number decoded from up to three bytes is their payload bits |
| `JsonSafe.Utf8Bits4` | src/ngx_wafflex_nginx_lua_scripts.c:959-972 | and from four |
| `Json.ReadsEscaped` | src/ngx_wafflex_nginx_lua_scripts.c:1313-1352 | every character of UTF-8 that is escaped, surrogate pairs included, is read back over all of its escape |
| `Json.DecodeThenUnichar` | src/ngx_wafflex_nginx_lua_scripts.c:954-972 | the number decoded from a character encodes it again, and is no surrogate |
| `Json.PassKeeps` | src/ngx_wafflex_nginx_lua_scripts.c:995-1007 | a substitution pass changes what is written and not what it means |
| `Json.NoLeadNoMatch` | src/ngx_wafflex_nginx_lua_scripts.c:998-999 | the passes that are skipped would have changed nothing |
| `Json.ScanString` | src/ngx_wafflex_nginx_lua_scripts.c:1305-1364 | the loop by stretches is the reading byte by byte, unterminated strings included |

## Left out

- SlabPool.Pool.FreeBlock: leaves out addresses between the last page and the end of the memory, for which the code reads a descriptor past the last one. The two kinds of address by which it is fooled are `SlabChunks.Unnoticed`, and what it then does is `SlabChunks.Misled`.
- SlabPool.Pool.constructor: starts from one free run, since `ngx_slab_init` of nginx is not part of this model; pages are of 4096 bytes, words of 64 bits, and the smallest chunk is of 8 bytes.
- Slab allocator: the word `slab` of a descriptor is kept as a number and a bitmap, of which the page type says which is read; the walk to a second page of a class list is not there because the first page always has a free chunk; junk filling and logging.
- Slab allocator: builds for nginx before 1.7.2, which do not coalesce.
- IpcChannel.ReadChannel.ReadOne: makes an overrun visible: a packet whose bytes would land outside the buffer, or whose name is longer than the handler's room for it, is reported there, where the code has no such check; `IpcRuns.AlertsArrive` shows that it never comes to that.
- IpcChannel.ReadChannel.ReadAll: stops at a packet it cannot make sense of; how much of the pipe the code then throws away (`ipc_clear_socket_readbuf`) is not modelled, as `IpcRuns.AlertsArrive` shows that it never comes to that.
- IpcChannel.Pipe.WriteIovec: takes a packet whole or finds no room, as `writev` does up to PIPE_BUF bytes; the checks of its result against the packet's length cannot fail for the packets of `IpcPackets.PacketsFit`.
- IPC: the packet is header and body rather than bytes; read buffers are values in a sequence; alerts of a process to itself, channel set-up, process titles and statistics.
- IPC: a sender that dies and another that takes its slot; pids are stable.
- LimiterLeases.LeasesSafe: does not cover forced reaping at shutdown and running out of memory; a response and the evaluation it resumes are one step; a missing table for a limiter counts as "not found", where the Lua code would index nil.
- LimiterLeases.LeasesSafe: says nothing of liveness; `LimiterLeases.ReferenceLeaks` shows that a counter can be kept for ever.
- LimiterRate.RateBound: uses real numbers with the code's truncation; single-precision rounding is not modelled.
- LimiterRate.WithinLimitIff: uses real numbers, like the bound.
- LimiterRate.RateIff: uses real numbers, like the bound.
- LimiterRate.BurstPasses: uses real numbers, like the bound.
- LimiterProcs.LimiterTable.UnsetValue: takes a missing table for a limiter as "not found", where the Lua code would index nil.
- LimiterProcs.Manager.OnReleaseResponse: leaves out the answers to a forced release, which the code ignores.
- Limiter: burst limiters and sync steps, which the evaluator does not use; the counter's `time` is represented by its age.
- Suspensions.RunIff: asks that no two rules share a leaf or an action for the "only if" half (`Suspensions.FairRun` is the other half without it), and for rules never updated (generation 0); a suspended rule of another generation is started over, and its list is entered again at its first rule. One phase of one ruleset.
- SafePhases.AlwaysIff: asks for the same; `SafePhases.SafeRun` is the half without shared ones excluded.
- Evaluator.RequestCtx.EvalRule: leaves out the read reservation and its deferral, as do the evaluators of lists and phases.
- Evaluator.RequestCtx.Serve: serves one phase of one ruleset, of rules never updated.
- Evaluator: a phase without lists trips an assertion in the code when it is resumed; `Evaluator.RequestCtx.EvalPhase` asks that it is not.
- Evaluator: the reader/writer reservation of `src/ruleset/readwrite.c` and updates of rules while requests are suspended; `condition_match_eval_bool`, whose tests are a leaf's answer here.
- RespReader.Reader.GetReply: builds replies as values that join their array when complete, where the code writes children into the array's memory as they are made.
- Redis reader: numbers are unbounded, so overflow of `readLongLong` and of lengths is not modelled; custom reply functions, the shrinking of an empty buffer, running out of memory.
- Redis formatter: printf-style formats and `va_list`.
- Async.CallbacksConserved: covers connections never subscribed and never monitoring; a reply that no command asked for and that is no error ends the run, as the code's assertion would; "unsubscribe", which is then refused, and the handshake of connecting.
- AsyncContext.Context.Command: leaves out the commands that subscribe, unsubscribe and monitor, and so do ProcessCallbacks and FreeContext; the read and write handlers leave out the handshake of connecting, and FreeContext the disconnect callback.
- Reaper: the place-keeping scan (`REAPER_KEEP_PLACE`), timers, and forced flushing; the bound on unready things is the caller's.
- Dict: chains are values, so unlinking an entry rebuilds the chain before it; `h & sizemask` is written as the remainder by the size, a power of two; destructors and copies of keys and values, which only pass through.
- Dict.NextPower: leaves out the cap at the largest long, which no table in memory comes to.
- SdsQuote.SplitArgsLine: takes the C locale's `isprint` and `isspace`.
- SdsText.Ll2Str: the negation of the least 64-bit number, which overflows in C, is exact here.
- Json.ScanString: takes `tonumber` in base 16 to accept hexadecimal digits only, where Lua also accepts blanks, signs and a leading `0x`; the message of an unterminated string.
- JSON numbers, objects and arrays, the ruleset parser, the Redis write scripts, the tracer, connection management, sockets, nginx events and timers, Lua bindings, configuration directives and process spawning: mostly validation or plumbing.
