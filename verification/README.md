# Verified model of libsysve's data paths

libsysve lets a program on a vector engine (VE) use services of its vector host (VH). This project
models its four stateful data paths in Dafny and proves what they promise:

- **Accelerated I/O** (`src/accelerated_io.c`). `read`, `pread`, `readv`, `preadv` and the four
  write calls cut a request into chunks and run them through a software pipeline: VH buffer part,
  asynchronous DMA, VE buffer part, user memory. The pipeline is modelled for any number of slots
  (`BUFF_NPARAS`) and any chunk size that is a multiple of 4. A DMA moves its bytes a few at a time
  at moments nobody controls; the operating system and the DMA engine answer as they like. The
  reference is a plain loop that handles one chunk after the other (`IoSpec.Read`, `IoSpec.Write`).
- **The DMA descriptor ring** (`src/vedma_main.S`, `src/vedma_init.c`). `ve_dma_post`,
  `ve_dma_poll` and `ve_dma_post_wait` are a state machine whose steps are single accesses to shared
  memory, interleaved freely with those of other threads and with the hardware. All theorems are
  about every run of it.
- **The vector memory copy** (`src/libsysve_vec_memcpy.S`) that the pipeline uses.
- **The argument list of VH calls and its marshaller** (`src/libvhcall.c`), and beside it the
  per-thread resource list of `src/accelerated_io.c`: linked lists changed in place.

The layers are connected. The copies of the pipeline are calls of the modelled memory copy.
`IoMachine` records every post and every completed wait of a request's handles; `IoDiscipline` shows
that a request whose calls fit such a record discharges, over whole runs, the discipline on which the
ring's results about routing rest.

## Files

| file | content |
|---|---|
| `Bytes.dfy` | bytes, and laying one run of elements over another |
| `VecMemcpy.dfy` | the vector memory copy |
| `DmaRing.dfy`, `DmaRingInv.dfy`, `DmaRingTheorems.dfy` | the ring, its invariant, and the theorems about runs |
| `DmaRequests.dfy` | what runs do to requests, whoever made them: nothing unseen is overwritten, 0 means started |
| `DmaReuse.dfy`, `DmaRecall.dfy`, `DmaReuseRun.dfy` | polling a handle again: what it does, exactly how long it may be done, and a run in which it goes wrong |
| `DmaInit.dfy` | set-up of the ring, and the wait for one request |
| `Iovec.dfy`, `IoSpec.dfy` | scattering and gathering; chunks and the plain loops |
| `SlotWindow.dfy`, `IoSlots.dfy` | which chunk each slot of the pipeline carries |
| `IoMachine.dfy`, `IoCursor.dfy` | buffers, engine and operating system; the copy loops with their cursor |
| `IoRead.dfy`, `IoWrite.dfy` | the pipelines |
| `IoDiscipline.dfy` | the pipelines are proper clients of the ring |
| `ResourceList.dfy` | the list of per-thread buffers |
| `VhCallSpec.dfy`, `VhCallArgs.dfy` | arguments as values; the linked list, validation and marshalling |

`dafny verify dfyconfig.toml` checks everything.

## What the proofs found

- `ve_dma_init` returns without unlocking when the mapping of the descriptors fails
  (`src/vedma_init.c:78-81`): from then on no call of it returns in this process or its children.
  `DmaInit.HeldIfKept` says exactly when the mutex stays locked.
- A handle must not be polled again for ever after its completion was reported: the poll that finds a
  completion itself does not store it (`src/vedma_main.S:195-205`). A further poll answers with the
  handle's own result, and disturbs nobody, if and only if the result is stored in the handle or fewer
  than 128 requests have been started since (`DmaRecall.OwnAnswerIffInTime`); afterwards it answers
  for the newest request of that slot (`DmaRecall.LateAnswer`) and, if the slot is marked, takes the
  mark away (`DmaReuse.SecondPoll`). Both happen with the first request that is too late: from every
  initial state with two threads and two handles a run of 129 requests leads there, with a handle in
  the slot (`DmaReuseRun.SecondPollStealsFromAHandle`) or a post_wait still waiting
  (`DmaReuseRun.SecondPollStealsFromAPostWait`).
- A read or write whose first system call succeeds and a later one fails returns the bytes moved so
  far and leaves `errno` at 0 (`src/accelerated_io.c:562-571`); `IoSpec.ErrnoAfter` has this.
- A failing DMA makes a read return -1 although whole chunks may have been delivered
  (`IoRead.FailureAfterDelivery`), and makes a write return -1 although the file may have taken a
  prefix of the data. How much is determined by the first failure alone (`IoRead.FirstFaultDecides`,
  `IoWrite.FirstFaultDecides`), never by the interleaving (`ScheduleDoesNotMatter` in both modules).

## Model

| member | source | states |
|---|---|---|
| VecMemcpy.StaysAligned | src/libsysve_vec_memcpy.S:43-45 | whole elements keep an aligned address aligned, so every vector access is aligned for its path |
| VecMemcpy.Widths | src/libsysve_vec_memcpy.S:35-45 | the address arithmetic is that of the element width |
| VecMemcpy.NextByte | src/libsysve_vec_memcpy.S:27-34 | the prologue steps through the remainders up to the element boundary |
| VecMemcpy.VectorMove | src/libsysve_vec_memcpy.S:40-46 | a vector of 1 to MVL aligned elements extends the copied prefix by all its bytes |
| VecMemcpy.Prologue | src/libsysve_vec_memcpy.S:27-34 | both addresses become aligned together and exactly the bytes passed have been copied |
| VecMemcpy.FullVectors | src/libsysve_vec_memcpy.S:35-46 | less than one full vector is left, all before it is copied, alignment is kept |
| VecMemcpy.Remainder | src/libsysve_vec_memcpy.S:47-67 | a shorter vector and a byte tail finish the copy |
| VecMemcpy.TailBytes | src/libsysve_vec_memcpy.S:60-67 | the byte loop copies what is left and ends |
| VecMemcpy.VectorPath | src/libsysve_vec_memcpy.S:35-113 | the 8-byte and the 4-byte path copy all `n` bytes from any equally misaligned pair of addresses |
| VecMemcpy.Scalar | src/libsysve_vec_memcpy.S:114-129 | so does the path without vectors |
| VecMemcpy.VecMemcpy | src/libsysve_vec_memcpy.S:11-134 | for every size and alignment of non-overlapping regions, exactly the `n` bytes at `dest` become those at `src` and nothing else changes |
| DmaRingInv.InvApply | src/vedma_main.S:49-333 | every step of every thread and of the hardware keeps the ring's invariant |
| DmaRingTheorems.RunInv | src/vedma_main.S:49-333 | the invariant holds in every state of every run from initialisation |
| DmaRingTheorems.SlotSafety | src/vedma_main.S:83-111 | a descriptor is changed by a thread only while its slot is unmarked and only after the completion of its previous request was seen, although post_wait clears its mark without the lock |
| DmaRingTheorems.SeenIsDone | src/vedma_main.S:124-127 | a completion is seen only after the hardware reported it |
| DmaRequests.HardwareSeesTheRequest | src/vedma_main.S:88-98 | from its start until the hardware completes it, a request's descriptor holds the destination, the source, and a third word whose low 32 bits are the size and whose high half is 8, the SYNC flag |
| DmaRingTheorems.RingOrder | src/vedma_main.S:108-111 | the k-th request started, from 0, is started at slot k mod 128, and is the one that its post or post_wait was called with |
| DmaRequests.NeverOverwritten | src/vedma_main.S:83-111 | in every state of every run each request whose completion nobody has seen, of a post or a post_wait, is in the descriptor where it was started |
| DmaRequests.DistinctSlots | src/vedma_main.S:83-111 | two requests whose completions nobody has seen occupy different slots, and both are among the last 128 started |
| DmaRequests.StartedGrows | src/vedma_main.S:97-98 | what was asked for is never revised: requests started stay as they were |
| DmaRequests.ZeroMeansStarted | src/vedma_main.S:49-143 | a post returns 0 if and only if it has started its request, once, with the words passed; any other value means it has started nothing |
| DmaRingTheorems.DistinctHandles | src/vedma_main.S:100-111 | two outstanding handles without a result name different slots |
| DmaRingTheorems.PostGivesUpOnlyWhenFull | src/vedma_main.S:83-86 | post answers -EAGAIN only when the request posted 128 requests ago still occupies its slot |
| DmaRingTheorems.PollReportsItsOwn | src/vedma_main.S:178-205 | a poll with a result returns the exception code of exactly the request posted with its handle, whoever harvested it, and no call reported it before |
| DmaRingTheorems.PollGivesUpIffRunning | src/vedma_main.S:195-223 | a poll that looks at its descriptor answers -EAGAIN if and only if the hardware has not completed the request posted with its handle, which is running there |
| DmaRingTheorems.PostWaitReportsItsOwn | src/vedma_main.S:303-316 | a post_wait returns the code of the request it started itself |
| DmaRequests.WaitServesItsOwn | src/vedma_main.S:278-333 | a post_wait that returns has started the very request it was called with, and returns the code the hardware gave to it |
| DmaRingTheorems.ReportsAreFinal | src/vedma_main.S:129-136 | what has been reported is the hardware's answer and never changes |
| DmaRingTheorems.OutstandingIsRouted | src/vedma_main.S:123-138 | an outstanding handle either is what its slot points to, with its own request in the descriptor, or holds its own code |
| DmaRingTheorems.RestIsForgotten | src/vedma_main.S:200-202 | no slot points to a handle whose result was reported, so its memory may be reused |
| DmaRecall.RunRecalls | src/vedma_main.S:100-205 | in every state of every run, a handle that is not being posted holds the code of the request last posted with it, or the slot where that was started |
| DmaRecall.OwnAnswerIffInTime | src/vedma_main.S:178-205 | for every state of every run and every handle at rest that a request was posted with: another poll finds the result of the request last posted with it if and only if the result is stored or fewer than 128 requests have been started since; then it returns exactly that code and changes no mark |
| DmaRecall.LateAnswer | src/vedma_main.S:183-205 | after that it looks at a request at least 128 younger, the newest of the slot, and answers with its code if it is complete and with -EAGAIN if not |
| DmaRecall.OutstandingIsInTime | src/vedma_main.S:83-136 | as long as a completion has not been reported it is never too late |
| DmaReuse.ProperIffUnreported | src/vedma_main.S:178-205 | no request is reported twice: a poll that answers with a result answers with its handle's own code, returned by no call before, and unmarks nobody else's slot, if and only if the completion of the handle was not reported before |
| DmaReuse.SecondPoll | src/vedma_main.S:195-205 | a poll of a handle at rest that looks into its slot and finds it complete returns the code of the request there; if the slot is marked, that is the request of the handle or of the post_wait that the mark leads to, and the mark is taken away |
| DmaReuseRun.SecondPollStealsFromAHandle | src/vedma_main.S:195-205 | from every initial state with two threads and two handles a run leads to a state, with the first request that is too late, in which a second poll of handle 0 returns handle 1's code and unmarks its slot |
| DmaReuseRun.SecondPollStealsFromAPostWait | src/vedma_main.S:195-205 | and a run to a state in which it returns the code of a post_wait that still waits, and unmarks its slot |
| DmaReuseRun.SomeInitialState | src/vedma_init.c:82-86 | there is such an initial state |
| DmaRingTheorems.SpinHelped | src/vedma_main.S:272-275 | while a post_wait spins under the lock, some step that needs no lock is enabled and lowers a measure |
| DmaRingTheorems.SpinNeverWorse | src/vedma_main.S:272-275 | no step of anybody raises that measure or disturbs the spinning thread |
| DmaRingTheorems.SpinEnds | src/vedma_main.S:318-322 | a holder of the lock that does not spin moves on at its next step |
| DmaRingTheorems.SpinReleased | src/vedma_main.S:272-275 | from any state in which a thread spins with the lock held, at most three actions that need no lock bring it to a step that moves on |
| DmaRingTheorems.DeadlockFree | src/vedma_main.S:253-333 | while any thread is inside a call, some step changes the state |
| DmaInit.Through | src/vedma_init.c:64-95 | a call succeeds if and only if the mutex is free and can be locked, the device is ready or the mapping works, and the mutex is unlocked; else it hangs, or returns the code of the mapping or -1; the mutex stays locked exactly if it was or if this call keeps it |
| DmaInit.HeldIfKept | src/vedma_init.c:78-94 | over every run of calls and forks the mutex is locked if and only if some call tried the mapping and failed, or failed to unlock |
| DmaInit.StuckForEver | src/vedma_init.c:78-81 | after such a call every later call waits for ever |
| DmaInit.NeverStuck | src/vedma_init.c:64-95 | without one no call does |
| DmaInit.Driver.Init | src/vedma_init.c:64-95 | the first call that gets through empties the ring (index 0, lock free, 128 free slots); any other leaves it untouched |
| DmaInit.ChildStartsOver | src/vedma_init.c:64-101 | after any run of calls and forks, a fork child inherits the mutex as it was, and its first call succeeds if and only if it gets the mutex, maps the descriptors anew and unlocks |
| DmaInit.Driver.ClearSkipFlag | src/vedma_init.c:97-101 | the handler of the fork child is the fork event of the gate, and leaves mutex and ring as they were |
| DmaInit.RingStarts | src/vedma_init.c:82-86 | what is left is an initial state of the ring protocol |
| DmaInit.Wait | src/vedma_init.c:111-121 | the wait returns the first answer that is not -EAGAIN and polls not once more |
| Iovec.ScatterMeaning | src/accelerated_io.c:762-789 | scattering puts byte q of the stream at the address of stream position q and changes nothing else |
| Iovec.ScatterAppend | src/accelerated_io.c:762-789 | scattering in pieces is scattering the whole |
| Iovec.ScatterGather | src/accelerated_io.c:1273-1305 | gathering from disjoint buffers gives back what was scattered over them |
| Iovec.GatherRun | src/accelerated_io.c:1273-1305 | a slice of the gathered stream inside one buffer is a block of memory |
| Iovec.TotalIsSum | src/accelerated_io.c:725-728 | the total is the sum of the lengths |
| Iovec.AddrInside | src/accelerated_io.c:762-789 | stream position `Prefix(n) + t` is byte t of buffer n |
| IoCursor.TotalSize | src/accelerated_io.c:725-728 | the sum of the buffer lengths |
| IoCursor.CursorMoves | src/accelerated_io.c:770-788 | the cursor keeps standing at the number of bytes moved, also across buffer ends and empty buffers |
| IoCursor.ScatterPart | src/accelerated_io.c:762-789 | the copy loop lays the chunk over the buffers from the cursor on, leaves the cursor at the next byte, and always ends by its break |
| IoCursor.GatherPart | src/accelerated_io.c:1273-1305 | the gathering loop fetches exactly the next slice of the concatenated buffers, with nothing left |
| SlotWindow.SlotIsRemainder | src/accelerated_io.c:532 | slot numbers are remainders |
| SlotWindow.SlotsDiffer | src/accelerated_io.c:532-533 | chunks less than N apart never share a slot |
| SlotWindow.Pop | src/accelerated_io.c:533-554 | taking out the oldest chunk leaves consecutive chunk numbers in their slots |
| SlotWindow.Push | src/accelerated_io.c:575-588 | so does putting in the next |
| SlotWindow.DrainOrder | src/accelerated_io.c:594-603 | rotating from the oldest slot visits the chunks in flight in strictly increasing order, for any depth |
| SlotWindow.FindMinPosted | src/accelerated_io.c:451-466 | the slot of the oldest chunk in flight, slot 0 if there is none |
| IoSpec.ChunksIsQuotient | src/accelerated_io.c:518 | the number of chunks is the rounded-up quotient |
| IoSpec.OffsetIsProduct | src/accelerated_io.c:527-529 | chunk i begins at i times the chunk size |
| IoSpec.ChunkSize | src/accelerated_io.c:527-529 | chunks are not empty, fill the request exactly, and only the last may be short |
| IoSpec.ReadContiguous | src/accelerated_io.c:560-591 | the calls of the plain read follow one another through the file and stop at the first short, empty or failed answer |
| IoSpec.ReadBound | src/accelerated_io.c:560-591 | a read never yields more than was asked for |
| IoSpec.ReadMoved | src/accelerated_io.c:560-591 | what the calls moved is the data obtained |
| IoSpec.ReadAnswers | src/accelerated_io.c:526-591 | call k of a read asks for chunk k and returns the system's answer to it, the data are the fronts of these answers, and the read ends with the last chunk or with a call that brought less than it asked for |
| IoSpec.ReadOfFile | src/accelerated_io.c:517-630 | the plain loop over a regular file yields exactly the requested range |
| IoSpec.WriteContiguous | src/accelerated_io.c:1009-1036 | the calls of the plain write follow one another and nothing is written after a short, empty or failed answer |
| IoSpec.WriteMoved | src/accelerated_io.c:1009-1036 | what the calls moved is what the file accepted |
| IoSpec.WriteAnswers | src/accelerated_io.c:1009-1036 | the same for the calls of a write; its whole chunks are those taken whole |
| IoSpec.WriteAll | src/accelerated_io.c:976-1107 | every byte is accepted if and only if every chunk is accepted whole |
| IoMachine.DmaSizeStaysInside | src/accelerated_io.c:99 | the rounded size is the next multiple of 4 that covers the data, and never leaves the buffer part |
| IoMachine.PartBlit | src/accelerated_io.c:302-309 | writing inside one part of a buffer changes no other part |
| IoMachine.Machine.Interfere | src/accelerated_io.c:575-577 | whatever DMAs in flight do, parts that are not in flight keep their bytes |
| IoMachine.Machine.Post | src/vedma_main.S:49-143 | a slot's part must be idle; the request remembers what its source held; a full ring changes nothing |
| IoMachine.Machine.Wait | src/vedma_init.c:111-121 | whenever the bytes moved, a completion without exception means the destination holds what was posted, and the handle is at rest |
| IoMachine.Machine.CopyOut | src/accelerated_io.c:549-551 | user memory receives the bytes of an idle part, while other DMAs go on |
| IoMachine.Machine.CopyIn | src/accelerated_io.c:1042-1043 | an idle part receives the bytes of user memory |
| IoMachine.Machine.SysRead | src/accelerated_io.c:560-561 | the answer lands in an idle part of the VH buffer |
| IoMachine.Machine.SysWrite | src/accelerated_io.c:1009-1011 | the file takes bytes from an idle part of the VH buffer |
| IoMachine.ReportedOnce | src/accelerated_io.c:533-603 | every successful post is waited for exactly once, but for one that may be outstanding |
| IoSlots.NothingInFlight | src/accelerated_io.c:594-626 | when the window of chunks in flight is empty no slot carries anything |
| IoSlots.OneFirstFault | src/accelerated_io.c:533-585 | at most one request is the first failure that a pipeline notices |
| IoSlots.SomeFirstFault | src/accelerated_io.c:533-585 | there is one if and only if some request fails |
| IoMachine.Machine.AllReported | src/accelerated_io.c:594-626 | at return, in the request's own record, every post has been waited for and no handle is open |
| IoDiscipline.NextCallIsAllowed | src/vedma_main.S:195-205 | whatever a request does next with its handles, the ring's discipline allows it |
| IoDiscipline.DisciplineIsKept | src/vedma_main.S:49-205 | over whole runs: if one thread alone uses some handles and its calls fit a disciplined record, with any number of polls that answer -EAGAIN, then whatever other threads and the hardware do, every call is one the ring allows |
| IoDiscipline.NoSlotKnowsTheHandles | src/vedma_main.S:100-202 | in such a run, whenever the thread is outside the library and its record has a handle closed, as at the request's return, no slot of the ring points to that handle |
| IoDiscipline.ReturnIsMirrored | src/vedma_main.S:100-114 | after the call returns, the ring's and the request's view of the handle agree again |
| IoRead.ReadJob.Reuse | src/accelerated_io.c:533-554 | before a slot is used again its chunk is collected in order; an exception ends the loop |
| IoRead.ReadJob.Issue | src/accelerated_io.c:560-591 | one system call and one post, exactly as the plain loop would call, or the loop ends |
| IoRead.ReadJob.MainLoop | src/accelerated_io.c:519-592 | at every turn the calls made, the chunks in flight and the bytes delivered are those of a prefix of the plain loop |
| IoRead.ReadJob.Drain | src/accelerated_io.c:594-624 | whatever is in flight is waited for, oldest first, and delivered unless data was lost |
| IoRead.ReadJob.Execute | src/accelerated_io.c:517-630 | the pipelined read refines the plain loop, whatever the schedule, and leaves nothing in flight |
| IoRead.ReadPread | src/accelerated_io.c:479-631 | `read` and `pread`: refinement of the plain loop, with the unprepared, empty and null cases; on every way out the thread's buffer flag is as it was, free again after a prepared request |
| IoRead.ReadvPreadv | src/accelerated_io.c:674-893 | `readv` and `preadv`: the same over scattered buffers, the flag included |
| IoRead.NothingToRead | src/accelerated_io.c:725-732 | buffers that add up to nothing cause no system call: result 0, nothing changed |
| IoRead.ResultIsDelivered | src/accelerated_io.c:549-630 | a result that is not -1 is the number of bytes moved, it is the length of the data the plain loop obtains, and exactly these bytes lie at the front of the buffers |
| IoRead.TellsTheCaller | src/accelerated_io.c:560-630 | without DMA failures -1 is returned exactly if the first system call fails, with its error code in errno, one call made and memory untouched; after a later failure errno is 0, after none as it was |
| IoRead.FlatRead | src/accelerated_io.c:549-630 | for one buffer, what lies at its front is a prefix of the data the plain loop obtains, all of it unless the call fails, and no byte behind it ever changes |
| IoRead.FirstFaultDecides | src/accelerated_io.c:533-624 | an exception of chunk f: -1 and EIO, the chunks before f delivered, and as many calls made as before its slot was needed again, or all; a refused post of chunk f: the calls up to f made, and the chunks delivered that had to be collected before |
| IoRead.ScheduleDoesNotMatter | src/accelerated_io.c:517-630 | memory, result, errno and calls are the same for every interleaving of DMAs, copies and waits, failures included |
| IoRead.FailureAfterDelivery | src/accelerated_io.c:594-624 | an exception of the second chunk makes the call return -1 with the first chunk in the user's buffers |
| IoRead.ReadsTheFile | src/accelerated_io.c:517-630 | without DMA failures a read of a regular file delivers exactly the requested range |
| IoWrite.WriteJob.Flush | src/accelerated_io.c:989-1036 | the oldest chunk is waited for and written next, unless it is too late |
| IoWrite.WriteJob.Enqueue | src/accelerated_io.c:1042-1058 | the next slice of the user's data is copied and posted |
| IoWrite.WriteJob.MainLoop | src/accelerated_io.c:978-1059 | at every turn the file holds a prefix of the user's data, as long as the calls say |
| IoWrite.WriteJob.Drain | src/accelerated_io.c:1061-1105 | what is in flight is waited for in order and written until the first failure |
| IoWrite.WriteJob.Execute | src/accelerated_io.c:976-1111 | the pipelined write refines the plain loop and leaves nothing in flight |
| IoWrite.WritePwrite | src/accelerated_io.c:937-1113 | `write` and `pwrite`: prefix-exact refinement, with the unprepared, empty and null cases, and the buffer flag as it was on every way out |
| IoWrite.WritevPwritev | src/accelerated_io.c:1155-1375 | `writev` and `pwritev`: the same for the concatenated buffers |
| IoWrite.ResultIsAccepted | src/accelerated_io.c:1009-1036 | a result r that is not -1 means exactly the first r bytes were accepted; the calls are contiguous |
| IoWrite.TellsTheCaller | src/accelerated_io.c:1009-1111 | without DMA failures -1 is returned exactly if the first system call fails, with its error code in errno, one call made and nothing in the file; otherwise the result is the number of bytes in the file, and errno is 0 after a later failure and as it was after none |
| IoWrite.FirstFaultDecides | src/accelerated_io.c:989-1105 | an exception of chunk f: -1 and EIO, and nothing from f on written; a refused post of chunk f: nothing written that was still in flight; the file has what the calls made so far moved |
| IoWrite.ScheduleDoesNotMatter | src/accelerated_io.c:976-1111 | file, result, errno and calls are the same for every interleaving of DMAs, copies and waits, failures included |
| IoWrite.WritesItAll | src/accelerated_io.c:976-1111 | a willing file gets the whole of the user's data |
| IoWrite.NothingToWrite | src/accelerated_io.c:1207-1214 | buffers that add up to nothing cause no system call |
| ResourceList.ApplySound | src/accelerated_io.c:278-298 | no resource is linked twice, released twice, or linked after its release |
| ResourceList.EachReleasedOnce | src/accelerated_io.c:278-409 | over every run, the resources brought in are exactly those still linked and those released, each once |
| ResourceList.MappingsFollow | src/accelerated_io.c:399-409 | outside a fork child every release removes the DMA mapping too |
| ResourceList.ChildOwnsNothing | src/accelerated_io.c:348-363 | the fork child has released all it inherited, once each, without touching mappings, and its list is empty |
| ResourceList.Registry.Insert | src/accelerated_io.c:287-295 | in-place insertion at the head keeps both pointer chains |
| ResourceList.Registry.Depart | src/accelerated_io.c:372-391 | a thread's resource is unlinked before it is released |
| ResourceList.Registry.ChildReset | src/accelerated_io.c:348-363 | the teardown releases every resource once and looks at none that is released |
| ResourceList.Thread.Prepare | src/accelerated_io.c:224-325 | at most one request of a thread has its buffer; a busy buffer or a failed set-up of the buffers sends this request the ordinary way, any other failure is for good; who is refused leaves the flag as it was; a resource that cannot be recorded is released without ever being linked |
| ResourceList.Thread.Exit | src/accelerated_io.c:372-391 | a thread that exits leaves with its own resource, if it has one, and with no other |
| ResourceList.Thread.AtForkChild | src/accelerated_io.c:348-363 | the child owns nothing and its flag is free, whatever was under way: its next request is prepared if and only if a new set-up succeeds |
| VhCallSpec.SetIsMapUpdate | src/libvhcall.c:194-223 | a set is a map update that overlays only the given value bytes and touches no other argument |
| VhCallSpec.SetStores | src/libvhcall.c:213-219 | after a set the named argument has the class, intent, size and value bytes of the call, behind them the bytes that were there or zeros, and all other arguments are as they were |
| VhCallSpec.RunRefinesMap | src/libvhcall.c:147-223 | after any run of sets and clears, also with failing allocations, the list is sorted and stands for the map |
| VhCallSpec.Canonical | src/libvhcall.c:147-179 | a sorted list is determined by its map |
| VhCallSpec.OrderIndependence | src/libvhcall.c:147-179 | any two orders of successful sets of distinct arguments give the same list |
| VhCallSpec.CompletedFill | src/libvhcall.c:522-532 | filling a gap extends the completed prefix by a zero and leaves the rest as supplied |
| VhCallSpec.NothingBehind | src/libvhcall.c:515-532 | a completed list is dense and no argument was out of range |
| VhCallSpec.GapsAreZeros | src/libvhcall.c:519-532 | number i of a completed list is the argument supplied under it, or an 8-byte integer zero for input if there is none |
| VhCallSpec.CompletedKeeps | src/libvhcall.c:515-532 | completing never loses or alters an argument |
| VhCallSpec.MessageIsRecords | src/libvhcall.c:558-573 | the message is the records of the arguments in order, a double complex as two doubles, real part first |
| VhCallSpec.RealPartFirst | src/libvhcall.c:558-573 | a double complex becomes two double records for input, the first with the first eight value bytes, the second with the other eight; any other argument is its own record |
| VhCallSpec.RecordsInPlace | src/libvhcall.c:558-573 | the records of argument k are in the message right behind those of the arguments before it |
| VhCallSpec.MessageSize | src/libvhcall.c:543-547 | its length is the size the first pass adds up |
| VhCallSpec.JunkDoesNotMatter | src/libvhcall.c:558-568 | the uninitialised second word of split records changes nothing a receiver looks at |
| VhCallArgs.Args.Append | src/libvhcall.c:147-179 | finds the node of a number or inserts one in order, in place; null only if memory is needed and there is none |
| VhCallArgs.Args.Set | src/libvhcall.c:194-223 | refuses exactly negative numbers and bad intents; a successful set has stored the value, any other leaves the list alone |
| VhCallArgs.Args.Clear | src/libvhcall.c:459-471 | frees every node but the sentinel once and reads none after it was freed |
| VhCallArgs.Args.Visit | src/libvhcall.c:516-541 | one step of the validation: the next number is there, is filled in, or the call is refused with the list unchanged |
| VhCallArgs.Args.Check | src/libvhcall.c:513-548 | the validation ends although it inserts into the list it walks; success means a dense list, or a gap-free one if no number was declared, and the exact byte count |
| VhCallArgs.Args.Marshal | src/libvhcall.c:558-574 | the second pass writes exactly the bytes that the first counted, and these are the records |
| VhCallArgs.Args.Compose | src/libvhcall.c:550-574 | after the rewind the pointer is the start of the allocation |
| VhCallArgs.Args.Invoke | src/libvhcall.c:501-581 | what is sent is the message of the completed arguments 0, 1, ...; if the list can grow, success is exactly that the arguments fit and that a buffer can be had if anything is sent; refusals lose no argument |

## Left out

- Memory fences, instruction encodings and the `fencem` bits: memory is sequentially consistent.
- `ve_dma_read_ctrl_reg`, and the assembly's computation of descriptor addresses from the index.
- The system calls behind the single-call wrappers in the other files of `src/`, and `src/libveaio.c`.
- Environment variables, hook installation, signal masks and thread cancellation; `direct` stands for the ordinary system call that is made when a request is not accelerated.
- The flag bits of VH buffer addresses, the second-call flag among them: VH addresses are slot numbers.
- The choice of the system call number (`read` or `pread64`): an offset is always passed.
- Integer widths: sizes, chunk numbers and argument numbers are mathematical integers, and lengths are not negative.
- IoRead.ReadJob: read and readv (and write and writev) are one pipeline with a flat and a vectored copy, as the C code repeats it; read and write begin with an empty record of calls, one machine per request.
- IoMachine.Machine: answers of the operating system and of the engine are arbitrary functions of the call number; a DMA that is going to report an exception delivers arbitrary bytes.
- IoMachine.Machine.Wait: that a DMA completes after finitely many polls is assumed.
- VecMemcpy.VectorPath: the 8-byte and the 4-byte path share one body with the element width as a parameter.
- DmaInit.Wait: requires that some poll answers; DmaRingTheorems.PollGivesUpIffRunning says which does.
- DmaRecall.OwnAnswerIffInTime: the poll begins with the lock free and is not interrupted; for handles whose completion was not reported, DmaRingTheorems.PollReportsItsOwn covers every interleaving.
- DmaReuse.SecondPoll: so does the second poll here; a run that goes on after it is not part of this model.
- VhCallArgs.Args: a null argument object is not modelled; the layout of a record is an arbitrary function with results of one size, and a zeroed object is taken not to be of the double complex class.
- The typed setters of `src/libvhcall.c` beyond the one they all call; floating-point values are bytes.
- The list mutex of the resources: every operation on the list is one step.
- ResourceList.Thread.Prepare: a buffer set-up that fails frees memory that nothing else has seen; that `free` is not recorded.
