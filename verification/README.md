# libusby: a verified model

libusby gives programs access to USB devices, on Windows through the libusb0 driver and on Linux through
usbfs. This project models its most intricate parts in Dafny and proves what they are there for. Modules
are listed with the source they model.

**Asynchronous transfers on Windows** (`src/os/libusb0_win32.c:386-652`). Any number of threads submit, cancel and
wait for transfers or run the event loop; at any time at most one of them, the holder of the auto-reset event
`hReaperLock`, reaps the kernel's completions for all.

- `TransferProtocol` is a step system. A thread has a program counter; every access to memory or to an event that
  another thread could observe is a step of its own, so that the reaper's search outside the mutex interleaves with
  every single pointer write of a submission. The kernel completes any pending operation at any moment with any
  outcome. Callbacks run with the mutex released and may submit, resubmit and cancel. Stopping and resetting the
  event loop are steps that may occur at any time.
- `TransferMemory` and `TransferInvariant` hold the inductive invariant, `TransferTheorems` what it means in every
  reachable state, `TransferProgress` progress, boundedness of reaping, and what a returning wait has seen;
  `TransferCounting` counts submissions, unlinks and callbacks in the steps of a run, and `TransferRuns` reads from the
  steps what became of every call and what every callback has found.
- `InFlightList` is the doubly linked list on the heap, whose methods do to the pointers what the steps do;
  `HandleList` the array of wait handles with the amortised cost of its reallocations, and `HandleCost` that cost over
  the runs of the step system.

**Descriptors** (`src/libusby.c:307-335, 519-730`, `src/os/linux_usbfs.c:354-401, 565-592`).

- `ConfigGrammar` has the parser as a function and, independently, the grammar of sections 9.6.3, 9.6.5 and 9.6.6 of
  the USB 2.0 specification as a predicate on lists of descriptors. `ConfigTheorems` shows that they agree, that the
  tree is the one the grammar describes, and that printing and parsing gives a tree back; `ConfigRoundTrip` that this
  holds all the way from a device or a device file.
- `CHeap` is an allocator that may deny any call. `ConfigParser` is the parser with its allocations and the function
  that frees a tree; `ConfigSearch` fetches a configuration, header first, and searches one by its value.
- `DescriptorRequests` is what a short answer leaves in a buffer, and the request for the device descriptor.
- `DescriptorCache` is the flat cache of a Linux device: built from the device file, with short reads and denied
  reallocations, and searched by walking the lengths embedded in it.

**Devices** (`src/libusby.c:8-51, 191-326` and both backends' `usbyb_get_device_list`).

- `DeviceNodes` is the circular intrusive list, `DeviceArray` the growing NULL-terminated array, `DeviceRegistry` the
  reference counts, `DeviceLists` and `DeviceListsLinux` the two enumerations, `LinuxEnumeration` the one on Linux from the
  device files themselves, with the caches, `DeviceOpening` open, close and
  opening by vendor and product id, `DeviceClient` whole runs of a program that does all of this in any order, with devices that it
  names by a list entry, a reference of its own or an open handle.

**String descriptors** (`src/libusby.c:414-517`). `Utf8` is the encoder with a decoder beside it, `StringDescriptor`
the UTF-16LE to UTF-8 loop as it is written, for any text and any buffer.

## Assumptions

Of the callers: a transfer is submitted only when it is not in flight and no other thread is submitting it; it is
not freed while in flight; a callback does not itself wait for the reaper; reference counts and devices are used
by one thread at a time, because the counts are not updated atomically; a device occurs once in a scan.

Of the environment: sequentially consistent memory; WaitForMultipleObjects returns the lowest signalled index and
takes only that object; in the step system, the handle array of the reaper can be allocated (the test at
`src/os/libusb0_win32.c:572` compares an unsigned value with zero and never holds, and neither can the one at line 592, so
that a denied allocation is not noticed; `InFlightList.Context.Snapshot` says when that does harm); the limit of 64
objects to a wait is not modelled; little-endian host; of an answer no more bytes arrive than were asked for.

## What the code does differently from what one expects

- `encode_utf8` (`src/libusby.c:421-448`) compares with `<` where `<=` is meant: 0x7F, 0x7FF and 0xFFFF take one byte
  more than section 3 of RFC 3629 allows. `ShortestExceptThree` shows that these are the only three.
- The value of a surrogate pair lacks the 0x10000 of section 2.2 of RFC 2781 (`src/libusby.c:485`): what is written for
  any pair decodes to 0x10000 less than it should (`PairIsNeverRight`).
- A high surrogate adds the length of the character before it a second time (`src/libusby.c:507`): the returned length
  is that of the bytes written if and only if no pair follows anything (`LengthIsWritten`), and `PairRepeatsLength` says
  by how much a pair makes it too large; with a letter and a pair it is three for two bytes (`PairAfterLetter`).
- The loop at `src/libusby.c:476` compares the buffer's length with the length of one character, not of all. `Outcome`
  is the result for any text and any buffer: the code writes past the end exactly if some character starts where the
  buffer has ended, and the first one did not fill it; when the first one fills it, whatever follows is accepted, well
  paired or not. Without surrogates the first is the case exactly for the buffers that hold more than the first
  character but no more than all characters without the last (`TooShort`); three letters need more than two bytes
  (`LettersWithoutRoom`).
- An endpoint descriptor before any interface descriptor, or beyond the announced number, is stored outside the
  array (`src/libusby.c:591`). This is an outcome of its own here, `Overrun`; `OverrunExactly` says which inputs have it,
  and `EndpointBeforeInterface` and `EndpointBeyondAnnounced` are two.
- A configuration header shorter than four bytes is not detected (`src/libusby.c:625-629`): the second request asks for
  the length that the device announced if and only if the first answer has at least four bytes (`LengthIsAnnounced`), and
  otherwise for one that depends on what the buffer held before (`StaleLengths`).
- Nor is a device descriptor shorter than 18 bytes (`src/libusby.c:315-319`): what is cached and returned is the device's
  own if and only if the answer has all 18 (`DescriptorIsAnswered`), and whether it is accepted depends on the answer
  alone if and only if that is not empty (`AcceptedByAnswer`). With a one-byte answer the ids come from the buffer
  (`StaleIds`), and `libusby_open_device_with_vid_pid` compares them.
- On Linux, an allocation denied for a new device ends the enumeration, which then reports success with a shorter
  list (`src/os/linux_usbfs.c:385-389, 403-408, 421-422`). The list is cut short exactly by the first entry for which
  `DeviceListsLinux.Stops` holds, if none before it fails; `DeniedDeviceHidesTheNext` is an example.
- The reaper does not notice that its handle array could not grow (`src/os/libusb0_win32.c:571-572`), and stores outside
  the old one exactly if that is too small (`InFlightList.Context.Snapshot`).

## Model

| member | source | states |
|---|---|---|
| TransferProtocol.FirstSignalled | src/os/libusb0_win32.c:591-591 | a wait for any of several objects returns the lowest signalled index: that object is signalled and none before it is; the length of the array when it has to block |
| TransferMemory.FillHandlesOk | src/os/libusb0_win32.c:578-586 | the snapshot keeps the invariant: afterwards every transfer in flight is covered by the handle array |
| TransferMemory.WokenOk | src/os/libusb0_win32.c:591-601 | a wait that returns a transfer's event has found a transfer in flight that the kernel is done with |
| TransferMemory.TestedOk | src/os/libusb0_win32.c:603-609 | the search never runs off the list: at each node the count is not exhausted, the pointer is not null, and the node tested is the wanted one or has a successor |
| TransferMemory.FindNextOk | src/os/libusb0_win32.c:603-603 | advancing along the next pointer, outside the mutex, reaches the next transfer in submission order |
| TransferMemory.UnlinkLinksOk | src/os/libusb0_win32.c:472-484 | the pointer writes of a reap leave a list that represents the sequence without the transfer, from any position |
| TransferMemory.UnlinkOk | src/os/libusb0_win32.c:472-486 | the critical section of a reap keeps the whole memory invariant, the cover of the handle array included |
| TransferMemory.IssueIoOk | src/os/libusb0_win32.c:407-414 | an accepted submission keeps the invariant, whether it is pending or already complete |
| TransferMemory.CountTransferOk | src/os/libusb0_win32.c:425-425 | the transfer becomes part of the list although it is in no handle array, because its announcement is due |
| TransferMemory.SubmitSignalOk | src/os/libusb0_win32.c:427-427 | after the announcement the invariant holds without a call in the critical section |
| TransferMemory.RequestAbortOk | src/os/libusb0_win32.c:438-455 | a cancellation reaches only a transfer in flight and changes nothing else |
| TransferInvariant.InitInv | src/os/libusb0_win32.c:102-124 | a fresh context with fresh transfers satisfies the invariant |
| TransferInvariant.StepKeepsInv | src/os/libusb0_win32.c:386-652 | every statement of every thread and every completion by the kernel keeps the invariant, under every interleaving |
| TransferInvariant.RoleMoveKeeps | src/os/libusb0_win32.c:560-632 | a waiting or reaping thread that only moves on, entering or leaving the mutex, keeps the invariant |
| TransferInvariant.ReaperStepKeeps | src/os/libusb0_win32.c:461-496 | so does a reaper that changes memory, when the memory part is kept |
| TransferInvariant.CallStepKeeps | src/os/libusb0_win32.c:405-456 | so does a submission or cancellation |
| TransferInvariant.TakeTokenKeeps | src/os/libusb0_win32.c:617-624 | taking the token keeps the invariant |
| TransferInvariant.ReleaseTokenKeeps | src/os/libusb0_win32.c:630-630 | giving it back does |
| TransferInvariant.AwaitAnyKeeps | src/os/libusb0_win32.c:591-601 | so does the wait for any of the handles, wherever it leads |
| TransferInvariant.FindStepKeeps | src/os/libusb0_win32.c:602-610 | so does every statement of the unlocked search, while others append |
| TransferInvariant.ReapStepKeeps | src/os/libusb0_win32.c:461-496 | so does every statement of a reap, the callback included |
| TransferInvariant.LinkKeeps | src/os/libusb0_win32.c:418-424 | so does every single pointer write of a submission |
| TransferInvariant.CallKeeps | src/os/libusb0_win32.c:405-456 | so does every statement of a submission or a cancellation |
| TransferInvariant.StartSubmitsOk | src/os/libusb0_win32.c:386-405 | a submission may start, in a callback too, for a transfer that is not in flight and not being submitted |
| TransferInvariant.CompleteKeeps | src/os/libusb0_win32.c:467-469 | so does the kernel's completion of any pending operation with any outcome |
| TransferTheorems.ReachableInv | src/os/libusb0_win32.c:386-652 | the invariant holds in every reachable state |
| TransferTheorems.TokenConserved | src/os/libusb0_win32.c:614-652 | in every reachable state either hReaperLock is signalled and no thread is between acquiring and releasing it, or it is not and exactly one is |
| TransferTheorems.MutualExclusion | src/os/libusb0_win32.c:405-495 | no two threads are in the critical section |
| TransferTheorems.NoLostWakeup | src/os/libusb0_win32.c:570-611 | every transfer in flight is in the handle array of the last snapshot, or hTransferListUpdated is signalled, or the thread in the critical section is about to signal it |
| TransferTheorems.BlockedReaperHasNothingToReap | src/os/libusb0_win32.c:591-599 | a reaper is blocked only while its target is unsignalled and all transfers in flight are among its handles and pending in the kernel |
| TransferTheorems.SearchSucceeds | src/os/libusb0_win32.c:601-610 | at every node of the unlocked search the walk is on the list with the wanted transfer ahead, within the first tran_count nodes; the exit that finds nothing is never taken |
| TransferTheorems.CompletionEventTruth | src/os/libusb0_win32.c:416-427 | with the mutex free, a signalled completion event means not in flight, a transfer neither in flight nor being reaped has it signalled, and submitted is set exactly on the list |
| TransferTheorems.CompletedIsLetGo | src/os/libusb0_win32.c:461-496 | whenever the completion event of a transfer is signalled, the transfer is not on the list, no thread's search or reap uses it, and no wait for any of several handles includes its event |
| TransferTheorems.NothingPointsAtCompleted | src/os/libusb0_win32.c:416-495 | with the mutex free, no pointer of the context or of a transfer in flight leads to it either |
| TransferTheorems.ListRepresented | src/os/libusb0_win32.c:418-426 | with the mutex free, the pointers represent one sequence without repetition of exactly the submitted transfers, prev mirroring next, trani_last its end, tran_count its length |
| TransferTheorems.ExactlyOnce | src/os/libusb0_win32.c:386-496 | submissions and unlinks of a transfer alternate, each unlink reports the outcome of its own submission and is followed by exactly one start of the callback, and each cancellation that reached the kernel fell between a submission and its unlink |
| TransferTheorems.SubmissionsConserved | src/os/libusb0_win32.c:386-496 | over any run, successful submissions are the unlinks plus tran_count |
| TransferCounting.StepRecords | src/os/libusb0_win32.c:386-496 | each step adds to a transfer's history exactly what it makes happen |
| TransferCounting.HistoryIsTimes | src/os/libusb0_win32.c:386-496 | in any run, the history of a transfer is the number of steps that put it on the list, took it off, started its callback |
| TransferCounting.ExactlyOnceOverRuns | src/os/libusb0_win32.c:386-496 | over any run, counted in steps: a transfer was taken off the list as often as put on it, less one if it is there now, and its callback started as often as it was taken off, less one if that is due |
| TransferRuns.PhasesBalance | src/os/libusb0_win32.c:386-458 | over any run, counted in steps and answers: as many submissions as called were answered by the driver, as many as it accepted put on the list, and as many cancellations as called looked at their transfer, but for the threads on their way |
| TransferRuns.AcceptedIsListed | src/os/libusb0_win32.c:407-425 | whether completed at once or pending, every accepted request has been put on the list, or the thread in the critical section is about to |
| TransferRuns.CalledIsRequested | src/os/libusb0_win32.c:386-414 | every submission called has been answered by the driver, but for at most one thread on its way |
| TransferRuns.AnswerDecides | src/os/libusb0_win32.c:407-414 | a refusal changes no memory and leads out of the call; an acceptance makes the operation pending or done as the driver answered, and changes neither list nor flags |
| TransferRuns.RunHistory | src/os/libusb0_win32.c:386-496 | the history of a transfer is what the steps of the run and the answers of driver and kernel say: outcomes in order, the stored report at each unlink, an abort for each cancellation that found the transfer submitted |
| TransferRuns.ReportsTellOutcomes | src/os/libusb0_win32.c:292-309 | every report is completed, cancelled or an error exactly as its operation succeeded, was aborted or failed; the length is the transferred count, eight more for control transfers, zero without success |
| TransferRuns.CallbacksSeeOutcomes | src/os/libusb0_win32.c:461-490 | the k-th callback has found in the transfer the report of the k-th submission, which tells how that operation ended |
| TransferRuns.LoopEventOverRuns | src/os/libusb0_win32.c:644-652 | the event that ends the event loop is signalled exactly from a stop to the next reset |
| TransferProgress.Progress | src/os/libusb0_win32.c:560-632 | while a thread waits for an unsignalled target and a transfer in flight has finished in the kernel, the token is free for that thread to take, or its holder can move, or the holder waits for the mutex and the owner of that can move |
| TransferProgress.CallsProgress | src/os/libusb0_win32.c:405-456 | a thread in a submission or a cancellation can move, or another one is in the critical section and can move |
| TransferProgress.UserMayCall | src/libusby.h:203-210 | a thread outside the library may wait and cancel, and from there or a callback submit any transfer at rest |
| TransferProgress.SignalledWaitEnds | src/os/libusb0_win32.c:591-599 | a thread that blocks for an event that is signalled can move, and its next step ends the wait |
| TransferProgress.ReaperStepLowersRank | src/os/libusb0_win32.c:560-611 | every statement of the reaper lowers its rank or gives the token back |
| TransferProgress.OtherStepLeavesRank | src/os/libusb0_win32.c:386-652 | no other thread raises the rank, except by submitting |
| TransferProgress.RankPaysForSteps | src/os/libusb0_win32.c:560-611 | over any stretch without submissions the rank pays for all statements of the reaper |
| TransferProgress.ReapingIsBounded | src/os/libusb0_win32.c:560-611 | once submissions cease, with n transfers in flight, a reaper executes at most n * n + 42 * n + 36 statements before it gives the token back |
| TransferProgress.IterationsDecrease | src/os/libusb0_win32.c:560-611 | from one wait of the reaper to a later one the pair of tran_count and the list-updated flag decreases lexicographically |
| TransferProgress.WaitSeesItsEvent | src/os/libusb0_win32.c:614-642 | a wait that was started for an event and has returned saw that event signalled meanwhile, be it of a transfer or of the event loop |
| TransferProgress.WaitSeesTransferAtRest | src/os/libusb0_win32.c:634-637 | a wait that has returned saw, at a moment during the wait, its transfer neither submitted nor on the list nor in use by any thread, even if the callback resubmits it |
| InFlightList.SubmissionStatements | src/os/libusb0_win32.c:418-425 | the statements of the step system, uninterrupted, do to the pointers what the heap method does |
| InFlightList.AppendLinksOk | src/os/libusb0_win32.c:418-425 | the pointers after a submission represent the sequence with the transfer at its end |
| InFlightList.Context.LinkLast | src/os/libusb0_win32.c:418-424 | the pointer writes of a submission on the heap are those of the step system |
| InFlightList.Context.WriteAppend | src/os/libusb0_win32.c:418-426 | with the count and the flag, and no other transfer's flag |
| InFlightList.Context.Append | src/os/libusb0_win32.c:418-426 | the represented sequence gets the transfer at its end |
| InFlightList.Context.Bypass | src/os/libusb0_win32.c:472-480 | the neighbours of a reaped transfer, and the ends of the list, are set as in the step system |
| InFlightList.Context.WriteUnlink | src/os/libusb0_win32.c:472-486 | all writes of a reap are those of the step system |
| InFlightList.Context.Unlink | src/os/libusb0_win32.c:472-486 | the represented sequence loses the transfer, wherever it is |
| InFlightList.Context.FillSlots | src/os/libusb0_win32.c:578-586 | slot k + 2 gets the event of the k-th transfer in flight, and no store is outside the array |
| InFlightList.Context.Snapshot | src/os/libusb0_win32.c:570-586 | all stores are inside the handle array if and only if the reallocation is granted or the old array is large enough; then the array holds exactly what the snapshot of the step system holds |
| InFlightList.Context.Find | src/os/libusb0_win32.c:602-610 | the search finds the transfer with the event, if it is in flight, and nothing otherwise |
| HandleList.Handles.Reserve | src/os/libusb0_win32.c:539-558 | room for the request, capacity at most about four times it, kept handles unchanged, a denied reallocation changes nothing |
| HandleList.KeptExactly | src/os/libusb0_win32.c:539-558 | the capacity stays exactly between the request, at least four, and about four times that, and otherwise becomes one and a half times the request |
| HandleList.ReservationIsPaid | src/os/libusb0_win32.c:544-555 | what a reservation reallocates is paid by the fall of a potential, for every capacity and request |
| HandleList.ReallocationIsLinear | src/os/libusb0_win32.c:539-586 | over any run the slots reallocated are at most 24 plus 6 for each submission and each reap |
| HandleCost.StepCount | src/os/libusb0_win32.c:425-484 | each step changes tran_count by what its event says |
| HandleCost.EventsAreTheRun | src/os/libusb0_win32.c:386-589 | in any run the events add up to tran_count, and those that are not snapshots are the submissions and unlinks of all transfers |
| HandleCost.ReallocationIsLinearOverRuns | src/os/libusb0_win32.c:539-586 | over any run of the protocol, with two more than tran_count reserved at each snapshot, the slots reallocated are at most 24 plus 6 for each submission and unlink |
| ConfigTheorems.ParserAcceptsGrammar | src/libusby.c:519-616 | parsing succeeds exactly on the byte strings of the grammar |
| ConfigTheorems.ParserBuildsTree | src/libusby.c:548-592 | the settings of each interface are the input's setting blocks with its number in input order, each with its endpoints in input order |
| ConfigTheorems.ParsedIsWellFormed | src/libusby.c:554-608 | on success every interface has a setting, setting k of interface m carries the numbers k and m, and has exactly bNumEndpoints endpoints |
| ConfigTheorems.OverrunExactly | src/libusby.c:586-592 | an endpoint is stored outside its array exactly on the inputs with an endpoint descriptor after a complete list |
| ConfigTheorems.EndpointBeforeInterface | src/libusby.c:586-592 | a configuration with an endpoint before any interface is one of them |
| ConfigTheorems.EndpointBeyondAnnounced | src/libusby.c:586-592 | a configuration with one endpoint more than its interface announces is another |
| ConfigTheorems.PrintParse | src/libusby.c:519-616 | printing a well-formed tree, with any well-sized descriptors of other types in between, and parsing gives exactly that tree |
| ConfigTheorems.OneEndpoint | src/libusby.c:519-616 | the 25 bytes of a configuration with one setting with one endpoint give exactly that tree |
| ConfigTheorems.ScanFlattened | src/libusby.c:542-596 | reading bytes is reading the descriptors they separate into |
| ConfigTheorems.ScanIgnoresOthers | src/libusby.c:542-596 | descriptors of other types do not matter |
| ConfigParser.FreeEndpoints | src/libusby.c:678-682 | every endpoint array is live when freed, and exactly these are freed |
| ConfigParser.FreeInterface | src/libusby.c:676-685 | exactly the blocks of the interface are freed |
| ConfigParser.FreeInterfaces | src/libusby.c:674-686 | exactly the blocks of all interfaces are freed |
| ConfigParser.FreeConfig | src/libusby.c:668-692 | the live blocks afterwards and those of the tree, which may be incomplete, are the live blocks before: every block is freed exactly once |
| ConfigParser.AddAlt | src/libusby.c:566-583 | the interface gets the setting, or an allocation was denied; either way its blocks are the live ones |
| ConfigParser.ReadSetting | src/libusby.c:560-584 | the same for the interface with the number of the setting, the others unchanged |
| ConfigParser.StoreEndpoint | src/libusby.c:591-591 | the endpoint is the next of the open setting, and no block changes hands |
| ConfigParser.ReadBlock | src/libusby.c:548-592 | one descriptor is read as in the parsing function, or an allocation was denied; the tree owns exactly the blocks that were allocated for it |
| ConfigParser.ReadBlocks | src/libusby.c:542-596 | the same for the loop, whose reads stay within the remaining input, which shrinks |
| ConfigParser.CheckComplete | src/libusby.c:598-608 | the last setting is complete and every interface has a setting |
| ConfigParser.Sanitize | src/libusby.c:519-616 | with no allocation denied the outcome is that of the parsing function; whatever is denied, an error leaves exactly the blocks live before, and success adds exactly those of the returned tree |
| ConfigParser.Read | src/libusby.c:533-615 | the same for the part after the first two allocations |
| ConfigParser.GrowAlts | src/libusby.c:570-574 | the larger array of settings replaces the smaller, or that is kept |
| ConfigSearch.ParseBody | src/libusby.c:635-637 | the tree of the answered bytes, or the reason why not |
| ConfigSearch.LengthIsAnnounced | src/libusby.c:625-635 | the length of the second request is that in the first answer, and the same whatever the buffer held before, if and only if the first answer has at least four bytes |
| ConfigSearch.StaleLengths | src/libusby.c:625-635 | a two-byte answer with which the second request asks for 0 or for 256 bytes, as the buffer happens to be |
| ConfigSearch.GetConfig | src/libusby.c:618-641 | the tree of the bytes that the second request returned, or the reason why not; when the first answer has four bytes, the second request asks for the length in it; the buffer never leaks |
| ConfigSearch.Search | src/libusby.c:713-729 | among the configurations with the indices below a number: the first with the value, or the first failure, or not found after all were rejected; no rejected tree stays allocated |
| ConfigSearch.GetConfigByValue | src/libusby.c:704-730 | the failure to get the device descriptor, cached or asked for and however short the answer; or else that search among as many configurations as the descriptor announces |
| DescriptorRequests.FilledAt | src/libusby.c:315-315 | a byte of the buffer after a request is the device's, and the same whatever was there before, if and only if the answer reaches it |
| DescriptorRequests.DescriptorIsAnswered | src/libusby.c:314-319 | the device descriptor received is the answer, and the same whatever the buffer held before, if and only if the answer has at least 18 bytes |
| DescriptorRequests.AcceptedByAnswer | src/libusby.c:319-332 | whether it is accepted does not depend on what the buffer held before if and only if the answer is not empty |
| DescriptorRequests.StaleIds | src/libusby.c:314-319 | with a one-byte answer that is accepted, the vendor id is what the buffer held |
| DescriptorRequests.AskedOnce | src/libusby.c:307-326 | a descriptor once obtained is cached and returned ever after, whatever the device would answer; one not obtained leaves the next request its choice |
| DescriptorRequests.AskedFresh | src/libusby.c:314-325 | with none cached, an answer of 18 bytes that begins with 18 is the descriptor, one that begins otherwise is none, and a failed request keeps its code |
| DescriptorRequests.GetDeviceDescriptor | src/libusby.c:307-326 | the cached descriptor, the one received, which is then cached, the error code of the request, or an error for what is no descriptor |
| DescriptorCache.SplitExactly | src/os/linux_usbfs.c:373-401 | a byte string splits into n blobs exactly if it starts with n well-sized blobs |
| DescriptorCache.SplitAfter | src/os/linux_usbfs.c:373-401 | splitting after some blobs depends only on what follows them |
| DescriptorCache.BlobAt | src/os/linux_usbfs.c:576-589 | blob i lies in the concatenation where the lengths of the blobs before it end |
| DescriptorCache.DeviceFile.Read | src/os/linux_usbfs.c:379-379 | a read gives a prefix of the rest of the file, possibly short, or fails, and writes nothing else |
| DescriptorCache.CachedDevice.Grow | src/os/linux_usbfs.c:385-391 | the larger block keeps the bytes; a denied reallocation changes nothing |
| DescriptorCache.CachedDevice.ReadHeader | src/os/linux_usbfs.c:379-383 | four bytes with a total length of at least four, or a short read, or there were none |
| DescriptorCache.CachedDevice.Store | src/os/linux_usbfs.c:393-398 | the blob follows the bytes that were there, or the read was short |
| DescriptorCache.CachedDevice.ReadBlob | src/os/linux_usbfs.c:375-400 | the next blob of the file goes to the end of the cache |
| DescriptorCache.CachedDevice.Fill | src/os/linux_usbfs.c:373-401 | the cache is the concatenation of the blobs the file splits into |
| DescriptorCache.CachedDevice.Enumerate | src/os/linux_usbfs.c:369-408 | without short reads and denied allocations a device is kept exactly if its file splits into the announced number of blobs; a device that is not kept leaves no block behind |
| DescriptorCache.CachedDevice.Lookup | src/os/linux_usbfs.c:565-592 | exactly the first min(length, wTotalLength) bytes of blob i, no other byte of the buffer changed, and the two error cases |
| DescriptorCache.Fetch | src/libusby.c:650-660 | fetching the header and then the announced length from the cache yields precisely blob i |
| DescriptorCache.GetConfigCached | src/libusby.c:643-666 | the outcome is that of parsing precisely blob i |
| ConfigRoundTrip.ServedExactly | src/libusby.c:618-641 | from a device that has a byte string and answers each request with as much of it as was asked for, all of it is fetched if and only if the length in its bytes 2 and 3 is not too small |
| ConfigRoundTrip.BlobHasLengthInside | src/os/linux_usbfs.c:373-401 | what the cache takes for a configuration is what has its own length in bytes 2 and 3, low byte first |
| ConfigRoundTrip.FileSplits | src/os/linux_usbfs.c:354-401 | a device file with a device descriptor and as many configurations as that announces splits into exactly these, whatever follows |
| ConfigRoundTrip.GetPrinted | src/libusby.c:618-641 | from a device that has the bytes of a tree the program gets exactly that tree, unless an allocation is denied, and then nothing stays allocated |
| ConfigRoundTrip.GetPrintedCached | src/os/linux_usbfs.c:354-401 | so does libusby_get_config_descriptor_cached from the device file, for each configuration in it |
| DeviceArray.RoomIsLeastPower | src/libusby.c:35-44 | the capacity for n devices is the least power of two above n, and at most 2n |
| DeviceArray.RoomStep | src/libusby.c:35-38 | it doubles exactly when the terminator would not fit any more |
| DeviceArray.DeviceList.Append | src/libusby.c:30-51 | the devices appended so far in order with a terminator, capacity the least power of two above the count; a denied reallocation changes nothing |
| DeviceArray.DeviceList.Walk | src/libusby.c:195-197 | reading up to NULL meets exactly the devices appended |
| DeviceArray.DeviceList.CopyingIsLinear | src/libusby.c:35-44 | all reallocations for n devices copy at most 2n elements |
| DeviceNodes.InitHead | src/libusby.c:8-12 | the ring of the head alone |
| DeviceNodes.OpenedIsRing | src/libusby.c:22-28 | the links after the four writes of an insertion form the ring with the node in its place |
| DeviceNodes.ClosedIsRing | src/libusby.c:14-20 | the links after the two writes of a removal form the ring without the node |
| DeviceNodes.InsertBefore | src/libusby.c:22-28 | the node is inserted before any node of the ring, the head included, which is the end |
| DeviceNodes.Remove | src/libusby.c:14-20 | the node leaves the ring and its successor is returned |
| DeviceRegistry.Context.RefDevice | src/libusby.c:203-207 | one more reference, and the counts agree with it |
| DeviceRegistry.Context.UnrefDevice | src/libusby.c:209-216 | one reference less; the device is finalised and unlinked exactly with its last one |
| DeviceRegistry.Context.GiveBack | src/libusby.c:209-216 | giving back a reference that was taken last restores the counts; the device stays linked exactly if other references remain |
| DeviceRegistry.Context.FinalizeDevice | src/os/libusb0_win32.c:257-266 | the device leaves the circular list, the order of the others kept, and is recorded as finalised |
| DeviceRegistry.Context.SanitizeDescriptor | src/libusby.c:328-335 | the descriptor field changes only to one with the right length byte |
| DeviceRegistry.Context.FindDevice | src/os/libusb0_win32.c:207-219 | a linked device with the number, or there is none |
| DeviceRegistry.Context.LinkDevice | src/os/libusb0_win32.c:230-230 | the device is linked at the end |
| DeviceRegistry.Context.AddDevice | src/os/libusb0_win32.c:223-230 | a new device with one reference, numbers still distinct |
| DeviceLists.NumbersListed | src/os/libusb0_win32.c:194-204 | each number with a device file occurs once, and no other |
| DeviceLists.AllPresentListed | src/os/libusb0_win32.c:194-204 | the enumeration comes to exactly the present devices with numbers from 1 to 255, in order |
| DeviceLists.FreeDeviceList | src/libusby.c:191-201 | with unref, exactly the references of the entries are given back, whatever devices die on the way; without, none |
| DeviceLists.VisitNew | src/os/libusb0_win32.c:221-240 | a new device is linked with its descriptor and listed with one reference if and only if it answers and the array is large enough or may grow; otherwise nothing remains of it |
| DeviceLists.Visit | src/os/libusb0_win32.c:206-242 | one entry more and one reference more to the device with the number, or no change; exactly when, for new devices and for linked ones |
| DeviceLists.Linkage | src/os/libusb0_win32.c:207-221 | a device is found linked exactly if one with its number was before the enumeration |
| DeviceLists.Next | src/os/libusb0_win32.c:194-243 | one turn of the loop, whether the device file opens or not |
| DeviceLists.Scan | src/os/libusb0_win32.c:194-243 | the loop up to the first device that fails, with the references taken so far; it gets to its end if and only if none fails |
| DeviceLists.ListDevices | src/os/libusb0_win32.c:190-255 | success if and only if no device fails, which is said of the answers and allocations; then one device for each number that opens, in order, one reference more to each; a failure restores all counts |
| DeviceListsLinux.VisitNew | src/os/linux_usbfs.c:351-408 | a new device is listed, skipped because its descriptors cannot be read, or ends the list because memory is denied; exactly when each; only the first leaves a reference |
| DeviceListsLinux.Visit | src/os/linux_usbfs.c:333-411 | the same for any device file; for a linked device the enumeration fails exactly if the array has to grow and cannot |
| DeviceListsLinux.Next | src/os/linux_usbfs.c:333-411 | one turn, with the devices that belong on the list so far; it ends the list exactly if the entry stops it, and fails exactly if the entry makes it fail |
| DeviceListsLinux.Scan | src/os/linux_usbfs.c:303-417 | the loops up to the first entry that ends them, all before it having gone on, with the references taken so far |
| DeviceListsLinux.Linkage | src/os/linux_usbfs.c:334-351 | since each device occurs once per scan, a device is found linked exactly if it was before the enumeration |
| DeviceListsLinux.ListDevices | src/os/linux_usbfs.c:286-433 | the enumeration ends with the first entry that stops it or makes it fail, and with all entries if and only if there is none; stopped or not, success lists the devices linked before or with complete descriptors up to there, in order, one reference more to each; new devices have the descriptors of their entries; a failure restores all counts |
| DeviceListsLinux.DeniedDeviceHidesTheNext | src/os/linux_usbfs.c:385-408 | two new devices, the first without memory for its cache: the enumeration stops with an empty list, although the second alone would be listed |
| LinuxEnumeration.ReadNew | src/os/linux_usbfs.c:354-401 | the file of a new device is read into a cache of its blobs, or the reason why not is true; only a cache that is kept has memory |
| LinuxEnumeration.Look | src/os/linux_usbfs.c:333-401 | a file is read if and only if no device with its number is linked |
| LinuxEnumeration.FreeCaches | src/os/linux_usbfs.c:435-440 | exactly the caches of the new devices are freed |
| LinuxEnumeration.Turn | src/os/linux_usbfs.c:333-411 | one file: its device listed with its descriptor and cache, skipped, or the end; a cache without a listed device is freed |
| LinuxEnumeration.Step | src/os/linux_usbfs.c:333-411 | the same, with all devices, caches and memory gathered so far: a cache for each listed device that was not linked before, and for no other |
| LinuxEnumeration.Scan | src/os/linux_usbfs.c:303-417 | the loops over the files, up to the first that ends them, with a cache for each newly listed device and for no other |
| LinuxEnumeration.ListDevices | src/os/linux_usbfs.c:286-433 | the new devices are, once each, those on the list that were not linked before; each has the number of its file, the descriptor at its beginning, and a cache that holds exactly its blobs; the blocks of these caches are exactly the memory that is kept, and a failure keeps none; what the entries say of the files is true, and the enumeration ends as they say |
| DeviceOpening.Open | src/libusby.c:227-247 | a handle and one reference more, or neither |
| DeviceOpening.Close | src/libusby.c:295-300 | one reference less |
| DeviceOpening.FirstLoop | src/libusby.c:259-271 | the first device with a matching cached descriptor that opens |
| DeviceOpening.Try | src/libusby.c:277-288 | a device that does not match is closed again and its count restored |
| DeviceOpening.SecondLoop | src/libusby.c:273-289 | the first device that opens and whose descriptor, cached or fetched, matches; the descriptor field of every device it opened up to there is what asking leaves, and no other changes |
| DeviceOpening.Choose | src/libusby.c:259-289 | both loops: the device chosen, or that there is none |
| DeviceOpening.Matches | src/libusby.c:266-284 | true exactly if byte 0 is 18 and bytes 8 to 11 are the two ids, low bytes first |
| DeviceOpening.NoneChosen | src/libusby.c:259-289 | when none is chosen, no device with the ids in its cached bytes opened at the first attempt, and none with the ids there or in a full answer at the second |
| DeviceOpening.OpenDeviceWithVidPid | src/libusby.c:249-293 | the device chosen is the first with the ids in its cached bytes that opens, else the first that opens and answers with them; without a handle there is none such; the only reference that remains is that of the returned handle; which descriptor fields have changed, and to what |
| DeviceClient.Client.CountsAreReferences | src/libusby.c:191-247 | each count is list entries plus open handles plus own references; a device is linked exactly if one of these is positive; every device ever created is linked or finalised, not both |
| DeviceClient.Client.IsConsistent | src/libusby.c:203-216 | a device number is linked exactly if a device with it is held, and no two devices that are held have the same |
| DeviceClient.Client.NamedLinked | src/libusby.c:185-206 | whatever a program can name by a list entry, a reference of its own or a handle is linked |
| DeviceClient.Client.NothingHeld | src/os/libusb0_win32.c:137-139 | when nothing is held the list is empty, as exit asserts, and every device ever created has been finalised |
| DeviceClient.Client.DoList | src/os/libusb0_win32.c:190-255 | a list with the devices that open if no device fails, and otherwise no change to what the program holds; linked devices keep their descriptors and new ones have what they answered |
| DeviceClient.Client.DoListLinux | src/os/linux_usbfs.c:286-433 | a list with the devices up to the first entry that ends the enumeration, and no change if that makes it fail; linked devices keep their descriptors and new ones have those of their entries |
| DeviceClient.Client.DoFreeList | src/libusby.c:191-201 | the list is given up; without unref its references stay with the program |
| DeviceClient.Client.DoRef | src/libusby.c:203-207 | one more own reference |
| DeviceClient.Client.DoUnref | src/libusby.c:209-216 | one own reference less |
| DeviceClient.Client.DoOpen | src/libusby.c:227-247 | one more handle of the device, or no change |
| DeviceClient.Client.DoClose | src/libusby.c:295-300 | the handle is given up |
| DeviceClient.Client.DoGetDescriptor | src/libusby.c:307-326 | the descriptor field of the handle's device is what asking leaves, and no other changes |
| DeviceClient.Client.DoOpenByIds | src/libusby.c:249-293 | one more handle, of the device with the number that is chosen among the present ones by their descriptors, linked or newly answered; no change exactly if a device fails or none is chosen; and the descriptor fields afterwards |
| DeviceClient.OpenedHasIds | src/libusby.c:249-293 | in any run, the device of a handle obtained by ids has these in bytes 8 to 11 of its descriptor field |
| DeviceClient.AnyPlaceWorks | src/libusby.c:185-247 | a device can be referenced and opened through a list entry, an own reference and a handle alike |
| DeviceClient.Client.Perform | src/libusby.c:191-326 | any of these calls, with devices named in any way, keeps the counts equal to the references, and does to the holdings and the descriptor fields what it should |
| DeviceClient.Client.Run | src/libusby.c:191-326 | after any calls in any order the counts are the references, each call did to what the program holds and to the descriptor fields what it should, exactly the devices held at each moment were linked, and finalised devices stay finalised |
| Utf8.ShortestExceptThree | src/libusby.c:421-448 | an encoding has the length of RFC 3629 if and only if the code point is not 0x7F, 0x7FF or 0xFFFF, and one byte more otherwise |
| Utf8.EncodeUtf8 | src/libusby.c:414-451 | a prefix of the full encoding, as long as there is room, and nothing else is written |
| Utf8.DecodeEncoded | src/libusby.c:421-448 | a decoder that does not insist on the shortest form recovers every code point |
| Utf8.DecodeEncodeAll | src/libusby.c:421-448 | it reads the encoding of any sequence of code points to its end and recovers the sequence |
| StringDescriptor.PairIsNeverRight | src/libusby.c:485-485 | what is written for any pair decodes to the code point of RFC 2781 less 0x10000 |
| StringDescriptor.PairRepeatsLength | src/libusby.c:485-507 | the length returned for any text with a pair counts the character before the pair twice |
| StringDescriptor.LengthIsWritten | src/libusby.c:473-507 | the length is that of the bytes written if and only if no pair follows anything, and never less |
| StringDescriptor.PairAfterLetter | src/libusby.c:473-507 | for a letter and a pair the length is three and two bytes are written |
| StringDescriptor.SurrogateFreeLength | src/libusby.c:473-507 | without surrogates it is that of the encoded text |
| StringDescriptor.WellPairedIsRegular | src/libusby.c:479-511 | the tests of the loop and after it, together, ask that every high surrogate is followed by a low one and every low one follows a high one |
| StringDescriptor.ConvertUnit | src/libusby.c:478-502 | one code unit: rejected exactly where the pairing breaks, out of room exactly where the buffer has ended, and otherwise as much of its character, pairs included, as fits, after the unchanged bytes before it |
| StringDescriptor.NoRoomOutcome | src/libusby.c:476-501 | where the loop finds no room the outcome is a write past the end |
| StringDescriptor.FailedOutcome | src/libusby.c:481-499 | where the pairing breaks, and the loop gets there, the outcome is an error |
| StringDescriptor.EndOutcome | src/libusby.c:476-513 | where the loop ends, the outcome is the length so far, or an error for a high surrogate left over |
| StringDescriptor.Transcode | src/libusby.c:473-513 | for any text and any buffer: the outcome, and when it is a length, each character, pairs included, in its place as far as it fits |
| StringDescriptor.EnoughRoom | src/libusby.c:473-513 | with four bytes for each unit, accepted exactly if the surrogates are well paired |
| StringDescriptor.SurrogateFreeOutcome | src/libusby.c:473-513 | without surrogates, a write past the end exactly if the buffer is too short, and otherwise the length of the encoded text or of the buffer, whichever is less |
| StringDescriptor.LettersWithoutRoom | src/libusby.c:476-501 | a two-byte buffer is too short for three letters |
| StringDescriptor.TextConverted | src/libusby.c:473-513 | without surrogates, the buffer holds the encoded text as far as it fits; all of it decodes to the code units |
| StringDescriptor.RefusedExactly | src/libusby.c:462-469 | refused are exactly answers of less than two bytes, with another type than 3, or where the lesser of the answer's length and the length byte is odd |
| StringDescriptor.PrintedUnits | src/libusby.c:465-478 | from an answer that begins with the printed descriptor of a text exactly that text is taken |
| StringDescriptor.GetStringUtf8 | src/libusby.c:453-517 | for the whole function: the answers that are refused, and for all others the outcome and what is in the buffer |
| StringDescriptor.GetPrintedString | src/libusby.c:453-517 | a text without surrogates, printed as a string descriptor, comes out as bytes that decode to it, given four bytes of room for each unit |

## Left out

- The Linux event loop, submission and waiting (`src/os/linux_usbfs.c:93-249, 455-526`): watched files are never counted in (line 508) and the loop is released without a broadcast (line 202), so that the intended invariants do not hold of this code.
- System calls: their answers are parameters or oracles with the stated restrictions.
- The limit of 64 objects to one wait on Windows, failing waits, and, in the step system, a denied allocation of the handle array.
- `usbyb_prepare_transfer_submission`, and with it the contents of requests: a submission is refused, queued or completed at once.
- Without `CancelIoEx`, a cancellation aborts all transfers of the endpoint; the kernel steps of the model may abort any pending transfer at any time and so include this, but the history records only the transfer that was named.
- Synchronous transfers, control transfers and their setup packets; data of OUT control transfers is not copied into the buffer by the code (`src/libusby.c:347-364`).
- Claiming and releasing interfaces, getting and setting the configuration, mapping of error codes, pointer offsets, isochronous packets.
- The 32-bit width of counts and capacities, which no realistic number of devices or transfers reaches.
- `usbyi_alloc_device` clears the block before its callers test it for NULL, so that a denied allocation does not return; the model lets it succeed.
- File descriptors and handles of devices: only memory and references are accounted for.
- The cache of a device is freed with a list that is given back on failure (`LinuxEnumeration`); that it is freed when the device is finalised later is not followed through whole runs.
- DeviceOpening.OpenDeviceWithVidPid: uses the Windows enumeration; with the Linux one only the list it searches would differ.
- StringDescriptor.Transcode: once a character would be written where there is no room (`NoRoom`), nothing is said of what follows, and of the buffer nothing when the text is rejected.
- InFlightList.Context.Snapshot: nothing is said of what follows stores outside the array.
- ConfigGrammar.ParseConfig: after an endpoint without a place nothing is said, because memory outside the array has been overwritten.
