# kobox2 in Dafny

kobox2 is the controller and wire protocol of sandboxed Linux module runtimes. A host starts a sandbox, seals a
closure of modules into it, grants it resources, and then talks to it over split virtqueues in shared memory. This
project models the parts of that system whose correctness is not visible in one function, and proves what they
promise.

## What is modelled

| modules | system |
|---|---|
| `Bytes`, `Fields`, `Names`, `Ranges`, `Counting`, `Partitions`, `Sorting`, `Wrap`, `Graphs` | little-endian fields, record layouts, names, 64-bit ranges, pigeonhole counting, tables cut into ranges, orders, 16-bit indices, walks in a graph |
| `Channel` | validation of a channel: regions, queues, ring areas |
| `Chains`, `Descriptors`, `ScatterGather`, `Endpoint`, `Virtqueue` | one endpoint of the queue engine: chain validation, the descriptor walk, payload copies, the private tables, and the class with every operation |
| `Footprint`, `SplitRing`, `RingInvariant`, `RingFrames`, `RingSteps`, `RingLooks`, `RingLedger`, `RingMemory`, `RingReturns`, `RingAnswers`, `Conservation`, `RingTheorems`, `RingProgress`, `RingCalls`, `RingLayout`, `TakenChains` | a driver and a device on one lane, interleaved memory access by memory access; that every waiting chain is handed over; that a call of the class over one memory is a run of those steps; what memory then holds at which address; and what a take makes of memory that holds anything |
| `RingEvents`, `RingBells`, `BellCalls` | the same system with sleeping and waking: who writes where, the event words, and both directions of the handshake over one memory |
| `Doorbell` | the event-index handshake, with a store buffer on each side |
| `MappedMemory` | transport addresses over host mappings |
| `Controller`, `ControllerRuns`, `ControllerHistory`, `ControllerSetup`, `ControllerObject` | the lifecycle controller as a machine, where its calls lead, over whole runs with host failures, what was configured, and as a class |
| `NodeMap`, `ClosureGraph`, `ClosureIds`, `ClosureRecords`, `ClosureSeal`, `ClosureRuns`, `ClosureBuilder` | validating and sealing a closure, and building one by a sequence of calls |
| `GrantRecords`, `ResourceGrant`, `GrantDecoder`, `GrantEncoder`, `GrantBuffer` | the resource grant codec |
| `ManifestLayout`, `ManifestRecords`, `Manifest`, `ManifestRoundTrip`, `ManifestCanonical`, `ManifestDecoder`, `ManifestEncoder`, `ManifestBuffer` | the closure manifest codec |
| `BigEndian`, `Sha256Compress`, `Sha256`, `Sha256Vector` | words as numbers, the compression function, the streaming hash, and the digest of the empty message |
| `Refcount` | the saturating reference counter under any number of threads |
| `GpuCommand`, `GpuRequest` | validation of generic GPU commands |

Conventions:

- Code that updates state is a class or a method with loops. Each such method is tied by its contract to a value: a
  `State`, a `Machine`, a `Storage`, a byte string. What the system promises is then proved about those values.
- An endpoint cannot trust shared memory. A read of it is a parameter (`io`) that may return anything or fail, a store
  is an output, and `Valid()` of `Virtqueue` holds after every call whatever was returned. `SplitRing` puts two
  endpoints over one memory, with the same tables, checks and stores, one access per step.
- `Lane` carries the payload policy, which both ends share. The steps of `SplitRing` leave the segments of an owned
  chain alone, as the header asks of callers.
- A `memory` or `ok` parameter says whether an allocation or a transfer succeeded.
- Numbers are unbounded and every width that matters is written out; `size_t` is 64 bits.

Three findings:

- It is not true that the first publication after an arm that found nothing always notifies. A consumer that arms once
  more before the producer reads the event word can leave the word at a later index; the consumer then sees the
  publication itself (`Doorbell.RearmSilences`). That publication notifies exactly when the event word still names the
  index of the quiet arm, and so whenever no event store came in between (`Doorbell.FirstPublicationNotifies`). What is
  true on every run is that a sleeping consumer with work has been rung (`Doorbell.NoLostWakeup`). Without the two
  fences this fails (`Doorbell.FencesNeeded`).
- The length field of a SHA-256 message is right exactly below 2^61 bytes, while the context accepts up to 2^64 - 1
  (`Sha256.LengthFieldExact`).
- A decoded resource grant is always the encoding of what it holds, and a decoded closure manifest need not be: names
  may share bytes of the string table or leave gaps, and unused bytes after the last name give an accepted string with
  the same records for every valid source (`ManifestCanonical.SlackIsAccepted`). It is the encoding exactly when its
  references are packed in order (`ManifestCanonical.CanonicalWhenPacked`).

## Model

| member | source | states |
|---|---|---|
| RingTheorems.NextKeeps | protocol/src/virtqueue.c:271-483 | every access of either side keeps the system invariant: tables consistent, both rings hold exactly the unread publications and completions, every chain laid out as published |
| RingTheorems.RunKeeps | protocol/src/virtqueue.c:271-617 | the invariant holds after every interleaving of any length, across index wrap-around |
| RingTheorems.NeverFaults | protocol/src/virtqueue.c:86-98 | no interleaving of an honest driver and an honest device faults the channel |
| RingTheorems.EndsConsistent | protocol/src/virtqueue.c:248-281 | after any run both private tables are consistent and the four 16-bit counters are the true counts modulo 2^16 |
| RingTheorems.RunConserves | protocol/src/virtqueue.c:396-483 | driver-owned = being published + unread available + device-owned + unread used + returned but not released, and never above max_outstanding |
| RingTheorems.ExactlyOnce | protocol/src/virtqueue.c:545-592 | a publication is taken exactly when it is being served or was completed, never both, and never twice; giving a chain back makes it untaken again |
| RingProgress.PublishedIsTaken | protocol/src/virtqueue.c:423-451 | after any run, an idle device with a free handle takes the oldest untaken publication in exactly the steps of one take: it then holds the published wire, and its readable bytes are the request |
| RingTheorems.DeliveredInOrder | protocol/src/virtqueue.c:567-592 | the j-th chain take_used returns is the j-th completed one, with the handle it was published under and the length of its response |
| RingProgress.CompletedComesBack | protocol/src/virtqueue.c:567-592 | after any run, an idle driver that calls take_used while a completion waits gets the oldest one, with its handle and its length |
| RingProgress.EveryCompletionComesBack | protocol/src/virtqueue.c:567-592 | after any run, as many calls of take_used as completions wait leave every completion delivered exactly once, in order |
| RingTheorems.DeviceSeesPublication | protocol/src/virtqueue.c:284-451 | whatever happened in between, a chain the device holds is the published wire, field by field, and its readable bytes are the request |
| RingTheorems.DriverSeesResponse | protocol/src/virtqueue.c:485-607 | a returned chain is the published one, its used length is the total appended, and its first used bytes are exactly what the device appended |
| RingTheorems.TakenIsSomewhere | protocol/src/virtqueue.c:423-451 | by counting, no taken publication is lost: each is held by the device or completed |
| RingTheorems.GivesBackExactly | protocol/src/virtqueue.c:473-483 | in every run, a chain can be given back exactly when it is the last one taken and no response byte was written; it then waits again as the publication it was, and memory is as it was |
| RingTheorems.AppendsExactly | protocol/src/virtqueue.c:530-542 | in every run, bytes are appended to a response exactly when the total stays within the writable part of the published chain and below 2^32; otherwise nothing changes |
| RingTheorems.ReleasesExactly | protocol/src/virtqueue.c:609-617 | in every run, the driver can release exactly the chains it has back, and each then leaves the lane |
| RingLayout.RingsAreLaidOut | protocol/src/virtqueue.c:296-333 | in every run, by absolute address: both index words count modulo 2^16, the two-byte available entries and eight-byte used entries still to be read hold head and length |
| RingLayout.ChainsAreLaidOut | protocol/src/virtqueue.c:284-328 | in every run, from announcement to release, each segment is described by the sixteen bytes at its place, with address, length, flags and next, and an indirect table by its reference |
| RingEvents.DriverWritesOwn | protocol/src/virtqueue.c:284-338 | every store of a publication, and the event word the driver arms, lies in the descriptor table, the chain's own indirect table or the available ring |
| RingEvents.DeviceWritesOwn | protocol/src/virtqueue.c:545-565 | every store of a completion, and the event word the device arms, lies in the used ring |
| Conservation.PhasesPartition | protocol/src/virtqueue.c:248-269 | the chains a driver holds split into five stages with nothing left over |
| Conservation.Windows | protocol/src/virtqueue.c:396-407 | wrapped index differences are the true distances, because no window exceeds the ring |
| Wrap.DistanceIsExact | protocol/src/virtqueue.c:396-407 | 16-bit subtraction recovers a distance below 2^16 |
| Wrap.PositionIsExact | protocol/src/virtqueue.c:284-338 | the ring position of a wrapped index is that of the true count, for power-of-two sizes up to 32768 |
| Wrap.PendingExactly | protocol/src/virtqueue.c:396-407 | in true counts, for either side: an index means nothing new exactly at the count consumed, something exactly up to the chains outstanding and, for the driver, up to what it published, and a fault everywhere else |
| Bytes.LeDigit | protocol/src/virtqueue.c:10-35 | byte i of a stored field is the digit of weight 256^i |
| RingSteps.StoreRecordKeeps | protocol/src/virtqueue.c:296-328 | storing a descriptor of the chain being published disturbs no published chain, no ring and no walk in progress |
| RingSteps.StoreEntryKeeps | protocol/src/virtqueue.c:329-333 | storing the ring entry disturbs no unread entry |
| RingMemory.AnnounceKeepsInv | protocol/src/virtqueue.c:271-281 | the index store turns a fully stored chain into a publication |
| RingLooks.WalkFollows | protocol/src/virtqueue.c:340-394 | over a chain laid out in memory the descriptor walk goes where the wire says, step by step |
| RingLooks.NextIsUnclaimed | protocol/src/virtqueue.c:423-451 | the next available chain shares no head, descriptor or writable byte with anything the device holds |
| RingReturns.GiveBackKeeps | protocol/src/virtqueue.c:473-483 | returning the last-taken chain undoes the take, for both sides |
| RingReturns.MoveToKeeps | protocol/src/virtqueue.c:453-471 | moving an accepted chain to another handle keeps the system invariant |
| RingAnswers.AppendKeeps | protocol/src/virtqueue.c:530-542 | appending to a response changes only that chain's writable bytes and extends the response by the bytes written |
| RingAnswers.StoreUsedIndexKeeps | protocol/src/virtqueue.c:545-565 | completing moves the chain from the device to the used ring with its whole response |
| Footprint.ResponseOffAllRings | protocol/src/virtqueue.c:54-79 | response writes change no byte of any ring area of any lane of the channel |
| Footprint.RecordsDisjoint | protocol/src/virtqueue.c:160-246 | descriptors of two chains held together are stored at disjoint addresses, indirect tables included |
| Descriptors.DecodeEncode | protocol/src/virtqueue.c:340-394 | a stored descriptor reads back as address, length, flags and next |
| Descriptors.WalkAdvances | protocol/src/virtqueue.c:340-394 | reading the record publish wrote takes the walk to the next record, for direct chains, indirect tables and a direct prefix before a table |
| Descriptors.WalkReads | protocol/src/virtqueue.c:340-394 | the walk looks for each record at the address where publish stored it |
| Endpoint.ClaimKeeps | protocol/src/virtqueue.c:248-257 | claiming an admissible chain keeps the tables consistent: owned counts the filled slots, owners mark exactly the descriptors in use, chains stay apart |
| Endpoint.DropKeeps | protocol/src/virtqueue.c:259-269 | dropping a chain keeps them consistent and frees exactly its head |
| Endpoint.MoveKeeps | protocol/src/virtqueue.c:453-471 | changing the owner handle keeps them consistent |
| Endpoint.ReapKeeps | protocol/src/virtqueue.c:567-592 | accepting a used entry that fits keeps them consistent |
| Endpoint.WriteKeeps | protocol/src/virtqueue.c:530-542 | appending within the writable part keeps them consistent, without 32-bit truncation |
| Chains.PayloadRange | protocol/src/virtqueue.c:54-79 | accepts exactly the nonempty ranges inside one region with the rights, off every ring area of the channel, that the policy allows |
| Chains.ChainsOverlap | protocol/src/virtqueue.c:160-180 | finds an overlap exactly when some pair of ranges with a writable side shares a byte |
| Chains.ValidateChain | protocol/src/virtqueue.c:182-246 | accepts exactly the admissible chains, and returns the total readable and writable lengths |
| Chains.SegmentRights | protocol/src/virtqueue.c:54-79 | every nonempty segment of an admissible chain lies in one region, with the write bit if the device writes it and the read bit if it reads it |
| ScatterGather.CopyOut | protocol/src/virtqueue.c:485-513 | returns exactly the slice [offset, offset + size) of the concatenated segments of one direction, or says why not |
| ScatterGather.CopyIn | protocol/src/virtqueue.c:485-513 | changes exactly the bytes of that slice, up to the first failed transfer |
| ScatterGather.StoreAppends | protocol/src/virtqueue.c:530-542 | after a store at n the first n + size bytes are the old ones followed by the new ones |
| ScatterGather.ResponseUnaliased | protocol/src/virtqueue.c:182-246 | no two writable positions of a valid chain are the same byte |
| Virtqueue.ReadChain | protocol/src/virtqueue.c:340-394 | whatever the peer stored, the walk ends after at most max_chain_length + 1 descriptor reads, with the chain those descriptors spell or a fault |
| Virtqueue.StoreChain | protocol/src/virtqueue.c:296-333 | makes the publication's stores in order, and stops at the first that fails |
| Virtqueue.Bind | protocol/src/virtqueue.c:117-153 | a faulted channel, an unknown queue and too small a capacity are refused; an index word that cannot be read or is not zero faults the channel; otherwise the endpoint of the named queue starts with empty, consistent tables |
| Virtqueue.Virtqueue.constructor | protocol/src/virtqueue.c:145-152 | a bound endpoint starts with empty tables, which are consistent |
| Virtqueue.Virtqueue.Check | protocol/src/virtqueue.c:91-98 | a call is refused for a zero or stale generation or a faulted channel, in that order |
| Virtqueue.Virtqueue.PublishIndex | protocol/src/virtqueue.c:271-281 | stores the next index, then decides on notification from the event word it reads |
| Virtqueue.Virtqueue.Publish | protocol/src/virtqueue.c:284-338 | an admissible chain is claimed, stored and announced; a refused one changes nothing; a failed store faults the channel |
| Virtqueue.Virtqueue.PendingIndex | protocol/src/virtqueue.c:396-407 | a peer index outside the window is a fault, an equal one is nothing pending |
| Virtqueue.Virtqueue.TakeAvailable | protocol/src/virtqueue.c:423-451 | succeeds exactly when the peer's entry and descriptors make an admissible chain, and then claims that chain; every other answer leaves the tables as they were |
| Virtqueue.Virtqueue.MoveAccepted | protocol/src/virtqueue.c:453-471 | succeeds exactly for an accepted chain and a free, large enough destination, and moves it whole |
| Virtqueue.Virtqueue.ReturnAvailable | protocol/src/virtqueue.c:473-483 | succeeds exactly for the last-taken untouched chain, drops it and steps consumed back |
| Virtqueue.Virtqueue.CopyRequest | protocol/src/virtqueue.c:515-528 | returns a slice of the request within the readable length |
| Virtqueue.Virtqueue.WriteResponse | protocol/src/virtqueue.c:530-542 | appends within the writable length or changes nothing in the tables |
| Virtqueue.Virtqueue.Complete | protocol/src/virtqueue.c:545-565 | stores the used entry with the head and the written length, announces it and drops the chain |
| Virtqueue.Virtqueue.TakeUsed | protocol/src/virtqueue.c:567-592 | accepts a used entry exactly when it names a submitted chain and fits its writable part, and faults otherwise |
| Virtqueue.Virtqueue.CopyResponse | protocol/src/virtqueue.c:594-607 | returns a slice of the response within the used length |
| Virtqueue.Virtqueue.Release | protocol/src/virtqueue.c:609-617 | succeeds exactly for a returned chain and frees it |
| Virtqueue.Virtqueue.Arm | protocol/src/virtqueue.c:619-637 | stores consumed in the event word and reports ready exactly when the peer's index, read afterwards, is ahead; which words these are is stated by `BellCalls.ArmIsSteps` |
| RingCalls.PublishIsSteps | protocol/src/virtqueue.c:284-338 | publish of an admissible chain over one memory is a run of the driver steps: the same stores in the same order, the same tables, no fault |
| RingCalls.TakeAvailableIsSteps | protocol/src/virtqueue.c:340-451 | take_available over any memory, honest or not, is a run of the device steps: both find nothing, both fault, or both hold the same chain in the same tables |
| TakenChains.TakesWhatIsSpelled | protocol/src/virtqueue.c:340-451 | over any memory, take_available takes a chain exactly when one is announced and memory spells an admissible chain from the head in the ring entry, by absolute address; and it is that chain |
| RingCalls.CompleteIsSteps | protocol/src/virtqueue.c:545-565 | complete over one memory is the two store steps of the device: same bytes, same tables |
| RingCalls.TakeUsedIsSteps | protocol/src/virtqueue.c:567-592 | take_used over any memory, honest or not, is the two look steps of the driver: both find nothing, both fault, or both accept the same entry |
| BellCalls.ArmIsSteps | protocol/src/virtqueue.c:619-637 | arm over one memory is the store of the event word and a look at the index: the side goes to sleep exactly when arm reports nothing, and the word the peer's publications read holds the count it stopped at |
| BellCalls.PublishRings | protocol/src/virtqueue.c:284-338 | publish over one memory is its steps, and rings the device's bell exactly when it reports notify |
| BellCalls.CompleteRings | protocol/src/virtqueue.c:545-565 | complete over one memory is its steps, and rings the driver's bell exactly when it reports notify |
| RingBells.RunFollows | protocol/src/virtqueue.c:271-281 | on every interleaving of both sides over one memory, with all decisions made from the words in memory, the ring stays in order and each direction of the lane is a run of the handshake |
| RingBells.NobodyOversleeps | protocol/src/virtqueue.c:619-637 | so on no run does a driver or a device sleep with work waiting, the peer done publishing and nobody having rung |
| RingBells.EventsAreLaidOut | protocol/src/virtqueue.c:619-637 | while a side is armed or asleep, the word behind the ring it writes, by absolute address, holds the count it stopped at |
| Doorbell.NotifiesExactly | protocol/src/virtqueue.c:271-281 | advancing by one notifies exactly when the event word equals the old index |
| Doorbell.NotifyMeans | protocol/src/virtqueue.c:271-281 | a publication notifies exactly when the event word names its position, modulo 2^16 |
| Doorbell.FindsExactly | protocol/src/virtqueue.c:619-637 | the check in arm finds work exactly when the stored index is ahead |
| Doorbell.RunKeeps | protocol/src/virtqueue.c:271-281 | the handshake invariant holds after every interleaving of stores, drains, fences and loads |
| Doorbell.NoLostWakeup | protocol/src/virtqueue.c:619-637 | between producer calls, a consumer asleep after arm returned not ready, with unconsumed work, has been rung |
| Doorbell.FirstPublicationNotifies | protocol/src/virtqueue.c:271-281 | on every run in which an arm found nothing at a count and the next publication is about to decide, it notifies if and only if the event word still names that count, and always when no event store came in between |
| Doorbell.ProducerWakes | protocol/src/virtqueue.c:271-281 | from any reachable state the producer finishes its call in three steps, and then no sleeper with work is left unrung |
| Doorbell.RearmSilences | protocol/src/virtqueue.c:619-637 | a run in which an arm found nothing and the next publication does not notify, because the consumer armed again |
| Doorbell.FencesNeeded | protocol/src/virtqueue.c:271-281 | without the fences a run loses the wakeup |
| Channel.ValidateRegions | protocol/src/protocol.c:101-126 | accepts exactly lists of well-formed, disjoint regions |
| Channel.QueueRangesUnique | protocol/src/protocol.c:145-168 | accepts exactly when the three ring areas of a queue are apart from each other and from all earlier ones |
| Channel.ValidateQueues | protocol/src/protocol.c:170-231 | accepts exactly the queue lists with known fields, distinct identities, at most one event queue, a request queue, and aligned ring areas in read-write regions |
| Channel.ValidateChannel | protocol/src/protocol.c:233-250 | accepts exactly the valid channels |
| Channel.RingAreasDisjoint | protocol/src/protocol.c:145-231 | all ring areas of all lanes of a valid channel are pairwise disjoint |
| Channel.RingInOneRegion | protocol/src/protocol.c:53-73 | each ring area lies in one region that has both the read bit and the write bit, and touches no other |
| Ranges.OverlapNonEmptyIsExact | protocol/src/virtqueue.c:41-43 | the overlap test in wrapping 64-bit arithmetic is exact on ranges that do not wrap |
| MappedMemory.Init | protocol/src/virtqueue_memory.c:30-90 | accepts exactly disjoint well-formed mappings, in transport and in host addresses, with arenas inside them no two of which overlap |
| MappedMemory.InitAsks | protocol/src/virtqueue_memory.c:30-90 | an accepted table has nonzero addresses, lengths and queue ids, no range that wraps, and rights that are read, write or both |
| MappedMemory.ResolvesUniquely | protocol/src/virtqueue_memory.c:16-28 | a nonempty range is inside at most one mapping |
| MappedMemory.NativeInjective | protocol/src/virtqueue_memory.c:30-90 | different transport addresses are different host bytes |
| MappedMemory.FlatRead | protocol/src/virtqueue_memory.c:92-101 | reading through a mapping reads the flat transport memory |
| MappedMemory.FlatWrite | protocol/src/virtqueue_memory.c:103-112 | writing through a mapping writes the flat transport memory and no other transport byte |
| MappedMemory.DisjointKept | protocol/src/virtqueue_memory.c:92-112 | after a write at a range, a read at any disjoint transport range, in any mapping, returns what it did before, and a read at the range itself returns what was written |
| MappedMemory.ArenasIsolate | protocol/src/virtqueue_memory.c:139-154 | ranges allowed to two queue ids share no byte |
| MappedMemory.AllowedIsMapped | protocol/src/virtqueue_memory.c:139-154 | an allowed range lies in one mapping |
| MappedMemory.LanesIsolated | protocol/src/virtqueue_memory.c:139-154 | chains valid on two lanes share no payload byte |
| MappedMemory.MappedMemory.Resolve | protocol/src/virtqueue_memory.c:16-28 | finds a mapping that holds the range with the rights exactly when there is one |
| MappedMemory.MappedMemory.Read | protocol/src/virtqueue_memory.c:92-101 | returns the flat bytes, or fails exactly when no mapping allows it |
| MappedMemory.MappedMemory.Write | protocol/src/virtqueue_memory.c:103-112 | updates the flat memory at the range, or fails and changes nothing |
| MappedMemory.MappedMemory.LoadIndex | protocol/src/virtqueue_memory.c:114-122 | succeeds exactly when a readable mapping holds the word and both its transport and its host address are aligned, and the value is the two flat bytes, little-endian |
| MappedMemory.MappedMemory.StoreIndex | protocol/src/virtqueue_memory.c:124-132 | succeeds exactly when a writable mapping holds the word aligned on both sides, and then updates the two flat bytes and nothing else; otherwise changes nothing |
| MappedMemory.MappedMemory.PayloadAllowed | protocol/src/virtqueue_memory.c:139-154 | allows exactly ranges inside an arena of that queue with the rights |
| ControllerRuns.ApplyKeeps | src/controller/controller.c:157-231 | every call keeps the invariant: an action is pending exactly while starting or stopping, identifiers are nonzero exactly while held, idle holds nothing |
| ControllerRuns.CleanupAdvances | src/controller/controller.c:183-231 | each successful cleanup completion lowers a rank of at most five, and the last one leaves idle, the next generation, or a fault when a counter ran out |
| ControllerRuns.CleanupEnds | src/controller/controller.c:183-231 | successful completions end the cleanup after as many steps as the rank |
| ControllerRuns.StopEndsIdle | src/controller/controller.c:427-439 | from a running, handshaking or faulted controller, stop followed by successful completions of whatever is pending ends idle in the same generation |
| ControllerRuns.RestartEndsStarting | src/controller/controller.c:441-453 | restart followed by the same starts the next generation, or faults exactly when a counter ran out |
| ControllerRuns.StopAsks | src/controller/controller.c:203-224 | a stop of a live sandbox first asks it to quiesce, or terminates it after a fault |
| ControllerRuns.StartRuns | src/controller/controller.c:455-567 | a configured idle controller comes up: start, the host's answers to allocate, launch and transfer, and the ready report lead through the handshake to running, holding what the host gave |
| ControllerRuns.ReadyRuns | src/controller/controller.c:551-567 | a ready report makes the controller run exactly from the handshake of its own generation |
| ControllerRuns.TakenExactly | src/controller/controller.c:455-549 | a completion changes the controller exactly when it has the current generation, the pending token, a result a host may report and identifiers exactly where they are due |
| ControllerRuns.CompletionRefusals | src/controller/controller.c:455-500 | which refusal any other completion is answered with |
| ControllerRuns.FailureFaults | src/controller/controller.c:500-508 | a failed action faults the controller with the kind of the action, and keeps what is held |
| ControllerRuns.FaultsExactly | src/controller/controller.c:569-595 | a fault report is accepted exactly from the current generation of a sandbox that is up; a process exit takes it down |
| ControllerRuns.RefusalsMean | src/controller/controller.c:414-453 | what start, stop, restart and ready answer in the phases they are not for; they then change nothing |
| ControllerRuns.SettersExactly | src/controller/controller.c:272-335 | when the three setters succeed, byte by byte |
| ControllerSetup.ConfigurationSaid | src/controller/controller.c:272-335 | in every run the configuration is exactly what the last successful setter calls said |
| ControllerSetup.StartsExactly | src/controller/controller.c:157-181 | in every run, start succeeds exactly when the controller is idle, no counter is used up, and closure, three digests and four limits were set |
| ControllerRuns.ConfigurationFrozen | src/controller/controller.c:272-335 | outside idle the configuration is complete and no call changes it |
| ControllerRuns.CallGrows | src/controller/controller.c:79-119 | a call emits at most one action, tokens grow exactly with emissions, and generations only with a new allocation |
| ControllerRuns.RestartFailsOnlyByExhaustion | src/controller/controller.c:183-201 | while stopping, a call that reports success can fault the machine only because a counter ran out |
| ControllerHistory.RunOk | src/controller/controller.c:455-549 | after any sequence of calls, with any host answers, the history of actions and the machine agree |
| ControllerHistory.RevokeAfterExit | src/controller/controller.c:203-224 | revoke is never emitted while the sandbox of that generation is up |
| ControllerHistory.ReleaseComesLast | src/controller/controller.c:203-224 | release follows a completed revoke, a completed reset if one is required, and a reap if the sandbox was launched, all in that generation |
| ControllerHistory.QuiesceBeforeFault | src/controller/controller.c:569-595 | quiesce is never emitted after a fault in the same generation |
| ControllerHistory.ActionsNameTheirOwn | src/controller/controller.c:79-119 | in every run, an action that names a resource set names the one the completed allocation of its generation brought, and one that names a sandbox the one the completed launch brought; the others name none |
| ControllerHistory.TokensIncrease | src/controller/controller.c:79-119 | tokens strictly increase and a completion is of an action emitted before |
| ControllerObject.SandboxController.constructor | src/controller/controller.c:233-256 | a new controller is idle, unconfigured, and the host has seen nothing of it |
| ControllerObject.SandboxController.TeardownSafe | src/controller/controller.c:203-224 | of any controller object, after whatever calls: no revoke while the sandbox is up, release only after revoke, required reset and reap, no quiesce after a fault |
| ControllerObject.SandboxController.ActionsNameTheirOwn | src/controller/controller.c:500-549 | of any controller object: every action names the resource set and the sandbox the host gave its generation |
| ControllerObject.SandboxController.TokensGrow | src/controller/controller.c:79-119 | of any controller object: tokens of emitted and of completed actions strictly increase, and a completion is of an action emitted before |
| ControllerObject.SandboxController.Start | src/controller/controller.c:414-425 | start extends the log of what the host has seen by what the machine emits, keeps fields and log in agreement, and answers as the machine does |
| ControllerObject.SandboxController.Stop | src/controller/controller.c:427-439 | stop keeps fields and log in agreement and only extends the log |
| ControllerObject.SandboxController.Restart | src/controller/controller.c:441-453 | restart is a stop that comes up again; it keeps fields and log in agreement |
| ControllerObject.SandboxController.CompleteAction | src/controller/controller.c:455-549 | a stale or malformed completion is refused and leaves fields and log alone; any other is logged and advances both in agreement |
| ControllerObject.SandboxController.ReportReady | src/controller/controller.c:551-567 | ready is accepted from the current generation during the handshake; fields and log stay in agreement |
| ControllerObject.SandboxController.ReportFault | src/controller/controller.c:569-595 | a fault of the current generation is logged and starts an ungraceful cleanup; fields and log stay in agreement |
| ControllerObject.SandboxController.SetClosure | src/controller/controller.c:272-295 | configuration changes only while idle; a failed copy changes nothing; the log is left alone |
| ControllerObject.SandboxController.SetDigest | src/controller/controller.c:297-318 | the same for digests |
| ControllerObject.SandboxController.SetLimit | src/controller/controller.c:320-335 | the same for limits |
| Graphs.OrderedIsAcyclic | src/closure.c:826-847 | a graph whose nodes are listed after all their predecessors has no cycle |
| Graphs.StuckIsCyclic | src/closure.c:826-847 | nodes that each have a predecessor among themselves contain a cycle |
| Graphs.ClosedHolds | src/closure.c:849-876 | what the roots reach stays inside any closed set that holds the roots |
| NodeMap.Insert | src/closure.c:674-687 | one insertion sorts one entry more and permutes the table |
| NodeMap.Sort | src/closure.c:674-687 | sorts the table in place |
| NodeMap.Find | src/closure.c:689-708 | the binary search finds an entry of the id exactly when there is one |
| NodeMap.Build | src/closure.c:748-769 | the map holds every id with its position, sorted |
| NodeMap.Lookup | src/closure.c:689-708 | looking up an id gives its position in the artifact table |
| ClosureGraph.Link | src/closure.c:786-825 | either every dependency resolves and the arrays hold exactly the edge lists and incoming counts, or the graph is not valid |
| ClosureGraph.PeelEdge | src/closure.c:826-847 | removing an edge never underflows an incoming count and never queues more nodes than there are |
| ClosureGraph.PeelEnds | src/closure.c:826-847 | when nothing is left to peel, all nodes were listed exactly when the graph is acyclic |
| ClosureGraph.Peel | src/closure.c:826-847 | the in-place topological pass succeeds exactly on acyclic graphs |
| ClosureGraph.FloodEdge | src/closure.c:849-876 | following an edge marks its target once and never overflows the queue |
| ClosureGraph.Flood | src/closure.c:849-876 | the breadth-first pass succeeds exactly when every node is reachable from a root |
| ClosureGraph.ValidateGraph | src/closure.c:771-904 | given memory, accepts exactly when all dependencies name known nodes, no shared provider depends on a module, the graph is acyclic and every node is reachable from a root |
| ClosureIds.GraphById | src/closure.c:771-904 | that verdict does not depend on positions: it is one about node ids |
| ClosureIds.IdGraphSame | src/closure.c:771-904 | and it depends only on the sets of nodes and dependencies |
| ClosureRecords.NameOrder | src/closure.c:49-79 | the name comparison is a strict total order |
| ClosureRecords.NameBeforeMeans | src/closure.c:49-79 | it is dictionary order: the names agree up to a place where one ends or has the smaller byte |
| ClosureRecords.ComparatorsStrict | src/closure.c:30-97 | all six comparators are strict orders |
| ClosureRecords.UniqueOrdered | src/closure.c:30-133 | the uniqueness the builder enforces makes any two stored records of a table comparable |
| Sorting.SortDetermined | src/closure.c:99-133 | two sorted permutations of the same records are equal |
| ClosureSeal.ValidateArtifacts | src/closure.c:710-746 | accepts exactly tables with lifecycles set consistently, exported lifecycle symbols and a root |
| ClosureSeal.ValidateSymbols | src/closure.c:906-942 | accepts exactly when exports belong to known nodes and imports resolve over a dependency or are optional and absent |
| ClosureSeal.ValidateResources | src/closure.c:956-986 | accepts exactly when bindings name known slots and nodes and every slot is bound as its flags say |
| ClosureSeal.ValidateStorage | src/closure.c:988-1012 | given memory, accepts exactly the sealable storages |
| ClosureSeal.Clone | src/closure.c:1038-1088 | with memory the copy holds the same records, each table sorted; without memory there is no copy |
| ClosureSeal.Seal | src/closure.c:1104-1127 | given memory, seals exactly the sealable storages into a sorted copy; never seals another |
| ClosureSeal.SealabilitySame | src/closure.c:988-1127 | whether sealing succeeds depends only on the records added, not on their order |
| ClosureSeal.SealIsCanonical | src/closure.c:108-133 | so does the closure it returns |
| ClosureSeal.SealedRises | src/closure.c:108-133 | in a sealed closure node ids, dependency pairs, exports by node and symbol, imports by consumer and symbol, resource slots and bindings rise strictly with the index |
| ClosureSeal.CloneChangesNothing | src/closure.c:1038-1088 | cloning a sealed closure gives the same closure |
| ClosureRuns.RunSaid | src/closure.c:372-672 | after any sequence of accepted calls each table holds exactly the records those calls named, once each, with lifecycles and roots as set, within the limits |
| ClosureRuns.BuiltIsWellFormed | src/closure.c:372-672 | and every record is well formed: nonzero identifiers, valid names, namespaces used once, nonzero digests, only modules as roots, no self-dependency, bounds and rights in order |
| ClosureRuns.AddsExactly | src/closure.c:372-672 | a builder in order accepts a record exactly when its tables stay in order with it: keys distinct, records well formed, limits kept |
| ClosureRuns.MarksExactly | src/closure.c:463-475 | it marks a root exactly when that changes something and the tables stay in order |
| ClosureRuns.OrderDoesNotMatter | src/closure.c:372-672 | two accepted call sequences made of the same calls, in any order, leave the same records |
| ClosureRuns.SealsAlike | src/closure.c:988-1127 | and so seal alike: one succeeds exactly when the other does, and the closures are equal |
| ClosureBuilder.Builder.constructor | src/closure.c:329-356 | a builder starts empty with the manifest digest and no accepted call |
| ClosureBuilder.Builder.AddArtifact | src/closure.c:372-414 | with memory, accepted exactly when the fields are valid and no artifact has the id or the namespace; then recorded, otherwise nothing changes. The storage is always the run of the accepted calls |
| ClosureBuilder.Builder.SetLifecycle | src/closure.c:416-456 | accepted exactly for an artifact without a lifecycle and valid names; the storage stays the run of the accepted calls |
| ClosureBuilder.Builder.MarkRoot | src/closure.c:463-475 | accepted exactly for a module that is not a root yet; the storage stays the run of the accepted calls |
| ClosureBuilder.Builder.AddDependency | src/closure.c:477-503 | accepted exactly for a new edge between two different nodes; the storage stays the run of the accepted calls |
| ClosureBuilder.Builder.AddExport | src/closure.c:505-539 | the same for a new valid export |
| ClosureBuilder.Builder.AddImport | src/closure.c:541-585 | the same for a new valid import |
| ClosureBuilder.Builder.AddResource | src/closure.c:587-641 | the same for a valid resource with a new slot |
| ClosureBuilder.Builder.BindResource | src/closure.c:643-672 | the same for a new binding |
| ClosureBuilder.Builder.Seal | src/closure.c:1104-1127 | given memory, sealing succeeds exactly when what the accepted calls built is sealable, and gives its canonical closure |
| Partitions.PartitionRanges | protocol/src/resource_grant.c:240-346 | ranges that tile a table in order are forced: each is the range of its key |
| Partitions.SortedPartitions | protocol/src/resource_grant.c:240-346 | a table sorted by known keys is tiled by the ranges of those keys |
| Partitions.PartitionAssigns | protocol/src/resource_grant.c:477-566 | if ranges tile a table by rising keys, each row lies in exactly one range, that of its own key |
| GrantRecords.SlotCanonical | protocol/src/resource_grant.c:642-676 | a slot row is the encoding of a slot exactly when its fields say so and its reserved bytes are zero |
| GrantRecords.ObjectCanonical | protocol/src/resource_grant.c:678-707 | the same for object rows |
| GrantRecords.HandleCanonical | protocol/src/resource_grant.c:709-730 | the same for handle rows |
| ResourceGrant.HeaderCanonical | protocol/src/resource_grant.c:431-476 | the same for the header |
| ResourceGrant.DecodeSound | protocol/src/resource_grant.c:394-566 | an accepted string is an encoding of the source its accessors return, and that source is valid |
| ResourceGrant.DecodeComplete | protocol/src/resource_grant.c:394-566 | every encoding of a valid source is accepted and gives that source back |
| ResourceGrant.DecodesExactlyEncodings | protocol/src/resource_grant.c:240-566 | decode accepts a string exactly when it is the encoding of some valid source |
| ResourceGrant.EncodingUnique | protocol/src/resource_grant.c:240-346 | a source has one encoding |
| ResourceGrant.DecodedRangesTile | protocol/src/resource_grant.c:477-566 | in an accepted string every object lies in the range of exactly one slot, the one it names, and every handle in the range of exactly one object, the one it names |
| GrantDecoder.FindSlot | protocol/src/resource_grant.c:348-369 | the binary search over slot rows agrees with linear search |
| GrantDecoder.FindObject | protocol/src/resource_grant.c:371-392 | the binary search over object rows agrees with membership |
| GrantDecoder.Decode | protocol/src/resource_grant.c:394-566 | the cursor passes accept exactly what decoding promises, with the right error otherwise |
| GrantEncoder.SourceValid | protocol/src/resource_grant.c:127-207 | the merge passes accept exactly the valid sources |
| GrantBuffer.Encode | protocol/src/resource_grant.c:240-346 | writes the encoding into the buffer and leaves the rest of it alone, or refuses and changes nothing |
| GrantBuffer.EncodeDecodes | protocol/src/resource_grant.c:240-566 | encoding and decoding a valid source gives it back |
| ManifestLayout.ReadWritten | protocol/src/closure_manifest.c:451-526 | the tables and strings cut out of a written manifest are the ones that were written |
| ManifestLayout.WrittenRead | protocol/src/closure_manifest.c:451-526 | a string whose header is in order is what writing its tables and strings gives |
| ManifestRecords.ArtifactRowIs | protocol/src/closure_manifest.c:603-653 | an artifact row is the encoding of its fields and references exactly when the reserved bytes are zero |
| ManifestRecords.ImportRowIs | protocol/src/closure_manifest.c:703-744 | an import row is exactly its fields and references |
| ManifestRecords.ResourceRowIs | protocol/src/closure_manifest.c:774-811 | a resource row is exactly its fields with zero reserved bytes |
| ManifestRecords.RefReads | protocol/src/closure_manifest.c:176-202 | a name appended at the cursor is what its reference reads from the finished table |
| ManifestRoundTrip.TextSmall | protocol/src/closure_manifest.c:103-141 | the string table of a source within the limits always fits its 32-bit field |
| ManifestRoundTrip.EncodingDecodes | protocol/src/closure_manifest.c:204-601 | for every encodable source the accessors return the source record by record and name by name, and decode accepts exactly when the record rules hold |
| ManifestRoundTrip.StretchedDecodes | protocol/src/closure_manifest.c:400-426 | the same with any string table that starts with the packed names: the accessors return the source, and decode accepts exactly when the record rules hold |
| ManifestCanonical.DecodedEncodes | protocol/src/closure_manifest.c:451-601 | what an accepted string holds can be encoded, and decodes to the same records |
| ManifestCanonical.CanonicalWhenPacked | protocol/src/closure_manifest.c:176-202 | an accepted string is the encoding of what it holds exactly when its references are packed in order |
| ManifestCanonical.SlackIsAccepted | protocol/src/closure_manifest.c:451-601 | for every valid source, unused bytes after the last name, up to the 32-bit total size, give an accepted string with the same records that is not its encoding and is not packed |
| ManifestDecoder.ReadHeader | protocol/src/closure_manifest.c:451-526 | accepts exactly headers in order, with the right error otherwise |
| ManifestDecoder.ReadArtifact | protocol/src/closure_manifest.c:603-653 | returns the artifact with its names exactly when the row and the record rules allow |
| ManifestDecoder.ReadDependency | protocol/src/closure_manifest.c:679-701 | the same for dependencies |
| ManifestDecoder.ReadExport | protocol/src/closure_manifest.c:746-772 | the same for exports |
| ManifestDecoder.ReadImport | protocol/src/closure_manifest.c:703-744 | the same for imports |
| ManifestDecoder.ReadResource | protocol/src/closure_manifest.c:774-811 | the same for resources |
| ManifestDecoder.ReadBinding | protocol/src/closure_manifest.c:813-831 | the same for bindings |
| ManifestDecoder.HasNode | protocol/src/closure_manifest.c:428-449 | the binary search agrees with linear membership |
| ManifestDecoder.CheckArtifacts | protocol/src/closure_manifest.c:527-544 | accepts exactly good rows with strictly rising ids and a root among them |
| ManifestDecoder.Decode | protocol/src/closure_manifest.c:451-601 | accepts exactly what decoding promises, with the right error otherwise |
| ManifestEncoder.AddSize | protocol/src/closure_manifest.c:44-50 | the division guard refuses exactly the sums that do not fit |
| ManifestEncoder.SourceStringSize | protocol/src/closure_manifest.c:103-141 | accepts exactly valid names, and the size is that of the string table; its guards never fire |
| ManifestEncoder.EncodedSize | protocol/src/closure_manifest.c:156-174 | succeeds exactly for encodable sources, with the length of the encoding |
| ManifestEncoder.StoreName | protocol/src/closure_manifest.c:176-202 | a name goes to the cursor and its reference into the row; an empty one is a zero reference |
| ManifestBuffer.StoreImports | protocol/src/closure_manifest.c:329-355 | after the last name the cursor is exactly the size of the string table |
| ManifestBuffer.Encode | protocol/src/closure_manifest.c:204-387 | writes the encoding into the buffer and leaves the rest of it alone, or refuses and changes nothing |
| Sha256Compress.Schedule | protocol/src/sha256.c:47-60 | the message schedule is that of section 6.2.2 of FIPS 180-4 |
| Sha256Compress.Transform | protocol/src/sha256.c:23-92 | the loop over working variables is the 64-round compression function |
| Sha256Compress.BlockWords | protocol/src/sha256.c:11-14 | the first sixteen schedule words are the numbers the block spells, high byte first |
| Sha256Compress.DigestSpells | protocol/src/sha256.c:16-21 | for each of the eight words, the four digest bytes at its place spell it as a number, high byte first |
| Sha256Compress.SpelledOnce | protocol/src/sha256.c:16-21 | only one string of 32 bytes does |
| Sha256.LengthFieldExact | protocol/src/sha256.c:132-156 | the 64-bit length field holds the bit length exactly for messages below 2^61 bytes |
| Sha256.AbsorbPart | protocol/src/sha256.c:109-130 | filling the block, and compressing it when full, absorbs the bytes copied |
| Sha256.Context.constructor | protocol/src/sha256.c:94-107 | a new context has absorbed nothing |
| Sha256.Context.Update | protocol/src/sha256.c:109-130 | update appends to the absorbed message, whatever the sizes, unless the byte count would overflow |
| Sha256.Context.Finish | protocol/src/sha256.c:132-156 | the digest spells, word by word and high byte first, the fold of the compression function over the padded blocks of section 5.1.1 of FIPS 180-4 |
| Sha256.HashParts | protocol/src/sha256.c:158-167 | for every split into update calls the digest spells the hash of the concatenation |
| Sha256Vector.HashOfEmpty | protocol/src/sha256.c:23-156 | the hash of the empty message is the published one, which fixes the constants, the padding and the order of the working variables |
| Refcount.Linearizes | protocol/generated/include/kobox2/core_runtime.h:517-592 | in every interleaving without a trap, completed operations are a sequential history that produces the value and the results |
| Refcount.TrapsExactly | protocol/generated/include/kobox2/core_runtime.h:517-592 | in every interleaving a step traps exactly when its thread sees the current count and the operation is one that count forbids: increment at zero or one below saturation, increment-not-zero one below saturation, decrement at zero; the word is then saturated |
| Refcount.CompletesAlone | protocol/generated/include/kobox2/core_runtime.h:517-592 | in every interleaving, a thread left alone with an operation that is not forbidden completes it within two iterations, with the result and the count of a plain counter, and disturbs no other thread |
| Refcount.CompletesAtOnce | protocol/generated/include/kobox2/core_runtime.h:517-592 | one that begins now completes in one iteration |
| Refcount.FirstOperation | protocol/generated/include/kobox2/core_runtime.h:517-592 | from a fresh counter the first operation that is not forbidden does what a plain counter does, without a trap |
| Refcount.CountIsExact | protocol/generated/include/kobox2/core_runtime.h:517-592 | the value is the initial count plus increments minus decrements |
| Refcount.LastReferenceOnce | protocol/generated/include/kobox2/core_runtime.h:569-592 | at most one decrement reports the last reference |
| Refcount.ZeroStays | protocol/generated/include/kobox2/core_runtime.h:542-567 | a count that reached zero is zero for the rest of the history |
| Refcount.ZeroIsFinal | protocol/generated/include/kobox2/core_runtime.h:517-592 | from zero, after any steps of any threads, the value is zero or a trap has saturated it |
| Refcount.SaturatedIsFinal | protocol/generated/include/kobox2/core_runtime.h:517-592 | once saturated, no thread ever changes the value |
| GpuCommand.RegionsValid | protocol/src/gpu.c:181-202 | accepts exactly regions with distinct ids, nonzero length and known rights |
| GpuCommand.SpansValid | protocol/src/gpu.c:222-265 | accepts exactly spans with rising ids inside their regions, with the rights, that do not conflict |
| GpuCommand.SpansSeparated | protocol/src/gpu.c:217-265 | an accepted span lies inside its region, asks only for rights the region has and has the right bit each flag needs; two spans of one region of which one has the write bit are disjoint |
| GpuCommand.AttachmentsValid | protocol/src/gpu.c:280-309 | accepts exactly attachments with rising ids and valid fields of the generation |
| GpuCommand.ArgumentsValid | protocol/src/gpu.c:361-403 | accepts exactly arguments with rising ids and valid references that name every span and attachment |
| GpuCommand.PairedOnce | protocol/src/gpu.c:635-782 | as many arguments as entries, every entry named: then no entry is named twice |
| GpuCommand.SpansPaired | protocol/src/gpu.c:361-403 | in an accepted command span arguments and spans are in one-to-one correspondence |
| GpuCommand.AttachmentsPaired | protocol/src/gpu.c:361-403 | attachment arguments and attachments are in one-to-one correspondence |
| GpuRequest.CheckArguments | protocol/src/gpu.c:678-743 | every argument but the inline record has a contract it meets, and the counters count the kinds |
| GpuRequest.GenericRequestValid | protocol/src/gpu.c:635-782 | accepts exactly the requests that meet the catalog: inline record, contracts, counts and required arguments |
| GpuRequest.CommandAllowed | protocol/src/gpu.c:142-160 | a command is allowed exactly when the first set of the profile with its set id has the queue class and counts the command |
| GpuRequest.CommandValid | protocol/src/gpu.c:1634-1669 | the checks in order accept exactly the commands outside the amdgpu set whose envelope is in order, whose set allows them, whose deadline is set exactly for waits, and whose tables are accepted |

## Left out

- Per-command GPU semantics (amdgpu, mode, virtgpu, core) and the shape headers: long finite case lists.
- GpuRequest.CommandValid: which sets a profile has and which commands wait are parameters, not tables; the further semantics of core, mode and virtgpu commands and the request format of amdgpu are not modelled.
- GPU command encode and decode framing: field-by-field copies behind the validators that are modelled.
- Channel and message envelope encode and decode in `protocol/src/protocol.c`: fixed-size field copies.
- Fixed-size codecs (`block_device.c`, `filesystem.c`, `gpu_session.c`, `gpu_completion.c`) and the filesystem opcode table.
- `kb2_vq_peek_available`, the count accessors of the codecs, and `kb2_resource_grant_validate_manifest`: easy members.
- The allocator, `memcpy` and `memset`: allocation may fail by a parameter. `qsort` is any sorted permutation.
- NULL arguments and misaligned counter pointers: references in the model are never null.
- Compiler memory orders: the handshake has one store buffer per side, drained by the fence; counters are sequentially consistent.
- The x86_64 atomics, core-runtime operation tables and the header generator.
- RingBells: a store is in memory at once; stores that wait in a buffer, and the fences, are in Doorbell.
- SplitRing appends a response in one step: a response is not visible to the driver before its used entry is.
- Doorbell indices stay within one ring of each other (a window of at most 32768), as the queue engine guarantees.
