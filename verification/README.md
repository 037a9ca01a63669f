# Verified model of the capture path

This project models, in Dafny, how system events get from the kernel to the capture library: the
serialiser that writes an event, the per-CPU ring it goes into, the reader that merges all rings by
time, and the machinery around them (sampling, re-entry, consumers, CPU times, the thread list, and
the BPF variant with its frames and perf rings).

The main results are these.

- **The ring is a queue of events.** In every interleaving of producer and consumer steps, down to
  single bytes stored and copied, the bytes between tail and head, read through the double mapping,
  are the published and unconsumed events in order (`RingProtocol.StepRefines`,
  `RingRuns.AlwaysInv`, `RingRuns.RunIsFifo`). The producer never touches what the reader holds, with a
  tail of any age (`RingProtocol.WriteMissesReader`, `RingProtocol.LentIsStable`), the "- 1" in the space
  computation is exactly needed (`RingProtocol.BudgetIsTight`), and the reader's corruption branch is
  unreachable (`RingProtocol.NeverCorrupt`).
- **The methods on memory implement that protocol.** `RingDevice.Device` works on a byte array: an event
  offered by a filler is either published whole, as the encoding of its arguments, or leaves the
  queue as it was, and either way memory changes along a path of producer steps
  (`RingDevice.Device.RecordEvent`, `RingPaths.PublishPath`).
- **Events read back.** Whatever calls a filler makes, the 16-bit length table cuts the payload back
  into the arguments (`ArgEncoding.EventRoundTrip`, `RingDevice.OfferedRoundTrip`), both for the kernel
  and for the BPF frame (`BpfChain.FrameRoundTrip`), where every mask is proved to be the identity. What
  each argument says is a law on the bytes stored, type by type, that the serialiser keeps and that
  admits nothing else (`ArgEncoding.EncodedLaw`, `ArgEncoding.ArgumentOnly`, `BpfFrame.PushedLaw`); which
  events are committed, and for what reason others are dropped, is decided call by call
  (`RingDevice.OfferedLaw`, `RingDevice.OfferOnly`, `BpfChain.SentLaw`, `BpfChain.SentOnly`).
- **The merge is exact.** Between two refills the reader returns the part of every batch that
  precedes a timestamp of 2^64-1, once, in order; the stream is sorted exactly when the batches are
  (`ScapMerge.BetweenRefills`, `ScapMerge.DrainDelivers`, `ScapMerge.DrainIsSorted`).
- **Reader and producers together.** With the reader's scan, refill and flush going ring by ring and any
  producer stepping in between, in every run from fresh rings the events published on each CPU are those
  that left its ring, returned or flushed, followed by those waiting, unless an event of that CPU is
  stamped 2^64-1 (`RingReader.EveryCpuInOrder`); the returns follow the merge
  (`RingReader.ReturnsFollowMerge`) and come in order of time (`RingReader.ReturnsAreSorted`); a call left
  alone ends, with the first event of the merge or at a refill (`RingReader.CallAlone`).
- **Perf rings.** Over every interleaving of arrivals and the library's steps, the samples that arrived
  are those visited, those lent and those not yet lent, in order, and every lost note is counted once
  (`PerfWalk.EverySampleOnce`). A perf ring is, for the merge, a loan of the events its samples carry,
  so the merge over perf rings is the merge (`PerfMerge.Handle.NextLive`, `PerfMerge.PerfBetweenReads`),
  and the events the probe sends come through whatever records surround them
  (`PerfMerge.EventsComeThrough`).
- **`scale_stime` never divides by zero exactly for run times below 2^63** (`CpuTime.WellDefinedIff`);
  it keeps every bit of the total exactly when the total has 32 bits and the operands 64 together
  (`CpuTime.TotalKeptIff`), with the accuracy that follows (`CpuTime.ScaledAccuracy`), and else drops as
  many bits as either is over (`CpuTime.ScaledByDrops`). CPU-time reports are monotone and cover the
  run time under concurrent compare-and-swap (`CpuReports.ReportsCoverRuntime`,
  `CpuReports.ReportsAreMonotone`), and user and system time each grow by their own share only
  (`CpuReports.TargetsShare`, `CpuReports.ReportsAreShares`).
- **Kernel and BPF sampling differ by exactly one event per DROP_X** (`Sampling.StreamsAgree`), and
  markers are conserved under failing inserts (`Sampling.MarkersAccounted`), which also gives the exact
  condition for the markers to alternate (`Sampling.MarkersAlternateIff`). Over every run the events kept
  are those in the first 1/ratio of their second, and those that must be (`Sampling.RunKeeps`,
  `Sampling.ProbeKeeps`, `Sampling.KeptOffsets`).
- **Consumers.** Each operation on a device is given ring by ring: when it succeeds, each error by its
  reason, what changes, and that no other ring of any consumer does (`ConsumerLifecycle.OpenLaw`,
  `ConsumerLifecycle.ReleaseLaw`, `ConsumerLifecycle.CaptureLaw`); over every run capture implies an open,
  allocated ring (`ConsumerLifecycle.AlwaysSafe`).
- **Copies from user memory.** The chunked string copy refines a byte-by-byte one, with the exact
  condition under which it gives up early (`UserCopy.ChunkedRefines`); argv survives the trip
  (`UserCopy.ArgvRoundTrip`); the iovec merge is a prefix of the buffers (`IovecMerge.MergedIsPrefix`,
  `IovecMerge.ParsedIsPrefix`), with every failure by its reason (`UserCopy.AccumulatedLaw`,
  `IovecMerge.ParsedFails`).

Where a property does not hold of the code, there is an input that shows it and the exact condition
under which it does hold:

| property | input | exact condition |
|---|---|---|
| a readable string is copied | `UserCopy.ChunkedFaultsWitness` | `UserCopy.ChunkedRefines` |
| strings that do not fit are reported as a full buffer | `UserCopy.FullWitness` | `UserCopy.FullOnlyWhenExactlyFilled` |
| a new read lends no event twice | `RingRuns.RereadRepeats`, `ScapMerge.SentinelRepeats` | `RingRuns.RereadExact`, `ScapMerge.RefillIsFreshIff` |
| all events of a batch are returned | `ScapMerge.SentinelRepeats` | `ScapMerge.DrainDeliversAll` |
| the scaling keeps every bit of the total, and so stays within the run time | `CpuTime.ScaledCanExceedRuntime` | `CpuTime.TotalKeptIff` |
| the scaling divides by something | `CpuTime.ShiftedAway` | `CpuTime.WellDefinedIff` |
| events counted by the probe are sent or counted as dropped | `BpfChain.SilentWitness` | `BpfChain.SilentIff` |
| drop markers alternate | `Sampling.ExitCanComeFirst` | `Sampling.MarkersAlternateIff` |
| the size of a vectored write is the sum of its lengths | `IovecMerge.SizeWraps` | `IovecMerge.PushedSizeMeaning` |
| a perf ring is read out | `PerfWalk.FullReadsEmpty` (1) | `PerfWalk.ReadSizeExact`, `PerfMerge.TimeoutIffRoom` |
| every consumer has an open ring | `ConsumerLifecycle.LeftBehind` | `ConsumerLifecycle.TidyOpenIff` |
| a retry asks for more room | `ThreadList.RetryCanShrink` (1) | `ThreadList.RetryGrows`, `ThreadList.RetryHoldsIff` |

(1) Inputs that the code admits and Linux does not produce: its perf writer always leaves a byte free, and
it never has 2^32 - 200 threads.

Concurrency is modelled by steps: an interleaving of the steps is a run, and a memory barrier is a
step boundary. Allocation, page faults, time, the size of the snapshot and the outcome of kernel
calls are parameters. Machine words are unbounded integers with the wrap-around written out where it
can matter.

## Files

| file | content |
|---|---|
| `Bytes.dfy`, `Events.dfy`, `EventQueue.dfy` | words in memory, event framing, the abstract queue and the reader's loan |
| `RingProtocol.dfy`, `RingRuns.dfy`, `RingMapping.dfy` | the ring as steps, its runs, its mapping |
| `RingPaths.dfy`, `RingDevice.dfy` | paths of producer steps, and the methods on memory |
| `ArgEncoding.dfy`, `EventFiller.dfy` | the event format and the serialiser |
| `UserCopy.dfy`, `IovecMerge.dfy` | string copy, argv and env, readv and writev buffers |
| `ScapMerge.dfy` | the reader's merge over all CPUs |
| `RingMerge.dfy`, `RingReader.dfy` | the merge over rings in memory, and its runs with all producers |
| `PreemptGate.dfy`, `Sampling.dfy`, `ConsumerLifecycle.dfy` | re-entry and counters, dropping mode, consumers |
| `CpuTime.dfy`, `CpuReports.dfy`, `ThreadList.dfy` | CPU-time scaling and reports, the thread list |
| `BpfFrame.dfy`, `BpfChain.dfy` | BPF frames, filler chains |
| `PerfWalk.dfy`, `PerfMerge.dfy` | the walk over a perf ring and its runs, the merge over perf rings |

## Model

| member | source | states |
|---|---|---|
| Events.SplitConcat | userspace/libscap/scap.c:1104-1148 | two stretches of whole events in a row are one, with the events of both |
| Events.FramedRest | userspace/libscap/scap.c:1104-1148 | cutting at an event boundary leaves whole events |
| Events.JoinSplit | userspace/libscap/scap.c:1104-1148 | walking by the length fields loses nothing |
| Events.SplitJoin | userspace/libscap/scap.c:1104-1148 | events written back to back are read as exactly those events |
| EventQueue.LoanNext | userspace/libscap/scap.c:1108-1119 | where the reader stands there is a whole event, the oldest unread one |
| EventQueue.LoanTaken | userspace/libscap/scap.c:1144-1148 | stepping over the event is delivering it |
| EventQueue.LoanReleased | userspace/libscap/scap.c:911-945 | giving the region back removes exactly the lent events |
| EventQueue.LoanRenewed | userspace/libscap/scap.c:947-978 | a new read lends all published events |
| EventQueue.LoanFlushed | userspace/libscap/scap.c:1569-1584 | a flush discards exactly the unread events |
| RingProtocol.SpaceAccounting | driver/main.c:1627-1646 | free space, used space and the gap byte add up to the ring; the asserts hold; advancing tail by the read size reaches head |
| RingProtocol.WriteMissesReader | driver/main.c:1633-1646 | a store within the budget under a stale tail stays in the allocation and off every byte the reader may read, in both mappings |
| RingProtocol.BudgetIsTight | driver/main.c:1634-1639 | one byte more than the budget plus the terminator would hit tail or leave the allocation |
| RingProtocol.PublishedBytes | driver/main.c:1801-1829 | after the wrap copy the published window is the old one followed by the staged event, also across the end |
| RingProtocol.CopyStep | driver/main.c:1806-1818 | the wrap copy never reaches tail and changes nothing the reader sees |
| RingProtocol.WriteStep | driver/main.c:1700-1800 | filler stores keep the invariant and the queue |
| RingProtocol.PublishStep | driver/main.c:1820-1829 | moving head is enqueueing the staged event |
| RingProtocol.ReadStep | userspace/libscap/scap.c:947-978 | reading or flushing is borrowing or discarding |
| RingProtocol.TakeStep | userspace/libscap/scap.c:1128-1150 | taking an event delivers the oldest unread one |
| RingProtocol.ReleaseStep | userspace/libscap/scap.c:911-945 | advancing tail frees what was lent, wrap included |
| RingProtocol.StepRefines | driver/main.c:1627-1831 | every step of producer or consumer keeps the invariant and is a step of the queue |
| RingProtocol.NeverCorrupt | userspace/libscap/scap.c:1110-1119 | the corruption branch is unreachable |
| RingProtocol.LentIsStable | driver/main.c:1627-1831 | no producer step changes a byte lent to the reader |
| RingRuns.InitInv | driver/main.c:2142-2185 | a fresh ring satisfies the invariant and is the empty queue |
| RingRuns.AlwaysInv | driver/main.c:1627-1831 | every state of every interleaving satisfies the invariant |
| RingRuns.RereadExact | userspace/libscap/scap.c:1032-1046 | a new read keeps the unread events exactly when nothing lent was given out |
| RingRuns.RereadRepeats | userspace/libscap/scap.c:947-978 | a ring where a new read lends an event again |
| RingRuns.RunIsFifo | userspace/libscap/scap.c:893-978 | unread before plus published equals consumed plus unread after, as sequences, over every run |
| RingRuns.FreshRunIsFifo | userspace/libscap/scap.c:893-978 | from a fresh ring, published equals consumed followed by unread |
| RingMapping.MapRing | driver/main.c:1118-1280 | when the mapping is granted, and that it maps every page once and then again |
| RingMapping.MappingIsMirror | driver/main.c:1225-1262 | reading the mapping is reading the ring twice in a row |
| RingPaths.StoresPath | driver/main.c:1700-1800 | stores within the budget, one by one, are producer steps |
| RingPaths.CopyPath | driver/main.c:1806-1818 | so is the copy of the cushion |
| RingPaths.PublishPath | driver/main.c:1801-1831 | a successful event is a path of producer steps from the old state to the new one |
| RingPaths.AbortPath | driver/main.c:1832-1846 | so is a failed one |
| RingDevice.Stage | driver/main.c:1680-1800 | header, filler and length are written within the budget, and on success form the encoded event; else the outcome is the law's |
| RingDevice.OfferedRoundTrip | driver/main.c:1764-1790 | a committed event decodes to the filler's arguments, none over 65000 bytes |
| RingDevice.OfferedLaw | driver/main.c:1627-1846 | what becomes of an event: full if header and table do not fit; else the first failing call decides, kind for kind; else full if there are too few arguments, and committed if there is one for every parameter |
| RingDevice.OfferOnly | driver/main.c:1627-1846 | nothing else keeps that law |
| RingDevice.Device.constructor | driver/main.c:2142-2185 | a new ring is empty |
| RingDevice.Device.CopyCushion | driver/main.c:1806-1818 | the cushion is copied to the start without touching the window or the event |
| RingDevice.Device.PublishStaged | driver/main.c:1801-1831 | the staged event is appended to the queue |
| RingDevice.Device.RecordEvent | driver/main.c:1627-1846 | an event is published whole as its encoding or the queue is unchanged; one counter accounts for it; memory goes along a path of producer steps; which of these happens is the law of the offer, by the calls |
| RingDevice.Device.ReadBuf | userspace/libscap/scap.c:947-978 | position and length handed out; all published events are lent |
| RingDevice.Device.Flush | userspace/libscap/scap.c:1569-1584 | all published events are lent and none is left to read |
| RingDevice.Device.TakeNext | userspace/libscap/scap.c:1108-1150 | returns the oldest unread event; tail does not move |
| RingDevice.Device.AdvanceTail | userspace/libscap/scap.c:911-945 | releases exactly the lent events |
| ArgEncoding.EventRoundTrip | driver/ppm_events.c:443-741 | header length is header plus table plus data, and slicing by the table gives back the arguments |
| ArgEncoding.EventLayout | driver/ppm_events_public.h:1422-1431 | the format by byte offsets: each header field, each length and each argument |
| ArgEncoding.PayloadLaw | driver/ppm_events.c:492-728 | what each parameter type stores, read back: the low bytes of the value; the longest start of the string that fits with its NUL, or of "(NULL)"; the start of the buffer that value length, snaplen and space allow; and the exact case of each failure |
| ArgEncoding.EncodedLaw | driver/ppm_events.c:459-728 | the same for a whole argument: at most 65000 bytes, a dynamic one led by the index of its type |
| ArgEncoding.RepresentsOnly | driver/ppm_events.c:492-728 | the law of a value leaves no choice |
| ArgEncoding.ArgumentOnly | driver/ppm_events.c:459-728 | nor does that of an argument |
| ArgEncoding.FilledLaw | driver/ppm_events.c:443-741 | a filler, call by call: each succeeds in the space those before it leave, up to the first that fails, which decides how the filler fails |
| ArgEncoding.FilledOnly | driver/ppm_events.c:443-741 | nothing else keeps that law |
| ArgEncoding.FilledIsSmall | driver/ppm_events.c:466-467 | no argument is longer than 65000 bytes |
| ArgEncoding.Filled | driver/ppm_events.c:443-741 | a filler's arguments stay within the space it was given and are as many as its calls |
| EventFiller.WriteString | driver/ppm_events.c:492-532 | the string and its terminator, at most one byte past the space |
| EventFiller.WriteUserBuf | driver/ppm_events.c:533-582 | lookahead copy, snaplen, then the rest: the captured prefix of the user buffer, or the fault |
| EventFiller.WriteValue | driver/ppm_events.c:470-728 | each parameter type stores the value whose law is `ArgEncoding.PayloadLaw`, or fails as it does, and writes nothing else |
| EventFiller.EventArgs.constructor | driver/main.c:1680-1712 | an empty argument list behind the header |
| EventFiller.EventArgs.ValToRing | driver/ppm_events.c:443-741 | one call appends exactly its encoded argument to table and data, or fails as the value does; offset plus remaining size is constant; the bytes appended keep the law of the argument |
| EventFiller.EventArgs.RunFiller | driver/ppm_events.c:443-741 | calls in order up to the first failure give the filler's value |
| UserCopy.StrNCpyFromUser | driver/ppm_events.c:113-161 | returns the chunked result, copies that many bytes, writes only the n bytes |
| UserCopy.ByteByByteMeaning | driver/ppm_events.c:113-161 | the reference copy returns the index of the first NUL plus one |
| UserCopy.ChunkedRefines | driver/ppm_events.c:113-161 | the chunked copy agrees with the reference exactly unless the chunk of the NUL is not all readable |
| UserCopy.ChunkedFaultsWitness | driver/ppm_events.c:113-161 | an input where it gives up although the string is readable |
| UserCopy.AccumulateArgv | driver/ppm_fillers.c:530-575 | the strings one after the other with their NULs, within the space |
| UserCopy.AccumulatedLaw | driver/ppm_fillers.c:530-575 | the first strings are fetched in the space left to each; then the list ends, or the next finds no space, or cannot be fetched: the result in each case |
| UserCopy.ArgvRoundTrip | driver/ppm_fillers.c:530-575 | splitting the buffer at its NULs gives back the argv list |
| UserCopy.FullOnlyWhenExactlyFilled | driver/ppm_fillers.c:530-575 | "buffer full" is returned exactly when a proper prefix of the strings fills the space to the last byte |
| UserCopy.FullWitness | driver/ppm_fillers.c:530-575 | a string that does not fit is reported as a fault, one that would start at the very end as a full buffer |
| UserCopy.ExeArgsRoundTrip | driver/ppm_fillers.c:791-810 | the exe parameter is argv[0], the args parameter splits into the rest |
| IovecMerge.SumLengths | driver/ppm_events.c:1144-1157 | the pushed size, in 64-bit arithmetic |
| IovecMerge.PushedSizeMeaning | driver/ppm_events.c:1144-1157 | exactly when it is the sum of lengths capped by the return value of a successful read |
| IovecMerge.SizeWraps | driver/ppm_events.c:1144-1157 | a size for which it is not |
| IovecMerge.MergedIsPrefix | driver/ppm_events.c:1183-1242 | succeeds exactly when every wanted byte is readable, and is then the prefix of the buffers that fits |
| IovecMerge.MergeBuffers | driver/ppm_events.c:1183-1242 | the loop computes that merge behind the table, which stays intact |
| IovecMerge.ParsedIsPrefix | driver/ppm_events.c:1113-1242 | on success the data is the prefix of the buffers that fits behind the table and, for a read, was read |
| IovecMerge.ParsedFails | driver/ppm_events.c:1113-1242 | exactly when the call is refused as full, and when as a fault |
| IovecMerge.ParsedSize | driver/ppm_events.c:1144-1157 | the size pushed, in figures |
| IovecMerge.ParseReadvWritev | driver/ppm_events.c:1113-1242 | the whole decision: size, data, both, or the failure |
| ScapMerge.Pick | userspace/libscap/scap.c:1075-1126 | the chosen CPU has the earliest first event, ties to the lowest CPU |
| ScapMerge.PickIsEarliest | userspace/libscap/scap.c:1104-1123 | the same in figures: no later than any other first event, earlier than those of lower CPUs, below 2^64-1 |
| ScapMerge.DrainDelivers | userspace/libscap/scap.c:1070-1160 | each batch is given out once, in order, up to the first event stamped 2^64-1 |
| ScapMerge.DrainDeliversAll | userspace/libscap/scap.c:1071-1124 | everything is given out exactly when no event carries that stamp |
| ScapMerge.DrainIsSorted | userspace/libscap/scap.c:1070-1160 | the stream is sorted by time, then CPU, exactly when each batch is sorted |
| ScapMerge.StreamInOrder | userspace/libscap/scap.c:1070-1160 | the same in figures, for sorted batches |
| ScapMerge.RenewedLendsAll | userspace/libscap/scap.c:947-978 | a read lends every event published |
| ScapMerge.Handle.Refill | userspace/libscap/scap.c:1012-1053 | every device is read anew |
| ScapMerge.Handle.FlushAll | userspace/libscap/scap.c:1569-1584 | every device is read and its batch emptied |
| ScapMerge.Handle.Inspect | userspace/libscap/scap.c:1094-1124 | the first event of a device, compared and checked; never corrupt |
| ScapMerge.Handle.Scan | userspace/libscap/scap.c:1075-1126 | used-up devices are given back and the pick is the merge's |
| ScapMerge.Handle.NextLive | userspace/libscap/scap.c:1058-1162 | one call takes the pick, or refills when none is left; it never fails |
| ScapMerge.ScannedIsValid | userspace/libscap/scap.c:1079-1093 | giving back a used-up device frees its events and keeps its batch |
| ScapMerge.TakenIsValid | userspace/libscap/scap.c:1144-1148 | taking an event delivers it and leaves the rest of the batch |
| ScapMerge.NextPops | userspace/libscap/scap.c:1128-1150 | one call returns the head of the merge, and its bytes stay lent |
| ScapMerge.UnreadFalls | userspace/libscap/scap.c:1144-1148 | the total unread length falls by the event returned |
| ScapMerge.CallsFollowMerge | userspace/libscap/scap.c:1058-1162 | successive calls, with arrivals between them, return the merge without gap or repeat |
| ScapMerge.BetweenRefills | userspace/libscap/scap.c:1058-1162 | from one refill to the next the calls return the whole merge |
| ScapMerge.RefillIsFreshIff | userspace/libscap/scap.c:1012-1053 | a refill keeps the unread events of all devices exactly when each is used up or untouched |
| ScapMerge.RefillIsFresh | userspace/libscap/scap.c:1012-1053 | without events stamped 2^64-1 every device is used up by then |
| ScapMerge.SentinelRepeats | userspace/libscap/scap.c:1071-1160 | with one, an event already returned is lent again |
| RingMerge.ReleaseIsReleased | userspace/libscap/scap.c:911-945 | moving tail in a ring gives its loan back |
| RingMerge.ReadIsRenewed | userspace/libscap/scap.c:947-978 | reading a ring renews its loan |
| RingMerge.TakeIsTaken | userspace/libscap/scap.c:1144-1148 | stepping over an event in a ring takes the front of its loan |
| RingMerge.ProducerArrives | driver/main.c:1627-1831 | any producer step on any ring is an arrival for the merge |
| RingMerge.StampInMemory | userspace/libscap/scap.c:1101-1119 | the timestamp read from memory is the merge's, and the length never exceeds what is held |
| RingMerge.WaitingGrows | driver/main.c:1801-1831 | a producer step adds to what is waiting the event it publishes, and nothing else |
| RingMerge.WaitingTaken | userspace/libscap/scap.c:1128-1150 | taking an event removes it from the front of what is waiting |
| RingMerge.WaitingReread | userspace/libscap/scap.c:947-978 | a new read leaves what is waiting exactly when nothing lent was given out |
| RingReader.TurnKeeps | userspace/libscap/scap.c:1012-1162 | every step of the scan, the refill or a flush, and every producer step in between, keeps accounts, pick and merge |
| RingReader.ProduceKeeps | driver/main.c:1627-1831 | producer steps between the reader's keep them |
| RingReader.ReturnKeeps | userspace/libscap/scap.c:1128-1150 | the event the scan settled on is the head of the merge |
| RingMerge.WaitingFlushed | userspace/libscap/scap.c:1569-1584 | a flush discards exactly what is waiting |
| RingMerge.PendingSteps | driver/main.c:1801-1831 | publishing appends to what is pending, giving back leaves its end, and no other step changes it |
| RingReader.NothingFound | userspace/libscap/scap.c:1152-1160 | a scan that finds nothing has returned the whole merge; every ring is given back or held up by an event stamped 2^64-1 |
| RingReader.RefillKeeps | userspace/libscap/scap.c:1032-1046 | reading one ring anew keeps the accounts: nothing is lost or repeated on a ring that is not held up |
| RingReader.FlushKeeps | userspace/libscap/scap.c:1569-1584 | flushing one ring, with producers on all others at work, keeps the accounts: what was waiting is discarded |
| RingReader.EveryCpuInOrder | userspace/libscap/scap.c:1012-1162 | over every run: published on a CPU ends with what is pending, and equals what left the ring, returned or flushed in order, followed by waiting unless an event of that CPU is stamped 2^64-1 |
| RingReader.ConsumedIsReturned | userspace/libscap/scap.c:1128-1150 | in a run without a flush what left a ring is what was returned with its CPU |
| RingReader.ReturnsFollowMerge | userspace/libscap/scap.c:1058-1162 | over every run, unless a refill or flush is under way: returned since the last one, with the rest of the merge, is the merge of what it read |
| RingReader.RefillIsDisciplined | userspace/libscap/scap.c:1032-1046 | over every run: no ring without events stamped 2^64-1 is read anew while part of its batch has been given out |
| RingReader.ReturnsAreSorted | userspace/libscap/scap.c:1070-1160 | over every run: sorted publishing gives sorted returns between refills, ties by CPU |
| RingReader.ScanTurn | userspace/libscap/scap.c:1076-1123 | a turn of the scan goes on by one ring and changes that ring only, by giving it back if used up |
| RingReader.CallEnds | userspace/libscap/scap.c:1125-1160 | the end of the scan returns the first event of the merge, or begins the refill exactly when there is none |
| RingReader.RefillTurn | userspace/libscap/scap.c:1032-1046 | a turn of the refill lends the ring whole, and changes no other |
| RingReader.CallAlone | userspace/libscap/scap.c:1058-1162 | left alone, a call ends within a turn for every ring and two more, with the first event of the merge or at the refill |
| RingReader.RefillAlone | userspace/libscap/scap.c:1032-1046 | and the refill ends with every ring lent whole |
| Sampling.Consumer.constructor | driver/main.c:432-439 | a consumer starts not dropping and owing nothing |
| Sampling.Consumer.RecordEvent | driver/main.c:1545-1579 | owed marker, drop decision, insert, as one step; recursion two deep |
| Sampling.Consumer.RecordDropE | driver/main.c:1392-1404 | the entry marker is inserted or owed |
| Sampling.Consumer.RecordDropX | driver/main.c:1406-1418 | the exit marker is inserted or owed |
| Sampling.Consumer.DropEvent | driver/main.c:1483-1524 | verdict and change of the dropping state |
| Sampling.StepInserts | driver/main.c:1483-1579 | what one event makes the module insert, in order, by the arithmetic of its timestamp: the marker owed, the marker due, the event if kept; and what the ring answers to each |
| Sampling.RunKeeps | driver/main.c:1483-1579 | over every run the events inserted or attempted are exactly those kept: all with dropping mode off; else those never dropped, and plain ones below 10^9/ratio in their second, none of them without state |
| Sampling.DroppingIsLatest | driver/main.c:1508-1524 | over every run and in both drivers dropping is on exactly when the latest sampled event was past that offset |
| Sampling.KeptOffsets | driver/main.c:1508-1516 | of each second exactly the first 10^9/ratio nanoseconds are kept |
| Sampling.KeptByRatio | driver/main.c:868-871 | with ratio 1 all plain events are kept, and a higher ratio only drops more |
| Sampling.MarkersAccounted | driver/main.c:1392-1524 | dropping equals entries minus exits; every entry is a committed, an owed or a superseded marker; owed exactly when the last attempt failed; over every run |
| Sampling.MarkersFromOpen | driver/main.c:432-439 | the same for every run of a consumer from its opening |
| Sampling.ExitCanComeFirst | driver/main.c:1566-1578 | a run where an exit marker is committed before any entry marker |
| Sampling.AttemptInStep | driver/main.c:1392-1418 | an attempt keeps the markers alternating exactly when it leaves the flags even |
| Sampling.MarkersAlternateIff | driver/main.c:1483-1579 | over every run and whatever the ring answers: committed markers alternate exactly when no attempt leaves the flags uneven |
| Sampling.OutOfStepIff | driver/main.c:1483-1579 | which attempts those are, by the three flags, while no marker has been superseded |
| Sampling.MarkersAlternate | driver/main.c:1483-1524 | when inserts succeed markers alternate and an event follows each exit |
| Sampling.Probe.DropEvent | driver/bpf/plumbing_helpers.h:328-422 | the probe's verdict and its change of event type |
| Sampling.BpfStepAdds | driver/bpf/plumbing_helpers.h:328-422 | what one event adds to the probe's stream, by the arithmetic of its timestamp |
| Sampling.ProbeKeeps | driver/bpf/plumbing_helpers.h:328-482 | over every run the last event is in the stream if kept, or the marker that takes its place |
| Sampling.Probe.CallFiller | driver/bpf/plumbing_helpers.h:436-482 | what the probe sends for one event |
| Sampling.SmoothRun | driver/main.c:1483-1524 | the kernel's stream over a run in which inserts succeed |
| Sampling.BpfThins | driver/bpf/plumbing_helpers.h:328-422 | the probe's stream is that one thinned |
| Sampling.StreamsAgree | driver/bpf/plumbing_helpers.h:328-422 | the probe's stream is the kernel's without the event after each DROP_X |
| PreemptGate.StepKeepsInv | driver/main.c:1594-1625 | preempt_count is the number of calls that hold it; at most one is past the gate; events counted are accounted for or in hand |
| PreemptGate.OneWriter | driver/main.c:1600-1625 | never two calls past the gate, in any run |
| PreemptGate.GateShut | driver/main.c:1600-1625 | while one is past the gate, others are refused |
| PreemptGate.GateOpensIff | driver/main.c:1600-1625 | a call passes exactly when no other is between raising the count and lowering it, else it is refused |
| PreemptGate.Conservation | driver/main.c:1594-1862 | with no call in progress, n_evts is the sum of all outcomes |
| PreemptGate.CountersAreOutcomes | driver/main.c:1801-1846 | each counter is the number of calls with its outcome |
| ConsumerLifecycle.Devices.FindConsumer | driver/main.c:247-261 | the first consumer with the id |
| ConsumerLifecycle.Devices.InitRings | driver/main.c:367-396 | all rings blank, then set up for online CPUs, or failure |
| ConsumerLifecycle.Devices.OpenRings | driver/main.c:268-273 | whether any ring is open |
| ConsumerLifecycle.Devices.OpenDevice | driver/main.c:297-527 | the whole of open: every error case and the new state |
| ConsumerLifecycle.Devices.ReleaseDevice | driver/main.c:529-636 | the whole of release; closing an open file succeeds |
| ConsumerLifecycle.Devices.SwitchCapture | driver/main.c:779-822 | capture on and off; on an open file it succeeds |
| ConsumerLifecycle.OpenLaw | driver/main.c:297-527 | an open succeeds exactly for a caller listed or admissible on a usable ring that is not open; each error exactly by its reason; the ring is then open and not capturing, its file in the list, and every other ring as before or as a new consumer has it |
| ConsumerLifecycle.ReleaseLaw | driver/main.c:529-636 | a release succeeds exactly on an open ring; file and ring are closed, the consumer goes with its last open ring, the tracepoints with the last consumer, and no other ring changes |
| ConsumerLifecycle.CaptureLaw | driver/main.c:779-822 | the flag of that ring is set, and nothing else differs |
| ConsumerLifecycle.HotplugLaw | driver/main.c:2322-2355 | a CPU is online or not, for the driver and for the ring of every consumer, and nothing else differs |
| ConsumerLifecycle.OpKeeps | driver/main.c:297-822 | every operation keeps the invariant |
| ConsumerLifecycle.OpenKeeps | driver/main.c:297-527 | opening keeps it |
| ConsumerLifecycle.ReleaseKeeps | driver/main.c:529-636 | closing keeps it |
| ConsumerLifecycle.HotplugKeeps | driver/main.c:2322-2355 | CPUs coming and going keep it |
| ConsumerLifecycle.AlwaysSafe | driver/main.c:297-822 | over every run: few and distinct consumers; capture implies open, open implies buffer, info and registered tracepoints |
| ConsumerLifecycle.RegisteredForSomeone | driver/main.c:581-613 | over every run: tracepoints are registered only while the list is not empty |
| ConsumerLifecycle.FreedOnlyWhenClosed | driver/main.c:263-292 | a consumer disappears only by closing the last of its open rings |
| ConsumerLifecycle.TidyOpenIff | driver/main.c:398-416 | an open leaves a consumer without open ring exactly when it is a first open on an offline CPU |
| ConsumerLifecycle.LeftBehind | driver/main.c:398-416 | one such open |
| ConsumerLifecycle.TidyOtherwise | driver/main.c:529-822 | no other operation does |
| CpuTime.ScaleStime | driver/ppm_cputime.c:172-210 | for all words the loop ends and shifts do not overflow; the result is the balanced quotient, or a division by zero exactly when the total has been shifted away |
| CpuTime.NeverZero | driver/ppm_cputime.c:176-203 | the divisor keeps a bit for run times below 2^63 |
| CpuTime.WellDefinedIff | driver/ppm_cputime.c:176-208 | it does so for all system times and totals exactly below that bound |
| CpuTime.ShiftedAway | driver/ppm_cputime.c:176-203 | beyond it there are inputs whose total is shifted away |
| CpuTime.TotalKeptIff | driver/ppm_cputime.c:176-203 | no bit of the total is dropped exactly when it has 32 bits and the operands 64 together, or one is zero |
| CpuTime.BalanceDrops | driver/ppm_cputime.c:176-203 | for all inputs exactly as many bits of the total go as it has over 32, or the operands over 64 together, and the product never gains |
| CpuTime.ScaledByDrops | driver/ppm_cputime.c:176-208 | what that makes of the result |
| CpuTime.ScaledAccuracy | driver/ppm_cputime.c:176-208 | on exactly those inputs the result is below the quotient and the run time, and within 2^32/total + 1 of the quotient |
| CpuTime.ScaledExact | driver/ppm_cputime.c:176-208 | with 32-bit run time and total it is the quotient |
| CpuTime.ScaledCanExceedRuntime | driver/ppm_cputime.c:176-208 | just outside, an input where the result exceeds the run time |
| CpuReports.PrevCputime.Advance | driver/ppm_cputime.c:221-227 | the later of two values |
| CpuReports.PrevCputime.Divide | driver/ppm_cputime.c:263-276 | the three ways to divide the run time give each side its share |
| CpuReports.PrevCputime.Adjust | driver/ppm_cputime.c:233-284 | reports do not go back, cover the run time, and are left alone if they already do; else each counter advances to its share |
| CpuReports.TargetsSplit | driver/ppm_cputime.c:263-276 | where no bit of the total is dropped user and system time add up to the run time |
| CpuReports.TargetsShare | driver/ppm_cputime.c:263-276 | without user time all is system time, without system time all is user time; else the system time is the scaled one, within 2^32/total + 1 below its share by ticks where no bit is lost, and the user time is the rest |
| CpuReports.AdjustedLaw | driver/ppm_cputime.c:233-284 | a report is the counters, each advanced to its share unless their sum covers the run time |
| CpuReports.ReportShares | driver/ppm_cputime.c:233-284 | a first report is the share itself; without user time user time never grows, without system time system time never does |
| CpuReports.StepKeepsInv | driver/ppm_cputime.c:221-284 | no load or compare-and-swap of any caller lowers a counter |
| CpuReports.ReportsCoverRuntime | driver/ppm_cputime.c:221-284 | over every schedule counters never decrease and every report covers its run time |
| CpuReports.ReportsAreMonotone | driver/ppm_cputime.c:221-284 | a caller that starts after another has finished reports no less |
| CpuReports.ReportsAreShares | driver/ppm_cputime.c:221-284 | over every schedule user time comes from user shares and system time from system shares, or from the start |
| CpuReports.OneSidedReports | driver/ppm_cputime.c:221-284 | so if no caller has seen user time no report shows more of it, and the same for system time |
| CpuReports.AloneIsAdjust | driver/ppm_cputime.c:221-284 | undisturbed, the steps of one caller amount to the method |
| CpuReports.NeverWraps | driver/ppm_cputime.c:260-276 | while no sample drops a bit of its total, no sum or difference of the counters wraps |
| CpuReports.OldPrevCputime.Adjust | driver/ppm_cputime.c:302-339 | the older report with its 64-bit arithmetic: it does not go back, and covers the run time without passing it |
| CpuReports.OldAdjustLaw | driver/ppm_cputime.c:302-339 | the user time advances to its share by ticks of the 64-bit product, the system time to what is missing |
| CpuReports.OldShareExactIff | driver/ppm_cputime.c:302-315 | that share is the exact quotient exactly when the product fits a word |
| CpuReports.OldRunsAreMonotone | driver/ppm_cputime.c:302-339 | over runs with nondecreasing run time the user time stays within it, so the difference never wraps, and reports never decrease |
| ThreadList.GetProclist | driver/main.c:645-747 | all threads are counted; the list is delivered exactly when there is room to spare |
| ThreadList.RetryGrows | userspace/libscap/scap.c:1864-1872 | the next size grows by 256 at least exactly when the 32-bit sum does not wrap |
| ThreadList.RetryHoldsIff | userspace/libscap/scap.c:1864-1872 | the next size holds the threads counted exactly when the sum does not wrap; if not, as many threads are refused again |
| ThreadList.RetryCanShrink | userspace/libscap/scap.c:1864-1872 | a count for which it does not |
| ThreadList.Handle.AllocProclistInfo | userspace/libscap/scap.c:1800-1829 | refused from 128000 entries on or without memory |
| ThreadList.Handle.GetThreadlist | userspace/libscap/scap.c:1831-1884 | ends whatever the thread count does, within a bounded number of tries, with all threads of the last one or with the limit or memory exhausted |
| BpfFrame.MaskIdentity | driver/bpf/types.h:160-168 | a mask is the identity exactly within its range, also in the off-by-one form |
| BpfFrame.WriteBuf | driver/bpf/filler_helpers.h:752-802 | the captured prefix of a buffer, within the scratch area |
| BpfFrame.WriteArg | driver/bpf/filler_helpers.h:735-871 | each type stores its payload at the masked offset |
| BpfFrame.PlaceArg | driver/bpf/filler_helpers.h:873-877 | index byte, value and length slot |
| BpfFrame.FramePayloadLaw | driver/bpf/filler_helpers.h:735-871 | what each type puts in the frame, read back, and the exact case of each failure |
| BpfFrame.PushedLaw | driver/bpf/filler_helpers.h:712-884 | the same for a whole argument at its offset, with the index byte and the limits |
| BpfFrame.FrameArgOnly | driver/bpf/filler_helpers.h:712-884 | nothing else keeps that law |
| BpfFrame.FinishFrame | driver/bpf/ring_helpers.h:52-70 | the frame sent is the encoded event |
| BpfFrame.Frame.constructor | driver/bpf/plumbing_helpers.h:175-184 | a scratch area with no event in it |
| BpfFrame.Frame.ResetTailCtx | driver/bpf/plumbing_helpers.h:424-434 | a new event starts with no header and no arguments |
| BpfFrame.Frame.WriteEvtHdr | driver/bpf/ring_helpers.h:12-24 | the header is in place and both offsets are behind the table |
| BpfFrame.Frame.ValToRing | driver/bpf/filler_helpers.h:712-884 | a call appends exactly its argument; both offsets stay header plus table plus data; stores stay in the scratch area |
| BpfFrame.Frame.PushEvtFrame | driver/bpf/ring_helpers.h:41-93 | a frame is offered exactly when complete and small enough, and is then the event; the push succeeds also when its CPU is gone and nothing is sent |
| BpfChain.FrameValsSplit | driver/bpf/fillers.h:33-58 | how calls are divided among programs does not matter |
| BpfChain.Program | driver/bpf/fillers.h:33-58 | one program writes the header only if it is the first |
| BpfChain.Chain | driver/bpf/fillers.h:33-58 | a chain sends what its calls, its ending and the perf ring's answer amount to, with one header |
| BpfChain.SentLaw | driver/bpf/fillers.h:62-103 | what becomes of an event, call by call and by its ending: the failure of the first failing call, a push only of a complete event of at most 65523 bytes |
| BpfChain.SentOnly | driver/bpf/fillers.h:62-103 | nothing else keeps that law |
| BpfChain.FrameRoundTrip | driver/bpf/ring_helpers.h:41-70 | a frame sent is a whole event within a perf record with one argument for each parameter, and decodes to them |
| BpfChain.Probe.constructor | driver/bpf/types.h:223-231 | counters start at zero |
| BpfChain.Probe.RecordEvent | driver/bpf/fillers.h:62-103 | each event counted is sent, counted as dropped for its reason, or lost silently, and the counters add up exactly when none is lost so; nested events are not counted |
| BpfChain.SilentIff | driver/bpf/plumbing_helpers.h:466-481 | an event is lost silently exactly when no program is reached, its filler skips it, or its complete frame meets a CPU that is gone |
| BpfChain.SilentWitness | driver/bpf/ring_helpers.h:70-92 | one such event |
| PerfWalk.SeekFindsFirst | userspace/libscap/scap_bpf.h:102-155 | a walk passes over no sample and adds exactly the notes it passes |
| PerfWalk.SeekIsSuffix | userspace/libscap/scap_bpf.h:154-155 | what is left is the end of the stretch |
| PerfWalk.WalkIsExact | userspace/libscap/scap_bpf.h:88-158 | every sample once and in order, every lost note once |
| PerfWalk.StreamRead | userspace/libscap/scap_bpf.h:22-32 | whatever records the kernel writes, the walk finds its samples whole and in order and adds up its losses; the layout by byte offsets |
| PerfWalk.ReadSizeExact | userspace/libscap/scap_bpf.h:60-86 | the read size is head minus tail exactly when the ring is not full |
| PerfWalk.FullReadsEmpty | userspace/libscap/scap_bpf.h:60-86 | a full ring reads as an empty one |
| PerfWalk.UnreadIsLent | userspace/libscap/scap_bpf.h:88-158 | what is unread is the end of what is lent, across the end of the ring |
| PerfWalk.PerfDevice.StepOver | userspace/libscap/scap_bpf.h:141-152 | the cursor stays in the ring |
| PerfWalk.PerfDevice.Walk | userspace/libscap/scap_bpf.h:88-158 | the loop stops where the walk does, across the end of the ring |
| PerfWalk.PerfDevice.AdvanceToEvt | userspace/libscap/scap_bpf.h:88-158 | next event, remaining length and lost count |
| PerfWalk.ReadOutIs | userspace/libscap/scap_bpf.h:177-197 | what a read makes of a ring: the loan, and the place of the first sample in it |
| PerfWalk.PassOnIs | userspace/libscap/scap.c:1135-1142 | what moving on makes of it |
| PerfWalk.TailMoves | userspace/libscap/scap_bpf.h:160-175 | moving tail leaves exactly what was not lent |
| PerfWalk.ArrivalKeeps | userspace/libscap/scap_bpf.h:60-158 | records stored behind head leave what the reader holds alone |
| PerfWalk.SamplesConcat | userspace/libscap/scap_bpf.h:102-155 | two stretches of records in a row hold the samples and losses of both |
| PerfWalk.TurnAccount | userspace/libscap/scap_bpf.h:88-197 | every arrival and every step of the library keeps the account of samples and losses |
| PerfWalk.EverySampleOnce | userspace/libscap/scap_bpf.h:88-197 | over every run from an empty ring: arrived equals visited, lent and not yet lent, in order, for samples, and in sum for losses; with nothing outstanding all were visited and counted |
| PerfWalk.PerfDevice.Readbuf | userspace/libscap/scap_bpf.h:177-197 | everything outstanding is lent, or nothing if the ring is exactly full, and the first sample found |
| PerfWalk.PerfDevice.NextEvt | userspace/libscap/scap.c:1135-1142 | the walk from the sample in hand to the next |
| PerfWalk.PerfDevice.AdvanceTail | userspace/libscap/scap_bpf.h:160-175 | exactly what was lent goes back |
| PerfWalk.PerfDevice.Arrive | userspace/libscap/scap_bpf.h:60-158 | records arriving behind head extend what is outstanding and leave what the reader holds alone |
| PerfMerge.PayloadIsSamples | userspace/libscap/scap_bpf.h:53-58 | the events carried, read by their lengths, are those of the samples, one each and in order |
| PerfMerge.EventsComeThrough | userspace/libscap/scap_bpf.h:22-58 | the events put into samples are the reader's batch, one each and in order, padding and other records aside |
| PerfMerge.StampInMemory | userspace/libscap/scap.c:1094-1119 | timestamp and length found in the data of the next sample are those of the merge, and never corrupt |
| PerfMerge.GiveBackIsReleased | userspace/libscap/scap_bpf.h:160-175 | moving tail in a perf ring gives its loan back |
| PerfMerge.ReadIsRenewedIff | userspace/libscap/scap_bpf.h:177-197 | a read lends all events exactly when the ring has room for one byte more or carries none |
| PerfMerge.PassIsTaken | userspace/libscap/scap.c:1135-1142 | moving on takes the front event of the loan |
| PerfMerge.ArrivalArrives | userspace/libscap/scap_bpf.h:60-158 | records that arrive are an arrival of the events they carry |
| PerfMerge.SweptIsScanned | userspace/libscap/scap.c:1080-1093 | the scan gives back a perf ring as it does a loan, also one that held no sample |
| PerfMerge.Handle.Refill | userspace/libscap/scap.c:1032-1046 | every ring is read |
| PerfMerge.Handle.Inspect | userspace/libscap/scap.c:1094-1119 | whether the next event is earlier; the corruption branch is never taken |
| PerfMerge.Handle.Scan | userspace/libscap/scap.c:1076-1123 | used-up rings given back, and the pick of the merge |
| PerfMerge.Handle.NextLive | userspace/libscap/scap.c:1058-1162 | over perf rings a call returns the head of the merge, or finds none and reads every ring |
| PerfMerge.TimeoutIffRoom | userspace/libscap/scap.c:1012-1046 | a call that finds nothing is the merge's own exactly when every ring with events has room for one byte more |
| PerfMerge.PerfFollowsMerge | userspace/libscap/scap.c:1058-1162 | over every run of calls with arrivals in between, the returns follow the merge |
| PerfMerge.PerfBetweenReads | userspace/libscap/scap.c:1058-1162 | from one read to the next they are the whole merge |

## Left out

- Static tables (events, fillers, syscalls, flags, dynamic parameters) and the flag translators: finite data; parameter types are inputs.
- The individual `f_sys_*` and BPF fillers, `f_sys_autofill` and `poll_parse_fds`: a filler is any list of serialiser calls.
- `compute_snaplen` and `bpf_compute_snaplen`: an arbitrary number.
- Relaxed memory: barriers are step boundaries and steps are sequentially consistent.
- The device and procfs plumbing, and `mmap` of the string storage.
- ConsumerLifecycle.Devices.OpenDevice: tracepoint registration succeeds.
- The wait time of an empty refill, and `are_buffers_empty`.
- Suppressed threads, the user list, and the compat variants of argv and iovec parsing.
- The event mask: an event that is masked out returns before anything modelled here; a masked marker is a failed insert.
- The hotplug event that the BPF probe sends in place of another when `hotplug_cpu` is set.
- An invalid sampling ratio: the ratio of the model is the one the interval was computed from.
- The unit conversions of CPU times (`nsecs_to_jiffies64`, `nsec_to_clock_t`).
- The kernel's side of a perf ring: any content made of whole records, each sample carrying an event (the asserts of userspace/libscap/scap_bpf.h:106-117); its 64-bit positions are not wrapped.
- A BPF tail call that fails between two programs of a chain; the loader refuses an event without a filler (userspace/libscap/scap_bpf.c:778-783), so that outcome of the dispatch is `BpfChain.Unreached` for completeness.
- PerfWalk.EverySampleOnce: reads anew only when nothing is lent, as the assert of userspace/libscap/scap_bpf.h:189 demands.
- PerfMerge.Handle.NextLive: records arrive between calls only, and the count of losses is kept by `PerfWalk`.
- PerfMerge.Handle.Refill: the same.
- CpuReports.PrevCputime.Advance: without interference; see the next line.
- CpuReports.PrevCputime.Adjust: without interference; the interleaved form is the state machine of the same module.
- RingRuns.RunIsFifo: for runs that read anew only when nothing lent was given out; `RingReader.RefillIsDisciplined` shows that the reader does so when no event is stamped 2^64-1, and `RingRuns.RereadExact` what happens otherwise.
- RingRuns.FreshRunIsFifo: the same.
- ThreadList.Handle.GetThreadlist: fewer than 2^32 - 256 threads; from there on the same number of threads is refused again (`ThreadList.RetryHoldsIff`).
- ScapMerge.Handle.NextLive: producers step between calls only; `RingReader` has them step between any two rings of a scan or a refill.
- ScapMerge.Handle.Refill: the same.
- RingReader.ReturnsAreSorted: not while a refill or a flush is under way, when the batches are partly old and partly new.
