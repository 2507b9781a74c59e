# E2SAR: models and proofs

E2SAR moves event buffers over UDP. A segmenter cuts each event into datagrams, each
with a load-balancer (LB) and a reassembly (RE) header in front; a reassembler puts
the events together again from whatever arrives, in whatever order, and hands them
to the user through a queue. This project models that data plane, and the smaller
machinery around it, in Dafny, and proves what it does over all inputs and runs.

`dafny verify dfyconfig.toml` checks everything.

## The modules

| file | what it holds |
|---|---|
| `Types`, `Arithmetic`, `Sequences` | fixed-width integers; remainders and wrap-around; rings and increasing numbers |
| `Text`, `Wire` | string splitting, decimal numbers and percent-encoding; the headers as bytes, written in place and parsed |
| `Segmentation`, `Segmenter` | the cut of an event as a specification, and the loops that make it: `_send` in its three send modes, and the generator of `snifgen.py` |
| `Reassembly` | the reassembler as a state machine: one datagram, one visit of the garbage collector, one pop are one step each |
| `Assembly`, `Safety` | what a partly assembled item holds; safety over every run |
| `Arrivals`, `Duplicates`, `Repetition` | runs in which any datagram may arrive any number of times: what a thread holds; exactly when the events are still right; finishing again, and never finishing |
| `Completion`, `Delivery` | exactly when an event completes; keys do not interfere; completeness |
| `Ownership`, `LossAccounting`, `Reports` | where every buffer is; what the statistics add up to; which losses are recorded, under what, and what is handed over |
| `EndToEnd` | the safety theorem from the segmenter's bytes to the user's events |
| `Reassembler`, `ReceivePool` | the same steps as methods of objects with maps, buffers and a queue; any number of such threads over one queue |
| `IoUring`, `Drain` | pool workers, ring mutexes, the count of outstanding sends; when the drain loop waits for everything |
| `Pacing`, `Numbering`, `SyncStats` | the rate limiter, event numbers, sync-period statistics |
| `Pid`, `QueueDepth`, `Ports`, `Optimizations` | the control loop's sample ring, the queue-depth counter, port ranges and assignment, the optimisation word |
| `Uri`, `UriGrammar` | the EJFAT URI printer and parser; exactly which texts are taken apart, and into what |
| `UriRoundTrip`, `UriQuery` | what parsing a printed URI gives; what the parser answers to any text, and what is printed, letter by letter |

The reassembler's datagrams, allocations, clock readings and the success of a push
are part of the steps, so a theorem about all runs is a theorem about all networks,
heaps, clocks and queues. An allocation carries an identity and the arbitrary bytes
the new buffer holds.

## Where the code differs from what one might expect

- An offset-0 datagram always starts a new item, and the item it displaces is
  dropped without freeing its buffer. Hence an event completes if and only if its
  offset-0 datagram is the first of its datagrams to arrive
  (`Completion.CompletesIffZeroFirst`), and buffers leak exactly when an offset-0
  datagram meets an entry for its key (`Ownership.NoLeakWithoutCollision`).
- Bytes are counted, not tracked: one datagram delivered twice can queue an event
  with uninitialised bytes in it (`Duplicates.DuplicateCorrupts`). What finishes
  under a key is the event that was sent, whatever each new buffer held, if and only
  if no entry that became full had a fragment placed in it twice
  (`Duplicates.RightIffNoneRepeated`). No copy leaves its buffer either way
  (`Arrivals.RunIsDetermined`). After a key has finished it finishes again exactly
  where the later arrivals alone would finish it (`Repetition.FinishesAgain`,
  `Repetition.FinishesOnceIff`); a repetition that takes the count past the total
  makes the entry useless (`Repetition.OvershotRunNeverFinishes`).
- `eventSuccess` counts pushes that failed as well as those that succeeded.
- `string_to_port` checks the range after the value is cut to 16 bits, so "66560" is
  read as port 1024 and "-1" as port 65535; and it accepts any text after the digits,
  so "1024x" is read as port 1024 (`UriRoundTrip.BadPortsAreAccepted`). The check is
  right about a number exactly when it is a 16-bit number or its low 16 bits are below
  1024 (`UriRoundTrip.PortCheckIsOnLowBits`); which texts are taken for a port is
  `UriRoundTrip.TakenForPortIff`.
- `to_string` prints a session id without an address into the path, from where it
  is read back as part of the LB id, and it never prints the data port
  (`UriRoundTrip.RoundTrip`, `UriRoundTrip.DataPortSurvives`).
- The comment on the control loop speaks of a sliding window of about a second. The
  error of every step is multiplied with the time since the oldest sample kept and
  added to an integral that nothing is ever taken from (`Pid.IntegralNeverDecays`).
  With a clock that advances, a constant error is counted once for the time that has
  passed exactly when it is zero, or the ring has one place, or at most one step has
  been made (`Pid.ConstantErrorOnceIff`).
- Selecting optimisations twice brings the bit of 'none' back beside the others
  (`Optimizations.SecondSelectBringsNoneBack`).
- The rate limiter computes `bytes*8` in 32 bits; it paces an event if and only if
  the event is below 2^29 bytes and takes at least a microsecond
  (`Pacing.PacedIff`).
- An override of the event number and the fetch after it are two atomic actions. A
  call gets the number it asked for if and only if the last override before its
  fetch, plus the fetches since, is that number modulo 2^64
  (`Numbering.OverrideHonouredIff`). When two calls override at the same time, the
  first override is lost unless its number follows the other's
  (`Numbering.TwoOverrides`).
- The final io_uring drain waits for everything, in every run that queues some
  events, if and only if they come to fewer than 2^32 datagrams
  (`Drain.DrainIsCompleteIff`); the counter is a 32-bit one.
- A reader can see the queue depth as 2^64 - 1 (`QueueDepth.DepthCanWrap`).
- A comment in `include/e2sarDPReassembler.hpp` says that a port range k means
  2^k - 1 ports; the code opens 2^k.
- `genLBREPkt` subtracts only the LB and RE headers from its MTU, so with the same
  MTU it cuts elsewhere than the segmenter as soon as an event is cut at all
  (`Segmenter.SameMtuCutsDifferently`). Its loop ends if and only if the limit is
  positive or there is no payload (`Segmenter.GeneratorEndsIff`).
- `assignPortsToThreads` ends if and only if there is a thread, or no port
  (`Ports.AssignmentEndsIff`).
- `eventRate` is computed by no caller: sync messages report a constant rate.

## Model

| member | source | states |
|---|---|---|
| `Wire.RERoundTrip` | include/e2sarHeaders.hpp:21-102 | parsing the 20 big-endian RE bytes of any field values gives the fields back, and they validate |
| `Wire.REParseIsInjective` | include/e2sarHeaders.hpp:21-102 | 20 bytes that validate are the bytes of the fields read from them |
| `Wire.LBRoundTrip` | include/e2sarHeaders.hpp:111-275 | both versions of the LB header are read back as written, and only as their own version |
| `Wire.SyncRoundTrip` | include/e2sarHeaders.hpp:323-403 | the Sync header is read back as written and its version check passes |
| `Wire.REBytesAre` | include/e2sarHeaders.hpp:21-38 | the 20 RE bytes, one by one |
| `Wire.LBBytesAre` | src/e2sarDPSegmenter.cpp:744-754 | the 16 LB bytes of either version, one by one, with the port and slot that the segmenter chooses |
| `Wire.SyncBytesAre` | include/e2sarHeaders.hpp:323-403 | the 28 Sync bytes, one by one |
| `Wire.LBREHdr.SetRE` | include/e2sarHeaders.hpp:32-38 | writing the RE part in place changes its 20 bytes to those given, one by one, and nothing else |
| `Wire.LBREHdr.SetLB` | src/e2sarDPSegmenter.cpp:744-754 | writing the LB part of either version in place: version 3 puts the low bytes of the tick in 4 and 5, the others zeros; the entropy goes to 6 and 7, the tick to 8 to 15, most significant byte first |
| `Segmentation.CeilingCounts` | src/e2sarDPSegmenter.cpp:670 | the integer ceiling is the number of fragments |
| `Segmentation.CutIsFragments` | src/e2sarDPSegmenter.cpp:702-770 | the planned datagrams are exactly the fragments of the event, each once, by increasing offset |
| `Segmentation.CutTilesEvent` | src/e2sarDPSegmenter.cpp:702-770 | fragments are non-empty, contiguous, and their payloads in order are the event |
| `Segmentation.CutAt` | src/e2sarDPSegmenter.cpp:702-770 | fragment i of a cut starts i payload limits into the event |
| `Segmentation.DatagramsFitMtu` | include/e2sarHeaders.hpp:415-421 | no IP packet exceeds the MTU, full ones reach it, and none overruns the receive buffer |
| `Segmentation.MaxPayloadIff` | include/e2sarDPSegmenter.hpp:299-318 | exactly which MTUs leave room for a payload, and how much: the MTU less 64 or 84 bytes |
| `Segmentation.ParseStripsLB` | src/e2sarDPReassembler.cpp:337-357 | reading with the LB header is reading without its first 16 bytes |
| `Segmentation.ParseIffWritten` | src/e2sarDPReassembler.cpp:337-357 | a frame is read as a packet if and only if, behind the LB header, it is that packet's RE header followed by its payload |
| `Segmentation.DatagramParses` | src/e2sarDPReassembler.cpp:337-357 | every datagram the segmenter writes is read as the fragment it carries |
| `Segmenter.AddClockEntropy` | include/e2sarDPSegmenter.hpp:600-603 | only the 8 low bits of a clock sample are replaced, by the random byte |
| `Segmenter.SendThread.BufferCount` | src/e2sarDPSegmenter.cpp:670 | the branchless ceiling computes the number of datagrams |
| `Segmenter.SendThread.Gather` | src/e2sarDPSegmenter.cpp:735-765 | headers written in place and the segment together are the planned datagram |
| `Segmenter.SendThread.Fragment` | src/e2sarDPSegmenter.cpp:731-834 | the loop hands out the planned datagrams in order, fills the sendmmsg vector exactly, gives the callback to the last submission only, and stops where sendmsg fails |
| `Segmenter.SendThread.Transmit` | src/e2sarDPSegmenter.cpp:731-871 | success, error and message counts, and the outstanding sends, in each mode |
| `Segmenter.SendThread.Send` | src/e2sarDPSegmenter.cpp:660-871 | every mode hands the kernel the same planned list when no send fails; the bytes of datagram i say that it lies i limits into the event and carries what fits, with the event's number, data id and length; all carry the caller's entropy, or the drawn one when that is 0, and the clock sample, its low byte replaced if asked for; what is counted and reported in each mode |
| `Segmenter.SentSays` | src/e2sarDPSegmenter.cpp:715-754 | what is sent of an event carries, in its bytes, the entropy, tick, key, length and segment it should |
| `Segmenter.SqeAt` | src/e2sarDPSegmenter.cpp:782-812 | submission i carries datagram i, and the callback if and only if it is the last |
| `Segmenter.GenPackets` | scripts/scapy/snifgen.py:107-148 | the generator's loop makes the same cut for the same payload limit |
| `Segmenter.GeneratorEndsIff` | scripts/scapy/snifgen.py:107-148 | the generator's offset reaches the end of the payload if and only if the limit is positive or the payload empty, and then after as many turns as there are fragments |
| `Segmenter.SameMtuCutsDifferently` | scripts/scapy/snifgen.py:107-126 | for the same MTU the two cuts agree if and only if the event fits one datagram |
| `Reassembly.Blit` | src/e2sarDPReassembler.cpp:389-393 | a copy changes exactly the bytes of its segment |
| `Reassembly.StaleIff` | src/e2sarDPReassembler.cpp:258-264 | an entry is stale once a whole millisecond more than the timeout has passed |
| `Reassembly.SweepTakesTheStale` | src/e2sarDPReassembler.cpp:253-275 | one sweep removes exactly the stale entries, in whatever order it visits them |
| `Assembly.Absorbs` | src/e2sarDPReassembler.cpp:389-400 | a new fragment extends what an item holds by exactly its bytes |
| `Assembly.CountsAll` | src/e2sarDPReassembler.cpp:403 | the byte count reaches the total if and only if all fragments are there |
| `Safety.RunIsSafe` | src/e2sarDPReassembler.cpp:293-433 | every copy stays in bounds and every item in progress or finished holds sent bytes only, over any run |
| `Safety.QueuedEventsAreSentEvents` | src/e2sarDPReassembler.cpp:335-427 | with genuine datagrams, none twice, no run leaves a buffer, and what is queued is byte for byte what was sent under its key, once |
| `Arrivals.RunIsDetermined` | src/e2sarDPReassembler.cpp:361-427 | with any repetitions, every copy stays in bounds, and the entries and finished events are, byte for byte, what the arrivals since each entry was started make of its buffer |
| `Duplicates.FullIsEventIffDistinct` | src/e2sarDPReassembler.cpp:389-403 | a buffer whose byte count has reached the total is the event, whatever it held before, if and only if no fragment was placed twice |
| `Duplicates.RightIffNoneRepeated` | src/e2sarDPReassembler.cpp:361-427 | over any run, all that finishes under a key is the event sent, whatever each allocation of the run held, its own contents among them, if and only if no entry of it that became full had a fragment twice |
| `Duplicates.RightIffHeldRight` | src/e2sarDPReassembler.cpp:361-427 | with the memory the run has, all that finishes under a key is the event if and only if each full entry's buffer held the right bytes wherever no fragment was placed |
| `Duplicates.DuplicateCorrupts` | src/e2sarDPReassembler.cpp:400-403 | an input: a repeated datagram queues an event whose last byte is what the new buffer held |
| `Repetition.RunFinishesAt` | src/e2sarDPReassembler.cpp:403-427 | the finished events of a run are, in order, those of the steps that bring the entry they find to exactly its total |
| `Repetition.FinishesAgain` | src/e2sarDPReassembler.cpp:361-427 | once a thread has no entry for a key, the key finishes at exactly those later steps at which the later steps alone would finish it |
| `Repetition.FinishesOnceIff` | src/e2sarDPReassembler.cpp:361-427 | a key is among the finished events of a run at most once if and only if no step that finishes it is followed by one that finishes it again |
| `Repetition.FinishesIffHitsTotal` | src/e2sarDPReassembler.cpp:400-403 | until offset 0 replaces an entry or it expires, and whatever other steps come in between, its key finishes if and only if one of its datagrams brings the byte count to exactly the total |
| `Repetition.OvershotRunNeverFinishes` | src/e2sarDPReassembler.cpp:400-427 | an entry past its total stays past it and never finishes, until offset 0 replaces it or it expires |
| `Completion.LiveArrivals` | src/e2sarDPReassembler.cpp:361-387 | what survives of the arrivals of a key: all of them when offset 0 came first, else never all |
| `Completion.KeyFollowsArrivals` | src/e2sarDPReassembler.cpp:361-427 | the state of a key is a function of its arrivals so far |
| `Completion.CompletesIffZeroFirst` | src/e2sarDPReassembler.cpp:361-403 | an event completes if and only if all its datagrams arrive and offset 0 is the first; it leaks if and only if offset 0 comes later |
| `Delivery.KeyDependsOnItsOwnSteps` | include/e2sarUtil.hpp:526-539 | non-interference: what a thread knows of a key is what it would know from that key's steps alone |
| `Delivery.FinishOrder` | src/e2sarDPReassembler.cpp:403-427 | events finish in the order in which they become complete |
| `Delivery.EverythingIsDelivered` | src/e2sarDPReassembler.cpp:361-427 | completeness: every datagram once, offset 0 first, no expiry, no failing push: exactly the events sent are queued, whole, in completion order, and nothing is left over |
| `Ownership.EachBufferIsInOnePlace` | src/e2sarDPReassembler.cpp:361-424 | after any run every allocated buffer is in exactly one of the map, the queue, the user's hands, dropped, expired or displaced |
| `Ownership.NoLeakWithoutCollision` | src/e2sarDPReassembler.cpp:361-369 | nothing is displaced if and only if no offset-0 datagram met an entry for its key |
| `LossAccounting.LogLostBooks` | include/e2sarDPReassembler.hpp:262-280 | logging a loss keeps the books, and records a key at most once per thread |
| `LossAccounting.LossesAddUp` | src/e2sarDPReassembler.cpp:403-427 | in every reachable state the loss counters are the sizes of the lost sets and the records pushed, successes are accepted and refused pushes, and items started are in progress, finished, expired or displaced |
| `Reports.StepRecords` | include/e2sarDPReassembler.hpp:262-280 | a refused push, or a visit to an entry that has waited too long, puts the key among its thread's lost keys and, if it was not there, adds one record with thread, key, fragments and kind and one loss of that kind; no other step does any of this |
| `Reports.RunReports` | src/e2sarDPReassembler.cpp:403-427 | after any run a thread's lost keys are exactly those it refused or expired, the records are the first loss of each thread and key, those given out and those waiting in order, and each counter is the number of records of its kind |
| `Reports.RunHandsOver` | include/e2sarDPReassembler.hpp:150-161 | the user is given the events one at a time, the oldest first |
| `Reports.RunStarts` | src/e2sarDPReassembler.cpp:361-400 | an entry carries the time, total length and buffer of the datagram that started it, and counts the datagrams of its key that have reached its thread since |
| `Reports.LossCounts` | include/e2sarDPReassembler.hpp:262-280 | the fragments recorded with a loss are the datagrams of the key that have reached the thread since the one that started the item |
| `Reports.SweepIsVisits` | src/e2sarDPReassembler.cpp:253-275 | a sweep is one step of the state machine for each entry it visits, and nothing besides |
| `EndToEnd.GenuineParses` | src/e2sarDPReassembler.cpp:314-357 | a frame the segmenter sent fits the receive buffer, validates, and is read as its fragment, with or without a balancer |
| `EndToEnd.UserGetsSentEvents` | src/e2sarDPReassembler.cpp:293-433 | from the segmenter's bytes to the queue: whatever is lost or reordered, users get only events that were sent, whole, under their key, at most once |
| `EndToEnd.NothingExpires` | src/e2sarDPReassembler.cpp:253-275 | when no visit to a key comes more than the timeout after a datagram of it, nothing ever expires |
| `EndToEnd.UserGetsEverything` | src/e2sarDPReassembler.cpp:293-433 | from the segmenter's bytes to the queue: when every datagram arrives once, those of an event at one thread and offset 0 first, in time and with room in the queue, users get exactly the events sent, whole, once, in the order they became complete, and nothing is left over |
| `Reassembler.Memcpy` | src/e2sarDPReassembler.cpp:389-393 | the byte loop is the copy of the specification |
| `Reassembler.ReceiveComposes` | src/e2sarDPReassembler.cpp:361-427 | attaching, placing and finishing make up one receive step |
| `Reassembler.EventItem.Place` | src/e2sarDPReassembler.cpp:389-400 | copy the segment into the item's array and count it |
| `Reassembler.Common.Enqueue` | include/e2sarDPReassembler.hpp:132-147 | a push appends a copy that shares the buffer, or changes nothing and reports a loss |
| `Reassembler.Common.Dequeue` | include/e2sarDPReassembler.hpp:150-161 | the oldest event is handed over, or nothing happens |
| `Reassembler.Common.GetLostEvent` | include/e2sarDPReassembler.hpp:584-595 | the oldest loss record is handed over, if there is one |
| `Reassembler.RecvThread.LogLostEvent` | include/e2sarDPReassembler.hpp:262-280 | does to the objects what the specification says for one lost event |
| `Reassembler.RecvThread.Attach` | src/e2sarDPReassembler.cpp:359-387 | finds the entry of a datagram or installs a new item, displacing what is there |
| `Reassembler.RecvThread.Finish` | src/e2sarDPReassembler.cpp:403-427 | takes a complete item out of the map and makes the step in which it is queued or its loss is recorded |
| `Reassembler.RecvThread.Receive` | src/e2sarDPReassembler.cpp:359-427 | the objects make exactly the receive step, with buffers in assembly never shared with the queue; what comes to the thread is new, and what comes to the queue is new or was the thread's |
| `Reassembler.RecvThread.ReadHeader` | src/e2sarDPReassembler.cpp:337-357 | a long enough frame is read as a packet exactly when, behind the skipped bytes, it is that packet's header bytes and payload, and refused exactly when it is no packet's |
| `Reassembler.RecvThread.Collect` | src/e2sarDPReassembler.cpp:259-273 | the collector's visit to one entry, with the record of its loss, as the step of the specification |
| `Reassembler.RecvThread.Sweep` | src/e2sarDPReassembler.cpp:253-275 | the collector's pass visits every entry exactly once and makes the steps of the specification |
| `ReceivePool.Pool.Receive` | src/e2sarDPReassembler.cpp:359-427 | a datagram at one thread changes no other thread and no other thread's items and buffers, and the whole pool makes the step of the state machine |
| `ReceivePool.Pool.Collect` | src/e2sarDPReassembler.cpp:253-275 | likewise for a visit of the collector |
| `ReceivePool.Execute` | src/e2sarDPReassembler.cpp:293-433 | threads taking turns in any order, with collector and user in between, make a run of the state machine; for genuine datagrams, repeated or not, no copy needs a bounds check |
| `IoUring.CounterNeverUnderflows` | src/e2sarDPSegmenter.cpp:194-239 | outstanding sends are, modulo 2^32, what finished sends submitted less what was taken off; exact below 2^32, and then no batch takes off more than there is |
| `IoUring.CallbacksRunAtMostOnce` | src/e2sarDPSegmenter.cpp:782-812 | no callback runs twice, nor before all of its event is submitted |
| `IoUring.ExitIsOnMultiple` | src/e2sarDPSegmenter.cpp:455-465 | the drain loop ends with a multiple of 2^32 sends outstanding, with nothing in flight if and only if that is zero |
| `Drain.AllCounted` | src/e2sarDPSegmenter.cpp:453-457 | once the pool has run dry, what has been counted is the datagrams of all events queued |
| `Drain.DrainIsComplete` | src/e2sarDPSegmenter.cpp:455-465 | when the events queued come to fewer than 2^32 datagrams, the drain loop ends with nothing in flight and each callback of a non-empty event run once |
| `Drain.DrainCanEndEarly` | src/e2sarDPSegmenter.cpp:455-465 | whenever they come to 2^32 or more, some run that never has more than one event on the send queue ends with sends in flight |
| `Drain.DrainIsCompleteIff` | src/e2sarDPSegmenter.cpp:455-465 | for every size of the send queue: every run that queues these events and ends leaves nothing in flight if and only if they come to fewer than 2^32 datagrams |
| `IoUring.DrainHasWork` | src/e2sarDPSegmenter.cpp:458-465 | while the counter is not zero some ring has a completion to come |
| `IoUring.RoundRobin` | src/e2sarDPSegmenter.cpp:403-406 | event j of the queue goes to ring j + 1 modulo the number of sockets, in runs without `sendEvent`, which advances the same index (line 908) |
| `IoUring.SqesAreSubmitted` | src/e2sarDPSegmenter.cpp:782-812 | the submissions of one send carry the same callbacks as the steps of the model |
| `IoUring.Completions.Reap` | src/e2sarDPSegmenter.cpp:194-239 | each peek takes as many completions as are ready, at most 100, until one finds none; they are taken in order, their callbacks are run, and as many are taken off the count |
| `IoUring.RunsAre` | src/e2sarDPSegmenter.cpp:206-234 | the callbacks run are those of the completions that carry one, each once and in order |
| `Pacing.PacedIff` | src/e2sarDPSegmenter.cpp:396-450 | the wait after an event keeps the rate whatever the clock does, if and only if the event has fewer than 2^32 bits and a microsecond's worth of them |
| `Pacing.SleepIs` | src/e2sarDPSegmenter.cpp:396-402 | the wait is eight bits a byte, cut to 32 bits, over the rate, without the fraction |
| `Pacing.RateIsKept` | src/e2sarDPSegmenter.cpp:396-450 | bits dispatched stay below the rate times the time since the first pop, plus a microsecond's worth per event too short to wait for |
| `Pacing.RateIsKeptForLongEvents` | src/e2sarDPSegmenter.cpp:396-450 | with no short or oversized event, for every k, the first k events have fewer bits than the rate allows between pop 1 and pop k + 1 |
| `Pacing.BusyWait` | include/e2sarUtil.hpp:591-600 | stops at the first clock reading more than the given whole microseconds away |
| `Pacing.Dispatch` | src/e2sarDPSegmenter.cpp:390-451 | each event is popped at the first clock reading more than the wait after the pop before it, or at once without a wait; the loop stops only when all are popped or no reading is left that is late enough; the pops are a schedule that the pacing theorems are about |
| `Numbering.SequentialNumbers` | src/e2sarDPSegmenter.cpp:901-947 | call i gets the last non-zero override at or before it plus the calls since, or i, modulo 2^64 |
| `Numbering.CounterIsExpected` | src/e2sarDPSegmenter.cpp:922-936 | under any interleaving the counter is the last override plus the fetches since, or all fetches, modulo 2^64 |
| `Numbering.OverrideHonouredIff` | src/e2sarDPSegmenter.cpp:922-936 | a call gets the number it asked for if and only if the last override before its fetch plus the fetches since is that number modulo 2^64 |
| `Numbering.FetchesAreEqualIff` | src/e2sarDPSegmenter.cpp:922-936 | exactly when two fetches return the same number, with or without an override between them |
| `Numbering.FetchesAreDistinct` | src/e2sarDPSegmenter.cpp:928-936 | two fetches with no override between them, fewer than 2^64 apart, differ |
| `Numbering.TwoOverrides` | src/e2sarDPSegmenter.cpp:922-936 | two calls that override at the same time: the first override's number is fetched by either if and only if it follows the other's |
| `Numbering.Numbers.AddToSendQueue` | src/e2sarDPSegmenter.cpp:921-947 | the item queued carries the number and data id; a failing push uses up its number |
| `Numbering.AcceptedAre` | src/e2sarDPSegmenter.cpp:921-947 | what successive calls queue, item by item: the accepted calls, all and in order, each with the last number given plus the calls since, its data id or the default, its event and entropy |
| `Numbering.Numbers.AddAll` | src/e2sarDPSegmenter.cpp:921-947 | after successive calls the queue holds, in order, the items of the accepted pushes, each with the number that the sequential theorem gives its call |
| `SyncStats.SendsAreConserved` | src/e2sarDPSegmenter.cpp:254-264 | under any interleaving the sends counted are those in all records, in the record being made and in the current count |
| `SyncStats.RecordsTileTime` | src/e2sarDPSegmenter.cpp:257-264 | each record begins where the previous one ends, at the ticks |
| `SyncStats.RingSumIsWindowOfSends` | src/e2sarDPSegmenter.cpp:257-264 | the ring's sum is the number of sends counted in the periods it holds |
| `SyncStats.ScaledIsExactIff` | include/e2sarDPSegmenter.hpp:579 | the 64-bit product behind the rate is the true one if and only if the ring holds at most 18446744073 sends |
| `SyncStats.RoundIsNearest` | include/e2sarDPSegmenter.hpp:579 | rounding gives the nearest integer, a half going up |
| `SyncStats.EventRate` | include/e2sarDPSegmenter.hpp:560-579 | the 64-bit product of the sum over the ring and 10^9, divided by the 64-bit difference of the clock and the start of its oldest record, rounded; 1 when empty; no value when that difference is zero or 32 bits cannot hold the rate |
| `Pid.Controller.Step` | src/e2sarDPReassembler.cpp:526-575 | one turn of the loop, with the ring holding the last samples of the history, whatever the clock does; no output when no time has passed (what the output is: `Pid.OutputIs`) |
| `Pid.IntegralIsWindowSum` | src/e2sarDPReassembler.cpp:18-35 | the stored integral is the sum of each error times the 64-bit time difference to the sample capacity steps back |
| `Pid.RingHoldsLast` | src/e2sarDPReassembler.cpp:526-575 | after k steps the ring holds min(k + 1, capacity) samples, and which: place by place their times, errors and integrals |
| `Pid.ConstantError` | src/e2sarDPReassembler.cpp:526-575 | under a constant error the integral is that error times the time differences added up, which with a clock that never goes back are the elapsed times of the last capacity steps |
| `Pid.ElapsedOnceIff` | src/e2sarDPReassembler.cpp:530-543 | with an advancing clock the elapsed times add up to the time passed if and only if there was at most one step or the ring has one place |
| `Pid.ConstantErrorOnceIff` | src/e2sarDPReassembler.cpp:526-575 | exactly when a constant error is integrated once over the time passed |
| `Pid.IntegralNeverDecays` | src/e2sarDPReassembler.cpp:526-575 | with the error at zero the integral stays what it was |
| `Pid.SampleAll` | src/e2sarDPReassembler.cpp:511-575 | what the thread has sampled is the history the integral theorem is about, the ring is its last samples, and every output is the answer it should give |
| `Pid.OutputIs` | src/e2sarDPReassembler.cpp:26-35 | the output at step k is kp times the error, plus ki times the accumulated sum, plus kd times the change of the error since the sample capacity steps back over the time since then; none when no time has passed |
| `Pid.AnswerOfEachGain` | src/e2sarDPReassembler.cpp:30-34 | with only one gain not zero: kp times the error, ki times the accumulated sum, or kd times the change of the error over the lapse, spelled out in the readings |
| `Pid.LapseIs` | src/e2sarDPReassembler.cpp:526-545 | the lapse is the 64-bit difference of the two microsecond readings, in seconds |
| `QueueDepth.DepthIsCorrectedLength` | include/e2sarDPReassembler.hpp:132-161 | modulo 2^64 the depth is the queue length less uncounted pushes plus undiscounted pops |
| `QueueDepth.DepthIsExactIff` | include/e2sarDPReassembler.hpp:132-161 | it is the queue length if and only if as many pushes as pops are uncounted, as in every quiescent state |
| `QueueDepth.DepthCanWrap` | include/e2sarDPReassembler.hpp:132-161 | a run in which a reader sees 2^64 - 1 |
| `Ports.GetPortRange` | include/e2sarCP.hpp:772-798 | the least exponent whose power of two covers the sources, 0 below 2 and 14 above 16384 |
| `Ports.PortRangeIsUnique` | include/e2sarCP.hpp:772-798 | no other range fits that description |
| `Ports.RegisteredRange` | src/e2sarDPReassembler.cpp:602-612 | registering the number of ports gives back the port range they were opened for |
| `Ports.NumRecvPorts` | src/e2sarDPReassembler.cpp:52 | the shifted expression is the power of two |
| `Ports.AssignPortsToThreads` | include/e2sarDPReassembler.hpp:308-318 | the nested loops give thread j the ports whose index is j modulo the threads, in order |
| `Ports.AssignmentEndsIff` | include/e2sarDPReassembler.hpp:308-318 | the outer loop ends if and only if there is a thread, or no port |
| `Ports.PortsIncrease` | include/e2sarDPReassembler.hpp:308-318 | a thread's ports are in range, in increasing order and without repetition |
| `Ports.PortsAreDealtOut` | include/e2sarDPReassembler.hpp:308-318 | every port goes to the one thread its index says |
| `Ports.PortsAreEven` | include/e2sarDPReassembler.hpp:304-318 | thread counts differ by at most one, and where |
| `Ports.DefaultRangeServesAll` | src/e2sarDPReassembler.cpp:50-52 | with the default range every thread has one or two ports, up to 16384 threads |
| `Optimizations.BitsAreDistinct` | include/e2sarUtil.hpp:610-622 | codes have a bit each |
| `Optimizations.OrAdds` | src/e2sarUtil.cpp:87-96 | OR with a code's word adds the code to the set that a 16-bit word stands for |
| `Optimizations.XorFlips` | src/e2sarUtil.cpp:106-108 | XOR adds the code or takes it away |
| `Optimizations.AndFinds` | src/e2sarUtil.cpp:151-155 | AND is not zero if and only if the code is in the set |
| `Optimizations.BitsDiffer` | include/e2sarUtil.hpp:610-622 | different sets of codes have different words |
| `Optimizations.WordsOfCodes` | include/e2sarUtil.hpp:610-625 | the word of a code has the bit of its number |
| `Optimizations.SelectAnswers` | src/e2sarUtil.cpp:80-110 | which error a select gives, exactly when, and that it leaves 'none'; a success leaves the other codes selected before and those asked for |
| `Optimizations.SelectionsStayGood` | src/e2sarUtil.cpp:80-110 | after any selects something is selected, all of it compiled in, and sendmmsg neither with sending nor with receiving by liburing |
| `Optimizations.SelectKeepsGood` | src/e2sarUtil.cpp:80-110 | one select keeps that, and an error leaves exactly 'none' |
| `Optimizations.NoneAfterSuccess` | src/e2sarUtil.cpp:106-108 | exactly when 'none' is selected after a success |
| `Optimizations.NoneMeansNothingElse` | src/e2sarUtil.cpp:106-108 | a success leaves 'none' if and only if nothing else, exactly for selects from or with 'none' |
| `Optimizations.SecondSelectBringsNoneBack` | src/e2sarUtil.cpp:106-108 | two selects after which 'none' is on beside sendmmsg |
| `Optimizations.Selection.Choose` | src/e2sarUtil.cpp:80-110 | the loop and the checks after it, on the 16-bit word, compute the select of the theorems |
| `Optimizations.Selection.SelectedAsList` | src/e2sarUtil.cpp:129-139 | the list holds what is compiled in and selected, and nothing else |
| `Optimizations.Selection.SelectedAsWord` | src/e2sarUtil.cpp:141-149 | the rebuilt word is the stored one if and only if all that is selected is compiled in |
| `Text.StoiReads` | include/e2sarUtil.hpp:450-466 | a printed number is read back, if it fits 32 bits |
| `Text.StoiIff` | include/e2sarUtil.hpp:450-466 | a text is read as a number if and only if it is blanks, a sign, that number's digits and any text after them, and it fits 32 bits |
| `Text.DecodeIff` | src/e2sarUtil.cpp:192-205 | percent-decoding reads exactly the texts made of plain characters and of percent signs with two hexadecimal digits, and gives each character, a blank for a plus in queries, or octet that they stand for |
| `UriRoundTrip.PortCheckIsOnLowBits` | include/e2sarUtil.hpp:450-466 | the port check is right about a number, negative ones included, exactly when it is a 16-bit number or its low 16 bits are below 1024 |
| `UriRoundTrip.BadPortsAreAccepted` | include/e2sarUtil.hpp:450-466 | three inputs: "-1" is taken for port 65535, "66560" and "1024x" for port 1024 |
| `UriRoundTrip.TakenForPortIff` | include/e2sarUtil.hpp:450-466 | a text is taken for a port if and only if after blanks and a sign it starts with the digits of a 32-bit number whose low 16 bits are that port, from 1024 on |
| `UriRoundTrip.SocketReads` | include/e2sarUtil.hpp:471-492 | a printed address and port are read back, for ports from 1024 |
| `UriRoundTrip.BareAddressReads` | include/e2sarUtil.hpp:471-484 | a printed address alone is read back with port 0 |
| `UriRoundTrip.ParseOfPrint` | src/e2sarUtil.cpp:189-317 | what the constructor makes of any printed URI, errors included |
| `UriRoundTrip.RoundTrip` | src/e2sarUtil.cpp:367-383 | printing and parsing keep everything if and only if the ports are at least 1024 and a session id comes with an address |
| `UriRoundTrip.DataPortSurvives` | src/e2sarUtil.cpp:302-310 | the data port survives if and only if it is 19522 |
| `UriGrammar.DivideIff` | src/e2sarUtil.cpp:192-199 | a text is taken apart into scheme, authority, path and query if and only if these are lawful and the text is written from them, whatever the fragment |
| `UriGrammar.DivideAuthorityIff` | src/e2sarUtil.cpp:210-219 | an authority is taken apart into user part, host and port if and only if it is written from them, with or without the first and the last |
| `UriGrammar.SocketParts` | include/e2sarUtil.hpp:471-492 | a port follows the last colon, unless a bracket comes after that |
| `UriQuery.QueryDecides` | src/e2sarUtil.cpp:276-315 | an accepted query leaves each field as the last parameter about it says, a data address without a port standing for 19522, and touches no other; a refused one is refused for the first parameter that must be |
| `UriQuery.DataPortIsRead` | src/e2sarUtil.cpp:297-308 | the last data parameter of an accepted query leaves its address in the field of its family and its port, or 19522 without one |
| `UriQuery.ParseReadsDataPort` | src/e2sarUtil.cpp:189-317 | the same of the text of a whole accepted URI, whatever its other parts and parameters |
| `UriQuery.PreferredIsFirst` | src/e2sarUtil.cpp:229-251 | a host name stands for the first address of the preferred family that it resolves to, if there is one |
| `UriQuery.ParseDecides` | src/e2sarUtil.cpp:189-317 | what each field of an accepted URI is, from the parts of its text |
| `UriQuery.ParseRefuses` | src/e2sarUtil.cpp:189-317 | which error a refused text gives, and why, in the order of the checks |
| `UriQuery.PrintIs` | src/e2sarUtil.cpp:367-383 | the printed text, letter by letter |
| `Uri.EjfatURI.Read` | src/e2sarUtil.cpp:276-315 | one query parameter sets its field, or is refused, as `UriQuery.QueryDecides` spells out |
| `Uri.EjfatURI.FromString` | src/e2sarUtil.cpp:189-317 | the object filled in field by field is the parsed value, or the same error is reported (which value and which error: `UriQuery.ParseDecides`, `UriQuery.ParseRefuses`) |

## Left out

- Sockets, `select`, binding, netlink, MTU probing, NUMA and CPU affinity, and the gRPC calls of the control plane.
- Command-line tools, Python bindings, logging, INI files and scripts other than the two cuts of `snifgen.py`.
- Undersized frames, and datagrams that no segmenter sent: `RecvThread.Receive` asks that the copy fits its buffer, which the code does not check and which `ReceivePool.Execute` proves for genuine datagrams.
- Interleavings inside the reassembler finer than one datagram, one visit of the collector or one pop, and the order of the drains at shutdown.
- Wrap-around of the reassembler's 64-bit counters; the queue depth, the event numbers and the outstanding sends do wrap.
- `ticksAsREEventNum`, under which distinct keys are no longer the caller's to promise, and events of 2^32 bytes or more.
- `recvEvent`, which waits for what `getEvent` returns, and the per-descriptor packet statistics.
- Boost's lock-free queue and circular buffer: their contracts are used, a first-in first-out queue whose push may fail and a window that drops its oldest entry.
- The text form of IP addresses and the resolver: a format that reads back what it shows, and any function from names to lists of addresses.
- In queries of URIs brackets are accepted and an empty query counts as one empty parameter, as Boost.URL does; its other departures from RFC 3986 are not modelled, nor is `operator==` of URIs.
- Floating-point rounding: rates, control terms and event rates are reals.
- Smoothing, the wait between frames instead of between events.
- `sendEvent` while io_uring is on, which takes no ring mutex.
- Events queued while the segmenter is being stopped: the drain theorems are about those queued before.
- The sizes of a ring's queues: any number of submissions may be in flight.
- io_uring errors, which are counted when completions are seen, and the freeing of headers and vectors.
- The hash of map keys: maps are keyed by the pair itself.
- Pid.Controller.Step: where the output is no finite number the model only says that there is none.
- Ports.AssignPortsToThreads: the method asks for one thread at least; `Ports.AssignmentEndsIff` says what happens without.
- `clockEntropyTest`, which needs logarithms and a real clock.
