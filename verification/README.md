# Verified model of the messaging and timer classes

This project models the two stateful cores of the network programming tools in Dafny 4.11 and proves
properties of them. `dafny verify dfyconfig.toml` checks everything.

**Framed messaging** (`src/Messaging.cpp`, `src/assembler.cpp`). A sender writes STX, a four-byte big-endian
length, the payload and ETX through a transport that may take only a part of what it is offered. A receiver
stores arbitrary chunks as a list of blocks, trimmed in place, and pulls frames out of it in a loop.

- `Bytes.dfy`, `Framing.dfy`: words, shift and OR, the frame format.
- `Assembler.dfy`: class `Assembler`, the block list, refined to one flat byte sequence.
- `Receiving.dfy`: the parse loop as a function `Drain` on flat bytes, runs of calls as `Feed`; conservation
  and soundness on arbitrary input.
- `Chunking.dfy`: how the result of a run on chunks relates to the result of one call on all the bytes.
- `Packets.dfy`: streams of frames, good ones and ones with a bad trailer.
- `Cuts.dfy`: the streams for which the chunks do not matter, described by their bytes.
- `Sending.dfy`: the retry loop and `sendMessage` as functions `Retry` and `Send`, for every script of
  transport answers.
- `EndToEnd.dfy`: sender and receiver joined.
- `Messaging.dfy`: class `Endpoint`, whose methods are proved against `Send` and `Drain`, and the transport.
- `Sessions.dfy`: two endpoints driven over a whole run; the end-to-end result about their state.

**Timer scheduler** (`src/Timer.cpp`, `src/Lists.h`). A table of timers is paired with a priority queue of
indirect containers. Stop, restart and delete write null into a container (a tombstone) and leave it to the
service thread to discard it. The model is a state machine of atomic steps: create, stop, restart, delete, the
pushes that end a creation and a restart, and one iteration of the service loop. Create and restart leave a
container pending until its push, and any other steps can come in between, also ones on the same handle. A
restart pushes the container that it has allocated; a creation reads the one to push from the table again, at the
time of the push. In a run, the push of a creation is enabled when it finds its own container there;
`CreationPushExact` and `CreationPushSafeInRuns` show that this is exactly when the code stays correct, so the
results about reachable states hold as long as no stop, restart or delete names a handle before the push of its
creation. The container on top of the queue is an arbitrary queued one in every result outside
`DispatchOrder.dfy`, and the allocator may reuse the address of a freed container.

- `Timespec.dfy`: clock arithmetic, and the deadline of a timed wait (`src/WaitableObject.h`).
- `HandleTable.dfy`: the handle allocator, as a value and as class `HandleList`.
- `Scheduler.dfy`: the state, its invariant `Inv`, and the steps. `Next` keeps the invariant.
- `Runs.dfy`: properties of whole runs for an arbitrary choice of the top.
- `Effects.dfy`: what each step does to the timer it concerns, to the queue and to the memory, and what follows for
  whole runs.
- `DispatchOrder.dfy`: the order of dispatches under the contract of the priority queue.
- `Timer.dfy`: class `TimerService`, whose methods are proved to perform the steps of `Scheduler`.
- `Options.dfy`: the usual option type.

## What turned out not to hold as documented

- `uMsgLength+HEADER_SIZE+TRAILER_SIZE` is computed in 32 bits. For a header length above 2^32-7 it wraps, both
  `Pop` calls may fail, and a message whose buffer was never written can be delivered
  (`OversizedHeaderDeliversGarbage`). `Soundness` shows that a segment is what it claims to be exactly when the
  header length is at most 2^32-7. The model keeps the wrap-around and marks such a message `Unfilled`; the
  value of the local trailer variable before its first use is a parameter `stale`.
- The result of `processChunk` depends on the chunking of a malformed stream; six zero bytes are an example
  (`SixZeroBytes`). It does not depend on it exactly for good frames followed by a harmless tail: nothing complete,
  or five bytes that do not start with STX, or one frame with a wrong trailer and nothing complete behind it
  (`ChunkInvariance`).
- A message with an empty payload is never sent, although the receiver accepts such frames (`SendEffect`,
  `FramesInAnyChunking`).
- `CompareTimerInfo` is a strict weak order exactly when no entry is a tombstone
  (`ComparisonIsOrderWithoutTombstones`).
- Dispatches can be out of order even without any cancellation, because create and restart push only after they
  have released the list mutex (`LatePushBreaksOrder`; two creations are enough, `LatePushIsReachable`).
- For the same reason a creation may push the wrong container. After a stop of the new handle it pushes a null
  pointer, which the service dereferences (`StopLeavesNull`); after a restart, one container is queued twice
  (`RestartQueuesTwice`). It is safe if and only if no stop, restart or delete has named the handle since, up to a
  coincidence about slot 0 (`CreationPushSafeInRuns`).
- With more than one tombstone queued, no entry meets the contract of `top()` (`TopExists`).
- An active creation without a free handle pushes a null pointer or a container that is accounted for already
  (`ExhaustedCreationBreaks`).
- The container of a one-shot timer that fired is never freed (`RetiredNeverFreed`).

## Model

| member | source | states |
|---|---|---|
| Bytes.BitOrDisjoint | src/Messaging.cpp:137-140 | bitwise OR of fields that share no bit is their sum |
| Framing.ShiftOrIsBigEndian | src/Messaging.cpp:137-140 | the receiver's shift-and-or of four bytes is their big-endian value |
| Framing.HeaderRoundTrip | src/Messaging.cpp:84-88 | the four length bytes decode to the same length, for every 32-bit value |
| Framing.HeaderOfLength | src/Messaging.cpp:129-140 | five bytes that start with STX are the header of the length they decode to |
| Framing.FrameBytes | src/Messaging.cpp:81-104 | a frame is the byte 2, the length with its highest byte first, the payload, and the byte 3 |
| Assembly.Assembler.constructor | src/assembler.cpp:11-13 | a new assembler holds no bytes |
| Assembly.Assembler.Clear | src/assembler.cpp:25-33 | afterwards no bytes are held |
| Assembly.Assembler.Append | src/assembler.cpp:43-57 | the flat contents grow by the data at the end; the counter is what it was plus the length, modulo 2^32, and counts the bytes held if and only if these are fewer than 2^32 |
| Assembly.Assembler.FindStart | src/assembler.cpp:78-87 | the block that holds a given byte, past any empty blocks |
| Assembly.Assembler.FindEnd | src/assembler.cpp:89-100 | the first block at whose end the range is covered |
| Assembly.SpanIsSlice | src/assembler.cpp:102-127 | the bytes from a place in one block to a place in a later one are one slice of the flat contents |
| Assembly.Assembler.CopyAcross | src/assembler.cpp:107-126 | copies tail, whole blocks and head, and touches nothing else in the caller's buffer |
| Assembly.Assembler.Peek | src/assembler.cpp:67-130 | succeeds exactly when the range is not empty and is held, copies exactly that slice, and changes nothing on failure |
| Assembly.Assembler.Trim | src/assembler.cpp:151-174 | the flat contents lose exactly the given number of bytes at the front, or all if there are fewer; the counter goes down by that number modulo 2^32 and stays right if and only if that many were held |
| Assembly.Assembler.Pop | src/assembler.cpp:139-145 | peek and trim together, or no effect at all |
| Receiving.DrainConserves | src/Messaging.cpp:121-164 | on arbitrary bytes, the segments consumed and the rest are the buffer, in order |
| Receiving.FeedConserves | src/Messaging.cpp:113-167 | over any run, all bytes ever fed are the consumed segments followed by what is buffered |
| Receiving.ExtractFits | src/Messaging.cpp:146-152 | without wrap-around the loop pulls exactly one frame |
| Receiving.Soundness | src/Messaging.cpp:121-164 | a segment is the frame, bad frame or bad start it claims to be if and only if its header length is at most 2^32-7 |
| Receiving.FeedSoundness | src/Messaging.cpp:113-167 | the same over any run of calls |
| Receiving.DeliveredLength | src/Messaging.cpp:137-163 | the length of each delivered message, filled or not, is the one announced by the header of its frame |
| Receiving.FeedLengths | src/Messaging.cpp:113-167 | the same over any run of calls |
| Receiving.OversizedHeaderDeliversGarbage | src/Messaging.cpp:137-163 | six concrete bytes that deliver a message whose buffer was never written |
| Receiving.StopsAtFirstError | src/Messaging.cpp:123-164 | only the last segment of a call can be an error; unless it is a bad trailer, nothing processable is left; a bad start empties the buffer |
| Chunking.StaleIrrelevant | src/Messaging.cpp:115-161 | the indeterminate trailer value matters only behind an oversized header |
| Chunking.DrainExtends | src/Messaging.cpp:121-164 | processing more bytes continues from the result on fewer, unless that ended in an error |
| Chunking.FeedSplittable | src/Messaging.cpp:113-167 | any chunking of a splittable stream gives the segments and leftover of one call on the whole |
| Chunking.CutBehindBadStart | src/Messaging.cpp:130-136 | cutting off the last byte makes two non-empty chunks with a different outcome, for any bad start of more than five bytes |
| Chunking.CutBehindBadTrailer | src/Messaging.cpp:154-160 | cutting off the last byte makes two non-empty chunks with a different outcome, when a bad trailer leaves something processable |
| Packets.DrainPacket | src/Messaging.cpp:123-163 | a complete frame is delivered or, with a wrong trailer, dropped, and exactly its bytes are removed |
| Packets.FeedPackets | src/Messaging.cpp:113-167 | where a run stops on a part of a stream of frames with some bad trailers |
| Packets.FeedNudges | src/Messaging.cpp:113-167 | each call with an empty chunk gets past one more bad trailer, or finishes |
| Packets.BadTrailerRecovery | src/Messaging.cpp:113-167 | frames with k bad trailers, in any chunking and followed by at least k empty chunks, deliver exactly the good payloads in order and empty the buffer |
| Packets.FramesInAnyChunking | src/Messaging.cpp:113-167 | any part of a stream of good frames, in any chunking, delivers the payloads of the frames complete in it and buffers exactly the bytes behind them |
| Cuts.CutsAnywhereIsSplittable | src/Messaging.cpp:121-164 | a stream consists of good frames and a harmless tail if and only if one call on it meets no oversized header and ends splittable |
| Cuts.StaleMatters | src/Messaging.cpp:115-161 | a stream with an oversized header has chunks that give one message more or fewer depending on the indeterminate trailer value alone |
| Cuts.ChunkInvariance | src/Messaging.cpp:113-167 | for every stream: if it consists of good frames and a harmless tail, every chunking has the outcome of one call, and if every chunking without empty chunks has it, then the stream is of that form |
| Cuts.SixZeroBytes | src/Messaging.cpp:130-136 | six zero bytes, cut behind the fifth, leave a byte in the buffer that one call throws away |
| Sending.RetryOutcome | src/Messaging.cpp:42-70 | fails if and only if the last call was an error or the last m_uSendRetry calls took nothing; success takes all bytes, failure fewer; at most max(length,1)*m_uSendRetry calls |
| Sending.RetryStops | src/Messaging.cpp:48-67 | no call is made after an error, a stall or completion, and each call offers exactly the bytes still untaken |
| Sending.Transmit | src/Messaging.cpp:42-70 | success puts all of the data on the wire, failure a proper prefix, and nothing is never sent successfully (when it succeeds: `TransmitExact`) |
| Sending.TransmitExact | src/Messaging.cpp:42-70 | on the transport's answers alone: calls are made until the answers add up to the data, which is success, or until the last one is negative or the last m_uSendRetry took nothing, which is failure; what is sent is the sum of the answers |
| Sending.SendEffect | src/Messaging.cpp:80-104 | true only if the wire grew by exactly the frame, false only if by a proper prefix of it; an empty payload is never accepted |
| Sending.SendExact | src/Messaging.cpp:80-104 | true if and only if the payload is not empty, no answer made is negative, and no m_uSendRetry answers in a row are 0 |
| Sending.BatchEffect | src/Messaging.cpp:80-104 | the same for messages sent one after the other until one is refused |
| Sending.AllAccepted | src/Messaging.cpp:80-104 | a transport that answers so from the first call on carries every batch of non-empty messages |
| EndToEnd.ReceivesWhatWasSent | src/Messaging.cpp:42-167 | over any transport and in any chunking, the receiver gets exactly the accepted messages in order, and keeps only a proper prefix of the refused frame |
| EndToEnd.EndToEnd | src/Messaging.cpp:42-167 | if every send succeeds, exactly those messages arrive in order and the assembler ends up empty |
| EndToEnd.ReliableDelivery | src/Messaging.cpp:42-167 | over a transport without errors that never takes nothing m_uSendRetry times in a row, all non-empty messages arrive in order, however the stream is cut |
| Messaging.Transport.XmitMsg | src/Messaging.h:43-51 | a negative error without effect, or a number of bytes at most the number offered, put on the wire |
| Messaging.Endpoint.constructor | src/Messaging.cpp:17-20 | an empty assembler and queue, five retries |
| Messaging.Endpoint.XmitWithRetry | src/Messaging.cpp:42-70 | the loop stops at the first completion, error or stall in the transport's answers, with the result and the wire bytes that these determine |
| Messaging.Endpoint.TransmitAll | src/Messaging.cpp:42-70 | so it has the result, wire bytes and call count of `Transmit` |
| Messaging.Endpoint.BuildHeader | src/Messaging.cpp:81-88 | the five header bytes |
| Messaging.Endpoint.SendMessage | src/Messaging.cpp:80-104 | has the result, wire bytes and call count of `Send`, and returns true exactly under the condition of `SendExact` |
| Messaging.Endpoint.ReadHeader | src/Messaging.cpp:129-140 | start byte and length of the front header, nothing consumed |
| Messaging.Endpoint.PullFrame | src/Messaging.cpp:146-152 | message, trailer and remaining bytes as `Extract` gives them, whichever pops fail |
| Messaging.Endpoint.ProcessNext | src/Messaging.cpp:123-164 | one iteration delivers one message or stops, as one unfolding of `Drain` |
| Messaging.Endpoint.ProcessChunk | src/Messaging.cpp:113-167 | leftover, queued messages and result are those of `Drain` on the flat bytes; true if and only if a message was queued |
| Messaging.Endpoint.GetMsgSize | src/Messaging.cpp:174-179 | the number of bytes of the message that `GetMsg` returns next, or 0; for an unfilled one, its announced length |
| Messaging.Endpoint.GetMsg | src/Messaging.cpp:188-200 | removes and returns the front message, or nothing |
| Sessions.SendAll | src/Messaging.cpp:80-104 | sending on an endpoint until a refusal accepts and puts on the wire what `SendUntilFailure` says |
| Sessions.ReceiveAll | src/Messaging.cpp:113-167 | handing chunks to an endpoint, with fewer than 2^32 bytes buffered at any time, leaves the buffer and queues the messages of `Feed` |
| Sessions.ShortIsBounded | src/assembler.cpp:54 | a run over fewer than 2^32 bytes never reaches the limit of the size counter |
| Sessions.Session | src/Messaging.cpp:42-167 | over any transport and any way to cut, the queue of a fresh receiving endpoint ends up with exactly the messages the sending endpoint saw accepted, in order |
| Timespecs.AgreesWithNanos | src/Timer.cpp:96-138 | add, diff and compare are those of integer nanoseconds, results are normalised, and diff undoes add |
| Timespecs.IntervalRoundTrip | src/Timer.cpp:84-86 | the interval that a creation stores is normalised and converts back to the same milliseconds |
| Timespecs.ToMillisNanos | src/Timer.cpp:84-86 | for a normalised time that is not negative, the whole milliseconds in its nanoseconds |
| Timespecs.SleepTimeNanos | src/Timer.cpp:430-431 | the sleep time is the nanoseconds to the expiry divided by 1000, modulo 2^32 |
| Timespecs.NoOversleep | src/Timer.cpp:430-436 | the deadline is the second clock reading plus the whole microseconds to the expiry modulo 2^32; so it is never later than the expiry plus the time between the two clock reads, and less than 1000 ns early if and only if the time to the expiry is below 2^32 microseconds |
| Timespecs.DeadlineNanos | src/WaitableObject.h:109-117 | the deadline is the clock reading plus the waiting time |
| HandleTable.GetNewPartitioned | src/Lists.h:64-75 | a new handle was not valid, becomes valid, and no other slot changes |
| HandleTable.FreePartitioned | src/Lists.h:81-91 | a freed handle is invalid and is the next one handed out; taking it again restores the table |
| HandleTable.CountIsValidHandles | src/Lists.h:23-31 | m_uCount is the number of valid handles |
| HandleTable.AllocatorSafe | src/Lists.h:38-91 | in every reachable state free list and valid handles partition the slots, and a new handle is never one in use |
| HandleTable.HandleList.constructor | src/Lists.h:38-48 | the loop fills the free list with all handles, lowest first |
| HandleTable.HandleList.IsGoodHandle | src/Lists.h:109-119 | true exactly for valid handles, except for the handle equal to the size |
| HandleTable.HandleList.GetNewHandle | src/Lists.h:64-75 | takes the front of the free list, or returns 0xFFFFFFFF |
| HandleTable.HandleList.FreeHandle | src/Lists.h:81-91 | returns a good handle to the front of the free list, ignores a bad one |
| HandleTable.HandleList.Get | src/Lists.h:96-104 | the element of a good handle; for a bad one, that of slot 0 |
| HandleTable.HandleList.Set | src/Lists.h:96-104 | writes only the element of that handle; for a bad one, that of slot 0 |
| Scheduler.CreateKeepsInv | src/Timer.cpp:277-320 | creation keeps the agreement of table, containers and queue |
| Scheduler.PushKeepsInv | src/Timer.cpp:214-217 | so does the push of a restart, however late |
| Scheduler.PushCreatedKeepsInv | src/Timer.cpp:323-329 | so does the push of a creation that finds its own container in the table |
| Scheduler.CreationPushExact | src/Timer.cpp:323-329 | the push of a creation finds a container and keeps the agreement if and only if the slot it reads still refers to the container of the creation |
| Scheduler.ExhaustedCreationBreaks | src/Timer.cpp:286-329 | when all handles are taken, the push of an active creation finds null or breaks the agreement |
| Scheduler.StopKeepsInv | src/Timer.cpp:146-171 | so does stop |
| Scheduler.RestartKeepsInv | src/Timer.cpp:179-212 | so does the table part of restart |
| Scheduler.DeleteKeepsInv | src/Timer.cpp:225-240 | so does delete |
| Scheduler.ServiceKeepsInv | src/Timer.cpp:371-437 | so does a service iteration with any queued container on top |
| Scheduler.Next | src/Timer.cpp:146-437 | every step keeps the invariant and the number of slots |
| Runs.TableQueueAgreement | src/Timer.cpp:146-442 | in every reachable state a valid active timer has exactly one live container waiting, the one it refers to, and no other handle has any |
| Runs.ContainerPartition | src/Timer.cpp:203-417 | in every reachable state no container is queued twice, each allocated one is queued, pending or retired, and only one of these, and no valid timer refers to a freed one |
| Runs.DispatchesActiveTimer | src/Timer.cpp:387-391 | what a service step dispatches is valid, active and refers to the popped container, so the assertion holds |
| Runs.OtherTimersUntouched | src/Timer.cpp:146-437 | no step changes the record, the validity or the live container of a timer it does not concern |
| Runs.CreateEffect | src/Timer.cpp:277-332 | a creation takes a handle not in use and sets up state, reset mode, interval and expiry as asked; its push is still to come; a refused one changes nothing |
| Runs.RestartUndoesStop | src/Timer.cpp:146-219 | a stopped timer stays valid and is armed by restart as it was set up, with a new container |
| Runs.DispatchIsDue | src/Timer.cpp:387 | a dispatched timer has expired |
| Runs.CancelledStaysSilent | src/Timer.cpp:146-240 | after stop or delete the timer is not dispatched in any run before it is restarted or its handle is created anew |
| Runs.DisarmedStaysSilent | src/Timer.cpp:339-442 | the same for any timer that is not armed |
| Runs.OneShotFiresOnce | src/Timer.cpp:405-417 | a one-shot timer is dispatched at most once per arm, in any run |
| Runs.ArmSetsExpiry | src/Timer.cpp:197-206 | an arm sets the expiry one interval after its clock reading |
| Runs.AutoResetSpacing | src/Timer.cpp:387-411 | the n-th dispatch comes no earlier than n intervals after the arm, and dispatches are at least one interval apart |
| Runs.UntouchedUntilNamed | src/Timer.cpp:277-332 | in any run the slot of an unfinished creation refers to its container until a stop, restart or delete names the handle, and never again after that |
| Runs.CreationPushSafeInRuns | src/Timer.cpp:320-329 | after an active creation and any run, its push is safe if and only if no stop, restart or delete in the run names the new handle, or its container is found in an invalid slot 0 |
| Runs.RestartQueuesTwice | src/Timer.cpp:203-217 | a restart before the push of the creation makes both push the same container: it is queued twice |
| Runs.StopLeavesNull | src/Timer.cpp:158-166 | a stop before the push of the creation leaves it a null pointer to push |
| Runs.TombstoneNeverFires | src/Timer.cpp:377-385 | the container cancelled by stop, restart or delete dispatches nothing when it comes to the top, whatever has happened to its handle since, and is freed then |
| Runs.RetiredNeverFreed | src/Timer.cpp:413-417 | the container of a one-shot timer that fired stays allocated in every run |
| Runs.PopLowersBusy | src/Timer.cpp:377-417 | a pop at a frozen clock removes exactly one container from those to be popped |
| Runs.Quiescence | src/Timer.cpp:348-438 | at a frozen clock with positive intervals, the tombstones and due timers left are exactly as many fewer as containers were popped |
| Effects.CreationAccepted | src/Timer.cpp:281-295 | a creation makes a handle valid, and raises the count by one, if and only if the interval is at most 2^63-2 ms and some slot is not in use |
| Effects.DeleteEffect | src/Timer.cpp:233-238 | after a delete the handle is not valid, the count is one lower, and the next accepted creation returns that handle |
| Effects.IgnoredCalls | src/Timer.cpp:146-240 | stop, restart and delete of a handle that is not valid, and stop of an inactive timer, change nothing |
| Effects.InvalidStays | src/Timer.cpp:146-437 | a handle that is not valid stays so in every run in which no creation returns it |
| Effects.DeletedCannotRestart | src/Timer.cpp:179-240 | after a delete and any run, a restart of the handle changes nothing as long as no creation has returned it |
| Effects.PushEffect | src/Timer.cpp:214-329 | a push puts its container, which was not queued, on the queue, and does nothing else, whatever else is queued |
| Effects.CallsWriteOwnContainer | src/Timer.cpp:146-240 | the calls write null into the container of the timer they cancel and into no other, and leave the queue alone |
| Effects.DiscardEffect | src/Timer.cpp:377-385 | a tombstone on top is taken off the queue and freed, and nothing else changes |
| Effects.DispatchExact | src/Timer.cpp:387 | a live container on top is dispatched if and only if its timer has expired, and otherwise nothing changes |
| Effects.AutoResetRearms | src/Timer.cpp:406-411 | a dispatched auto-reset timer stays armed through the same container, which is queued again, and expires one interval after the second clock reading |
| Effects.OneShotSuspends | src/Timer.cpp:413-417 | a dispatched one-shot timer stays valid with its settings, is not active, and its container is off the queue but not freed |
| Effects.SettingsSurvive | src/Timer.cpp:146-437 | interval and reset mode survive every run that does not delete the timer, so a later restart uses them |
| Effects.AutoResetStaysArmed | src/Timer.cpp:371-437 | an armed auto-reset timer stays armed, through the same container, in every run in which no stop, restart or delete names it |
| DispatchOrder.ComparisonIsOrderWithoutTombstones | src/Timer.cpp:528-541 | the comparison is a strict weak order if and only if no entry is a tombstone |
| DispatchOrder.TopExists | src/Timer.cpp:372 | an entry that meets the contract of top() exists if and only if the queue is not empty and holds at most one tombstone |
| DispatchOrder.SleepsExactlyWhenNothingIsDue | src/Timer.cpp:371-437 | if the queue keeps its contract, which by `TopExists` means at most one tombstone, the service sleeps if and only if no queued container is a tombstone or due |
| DispatchOrder.DispatchesInOrder | src/Timer.cpp:372-425 | with a monotone clock and no cancellation of a waiting timer, dispatched expiries never decrease |
| DispatchOrder.DispatchesInOrderFromStart | src/Timer.cpp:372-425 | the same from a new scheduler |
| DispatchOrder.LatePushBreaksOrder | src/Timer.cpp:212-216 | if a pending container is due earlier than the one dispatched, the run can go on out of order |
| DispatchOrder.LatePushIsReachable | src/Timer.cpp:320-329 | a state of that kind is reached from a new scheduler by two creations, the later of which is pushed first |
| Timers.TimerService.constructor | src/Timer.cpp:15-17 | an empty queue and 100 free handles |
| Timers.TimerService.CreateTimer | src/Timer.cpp:277-320 | performs the create step and returns its handle, or 0xFFFFFFFF without effect |
| Timers.TimerService.PushCreatedContainer | src/Timer.cpp:323-329 | performs the push step of a creation, on the container that the table holds now |
| Timers.TimerService.PushContainer | src/Timer.cpp:214-217 | performs the push step of a restart |
| Timers.TimerService.StopTimer | src/Timer.cpp:146-171 | performs the stop step; a bad handle is ignored |
| Timers.TimerService.RestartTimer | src/Timer.cpp:179-212 | performs the table part of restart and returns the container to push |
| Timers.TimerService.DeleteTimer | src/Timer.cpp:225-240 | performs the delete step |
| Timers.TimerService.IsTimerActive | src/Timer.cpp:248-264 | true exactly for a valid, active timer |
| Timers.TimerService.ServiceIteration | src/Timer.cpp:371-437 | performs the service step and returns the timer dispatched, or for how long the thread goes to sleep |

## Left out

- Assembly.Assembler.Peek: requires that offset plus size does not wrap; the original would read outside its blocks.
- Sessions.ReceiveAll: requires fewer than 2^32 bytes in the buffer at any time, the range of m_Size; the functions `Drain` and `Feed`, and the results about them alone, are on unbounded sequences.
- EndToEnd.EndToEnd: is about payloads of at most 2^32-7 bytes, as no longer frame can be buffered.
- HandleTable.HandleList.IsGoodHandle: excludes the handle equal to the size, for which the original reads beyond its array (the bound check uses > instead of >=).
- HandleTable.HandleList.FreeHandle: excludes the handle equal to the size, as do Get and Set, for the same reason.
- Timers.TimerService.CreateTimer: requires a free handle when an active timer is asked for; `ExhaustedCreationBreaks` says what happens otherwise.
- Timers.TimerService.PushCreatedContainer: requires that the table still holds the container of the creation, which `CreationPushExact` shows to be needed.
- Timers.TimerService.StopTimer: excludes handle 100, the size of the table, for which `IsGoodHandle` reads beyond its array.
- Timers.TimerService.DeleteTimer: excludes handle 100, for the same reason.
- Timers.TimerService.IsTimerActive: excludes handle 100, for the same reason.
- Timers.TimerService.RestartTimer: excludes handle 100, for the same reason; ends where the list mutex is released, and the push is a step of its own, as in creation.
- DispatchOrder.DispatchesInOrder: assumes that no pending container is due earlier than the one dispatched, which `LatePushBreaksOrder` shows to be needed.
- Blocks of the assembler, messages in the queue and timer records are values; block buffers are not freed one by one, and aliasing of the caller's chunk is not modelled, as it is copied at once.
- The memory of heap containers is a map from addresses; that null is only written to an allocated container is checked as a precondition of `Tombstone`.
- Running out of memory in `new`, and the delay between retries.
- Mutexes, condition variables, waiter counts, thread start and stop: a step is atomic, although the original uses two different mutexes. `top()` on an empty queue at thread granularity is not excluded.
- User callbacks, including those of `bTriggerSvcRoutine`: a dispatch is recorded, the function is not called. The fields `pTimerServiceFunc`, `pUser` and `hTimer` (always the slot index) are omitted.
- Assertions on bad arguments that end a debug build: the model follows the release build, which returns without effect or goes on with slot 0.
- The internals of the heap behind `priority_queue`, and its behaviour once a key changes in place.
- Seconds are unbounded integers; a 64-bit time does not overflow for any stored interval in practice.
- The sleep itself: the sleep time and the deadline are computed, and a wake-up at any later time is another iteration.
- Clock sources, the accuracy warning, `DumpValidTimers`, `DumpTimersQueue` and tracing.
- Sockets, servers and clients (`src/tcp_server.cpp`, `src/udp_server.cpp`, `src/tcp_messaging.cpp`): only the contract of `xmitMsg` is kept.
