# EmbedMQ, verified core

A Dafny model of the parts of EmbedMQ that are hard to get right, and proofs of what they promise. Every
module stands beside one source file; imperative code is a class or a method proved against functions on
values, and the functions carry the theorems. Concurrent code is a transition system with one step per
atomic access, interleaved in any order, and its theorems hold for every run.

| part | modules | what is proved |
|---|---|---|
| shared-memory inbox ring | ShmRing, ShmRingSafety, ShmRingLimits, ShmCopy | safety and delivery for any number of producers; the exact conditions for the code's claim about the occupied slot and for how late a compare-exchange may come; the runs that break or strain it |
| QoS 1 and 2 over an unreliable network | DedupWindow, QosEngine, MessageBus, BusAnswers, BusNet, BusCalls, BusContents, QosDelivery, BusProgress, BusLimits, BusRepeats | what is routed was published, and what is published gets on the network; at most once until a window is reclaimed, acknowledged means arrived, exactly when an acknowledged publication was routed; exactly how often a packet is sent again; from every reachable state every table entry for another node can be brought to its acknowledgement by deliveries |
| request/reply with reply cache | MessageBus, BusAnswers, BusNet, BusContents, RequestReply, RequestProgress, BusRepeats | conservation of promises, values are handler results, handlers run once while the cached reply lives; how often a request is sent in any run; a waiting request that can still be sent can be completed, one that cannot is never sent again |
| multi-producer queue | MpscQueue, MpscQueueSafety | what is popped is what was pushed, in order; memory safety with reused addresses, reclamation |
| timer wheel | TimerWheel, TimerRuns | refinement of a plain list; exact firing times; cancellation |
| CRC-32 and wire codec | Gf2, Crc32, MessageCodec, CodecSafety | every burst of up to four covered bytes that leaves flags and lengths alone is detected, and what becomes of the others; round trip; two encoders agree |
| ANNOUNCE payload | Announce, AnnounceSafety | round trip up to the cuts; no truncated payload is accepted |
| block pool | MemoryPool | disjoint blocks, acyclic free list, tags and links in one word; exactly when it grows and when it gives nothing |
| topic router | Topics, TopicRouter, PeerFilter | index agrees with a flat list; wildcard loop; whom the publisher's filter selects, and misses, given what peers announce |
| TCP framing | TcpFraming | what is sent is delivered, for every split on either side; what becomes of a frame behind a cut one |

Words and Modular hold fixed-width integers and modular arithmetic, Packets the bus packets.

`dafny verify dfyconfig.toml` checks everything.

## What the code does that its comments do not say

These are results, each with a lemma:

1. The comment at src/transport/shm_transport.cpp:281 says the wait for an EMPTY slot is for visibility
   only. That needs two things the code does not enforce: a slot count that divides 2^32
   (`ShmRingLimits.NeverGivesUpIff`), and that no producer sleeps between loading `head` and its
   compare-exchange while 2^32 reservations pass, which `ShmRingSafety.Timely` states. Exactly that many is the
   limit (`ShmRingLimits.SafeWithinIff`; the run that breaks the ring is `ShmRingLimits.StaleExchangeOverruns`).
   The branch taken otherwise empties the message in the slot (`ShmRingLimits.GivingUpMarks`).
2. A send is refused not only when the ring is full (`ShmRingSafety.RefusalExact`); a run that refuses at an
   empty ring is `ShmRingLimits.RefusedWhenEmpty`.
3. ExactlyOnce: PUBREC is sent before the duplicate filter is asked, so a publication that first arrives 1024 or
   more behind is acknowledged and never routed (`BusLimits.AcknowledgedNeverRouted`; exact condition in
   `QosDelivery.AcknowledgedFate`).
4. A NACK resends and counts without testing the retry limit (`QosEngine.Engine.OnNack`); the bound on
   sweeps holds all the same (`QosEngine.RetryBound`).
5. Timer delays above 2^32 - 10 ms fire after one tick (`TimerWheel.TicksExact`), and a periodic timer of period 0
   fires once (`TimerRuns.FiresAsAsked`).
6. The checksum starts at byte 4: magic, version and message type are not covered, though the comment at
   src/core/message_codec.h:133 speaks of the whole header (`CodecSafety.TypeByteUnprotected`). The flags and the
   length fields are covered, but they also say whether and over what the checksum is taken: with the single
   checksum flag flipped the packet is accepted unchecked (`CodecSafety.ClearedFlagAccepted`; the exact condition
   is `CodecSafety.BurstClearsFlag`), and a burst on the payload length can be accepted too
   (`CodecSafety.LengthBurstAccepted`). Detection of bursts holds when flags and lengths survive.
7. A message may be encoded with up to 64 MiB of payload, but over TCP anything above 10 MiB, or empty, ends the
   connection with it and everything behind it (`TcpFraming.ReceivedExactly`).
8. `pop` may return nothing although later values are already linked (`MpscQueueSafety.PopReturnsNothingIff`;
   a run is `MpscQueueSafety.PopMissesLinkedValue`).
9. The publisher's filter also selects peers whose subscription differs from the topic by a final '/'
   (`TopicRouter.FilterExact`), and misses subscriptions behind the first 255 (`PeerFilter.LimitIs255`).
10. "Exactly once" ends with the cleanup of an idle window, and "handled once" with the expiry of the cached reply:
   from every reachable state a second delivery and a second execution are possible (`BusRepeats.RoutedAgain`,
   `BusRepeats.HandledAgain`).
11. The comment at src/core/message_bus.cpp:529 says that a repeated REPLY is acknowledged too. An ExactlyOnce REPLY that
   the duplicate filter turns away is not (`BusProgress.ReplyAckedIff`).
12. The comment at src/core/message_bus.cpp:756-761 says that a request is sent again and again until its deadline, so
   that a provider may come up later. A request whose timeout is no longer than its retry interval is sent at most
   once (`RequestProgress.SendLimit`, `RequestProgress.NewDueIff`): with the default profile (500 ms) a request with a
   timeout of 300 ms to a provider not yet known is never sent at all.
13. A failed send leaves the TCP connection in use, so a frame can follow a cut one, and the receiver takes the start
   of it for the rest of the message before (`TcpFraming.AfterCut`, `TcpFraming.NobodySent`).

## Model

| member | source | states |
|---|---|---|
| ShmRing.SlotsApartIff | src/transport/shm_transport.cpp:276-278 | `idx % slotCount` on the wrapping 32-bit index keeps any two indexes less than a ring length apart in different slots for ever, if and only if the slot count divides 2^32 |
| ShmRing.SlotsCollideAtWrap | src/transport/shm_transport.cpp:276-278 | For any other slot count, the two indexes at the counter wrap that share slot 0 |
| ShmRingSafety.StepKeepsInv | src/transport/shm_transport.cpp:253-456 | Every access of every thread, in any state, keeps the invariant of the inbox: counts behind the registers, one holder per reserved slot, READY slots belong to indexes in the ring, delivered bytes are the consumed payloads |
| ShmRingSafety.WinnerHasRoom | src/transport/shm_transport.cpp:262-274 | A timely winning compare-exchange happened on the true head with a slot free, although head and tail were loaded earlier and separately |
| ShmRingSafety.NextSlotEmpty | src/transport/shm_transport.cpp:281-283 | Whenever there is room, the slot of the next index is EMPTY |
| ShmRingSafety.NeverStuck | src/transport/shm_transport.cpp:281-298 | A producer that won its index never finds the slot occupied, so never gives up |
| ShmRingSafety.RingSafety | src/transport/shm_transport.cpp:260-298 | For any number of producers and every timely interleaving from a zeroed inbox: tail <= head <= tail + slotCount behind the registers, two unfinished reservations never share a slot, a winner finds its slot EMPTY, the give-up branch is not taken |
| ShmRingSafety.RingDelivery | src/transport/shm_transport.cpp:253-456 | In every such run the callbacks are exactly the consumed nonempty messages in reservation order, byte for byte and once each, and accepted = consumed + READY in the ring |
| ShmRingSafety.RefusalExact | src/transport/shm_transport.cpp:263-268 | The full test refuses exactly when the loaded counts are a ring length apart, or when the consumer has already passed the head value loaded earlier, however empty the ring |
| ShmRingLimits.RefusalChangesNothing | src/transport/shm_transport.cpp:265-268 | A refused send leaves no trace in the segment |
| ShmRingLimits.RefusedWhenEmpty | src/transport/shm_transport.cpp:263-268 | For every geometry there is a timely run in which a send is refused though the ring is empty |
| ShmRingLimits.StaleExchangeOverruns | src/transport/shm_transport.cpp:269-273 | Without timeliness, for every geometry, there is a run in which a producer wins a compare-exchange exactly 2^32 reservations after its load of head, the first moment that is not timely, and the ring holds one message more than it has slots |
| ShmRingLimits.SafeWithinIff | src/transport/shm_transport.cpp:262-274 | For slot counts dividing 2^32: all runs of two or more producers whose compare-exchanges come within n reservations of their loads keep the counts within one ring length, and are safe in all else `RingSafety` says, if and only if n is at most 2^32 |
| ShmRingLimits.GiveUpReached | src/transport/shm_transport.cpp:289-298 | When the slot count does not divide 2^32, a timely run with a single producer reaches the give-up branch |
| ShmRingLimits.GivesUpAfter | src/transport/shm_transport.cpp:284-288 | A producer looks at an occupied slot 100000 times before it gives up |
| ShmRingLimits.GivingUpMarks | src/transport/shm_transport.cpp:290-298 | Giving up sets the length of the slot's occupant to 0 and marks it READY, keeps its bytes, marks nothing as sent and frees the producer |
| ShmRingLimits.NeverGivesUpIff | src/transport/shm_transport.cpp:281-298 | The claim in the code that the occupied-slot branch is not reached holds over all timely runs if and only if the slot count divides 2^32 |
| ShmCopy.WriteBuffer | src/transport/shm_transport.cpp:300-302 | Refuses exactly what does not fit the slot, else changes exactly the message bytes behind the slot header |
| ShmCopy.CopyMeans | src/transport/shm_transport.cpp:300-302 | Byte by byte: a message that fits lies right behind the slot's eight header bytes, and every other byte of the segment is as it was |
| ShmCopy.WriteSlices | src/transport/shm_transport.cpp:349-392 | Gathering slices has the effect of `WriteBuffer` on their concatenation, on every byte of the segment |
| MpscQueueSafety.StepKeepsInv | src/util/mpsc_queue.h:34-51 | Every step of every thread keeps list, links, values and the ownership of every live node; in particular no step touches or frees a dead node |
| MpscQueueSafety.RunIsFaithful | src/util/mpsc_queue.h:34-38 | In every run the list holds the arguments of the pushes, in the order of their exchanges |
| MpscQueueSafety.QueueSafety | src/util/mpsc_queue.h:34-51 | For any number of producers and any interleaving: no use after free, no double free, no producer's `prev` has been freed, and the popped values are a prefix of the arguments of the pushes in exchange order |
| MpscQueueSafety.PopReturnsNothingIff | src/util/mpsc_queue.h:41-44 | `pop` returns nothing exactly when all exchanged values have been popped or the producer of the next one is between its exchange and its link |
| MpscQueueSafety.PopMissesLinkedValue | src/util/mpsc_queue.h:41-44 | A run in which `pop` finds nothing though a later push is complete and linked |
| MpscQueueSafety.OnlySentinelLeft | src/util/mpsc_queue.h:25-28 | With nothing to pop and nobody pushing, the sentinel is the only live node and every value of the list has been popped in order |
| MpscQueueSafety.PopAll | src/util/mpsc_queue.h:25-26 | From every quiet state the destructor's pops end with an empty list |
| MpscQueueSafety.DestructorFreesAll | src/util/mpsc_queue.h:25-28 | After any run that leaves the queue quiet, the destructor frees every node exactly once, and by then the arguments of all pushes have been popped in order |
| TimerWheel.TicksExact | src/util/timer_wheel.h:96-97 | The tick count equals max(1, ceil(delay/10)) if and only if the delay is at most 2^32 - 10 ms; longer delays wrap to one tick |
| TimerWheel.TicksCover | src/util/timer_wheel.h:96-97 | Up to 2^32 - 10 ms, ticks of 10 ms that cover the delay and would not with one tick less |
| TimerWheel.TimerSet.AddTimerLocked | src/util/timer_wheel.h:94-100 | Filing a timer in its bucket adds it to the plain list |
| TimerWheel.TimerSet.AddTimer | src/util/timer_wheel.h:86-91 | A new timer gets the next id and is added to the plain list |
| TimerWheel.TimerSet.Cancel | src/util/timer_wheel.h:73-76 | Cancelling only records the id |
| TimerWheel.TimerSet.Advance | src/util/timer_wheel.h:111-132 | Scanning the one bucket of the new tick takes out of the whole list exactly what is due, drops the cancelled ones and forgets just those cancellations |
| TimerWheel.TimerSet.Rearm | src/util/timer_wheel.h:137-142 | After its callback a periodic timer is added again unless cancelled or stopped |
| TimerWheel.ScanBucket | src/util/timer_wheel.h:120-131 | One pass over a bucket: due uncancelled timers in order, timers kept, cancellations used up |
| TimerWheel.TickBuckets | src/util/timer_wheel.h:115-131 | When nothing is overdue, taking the due timers out of one bucket in 512 takes them out of the whole list and leaves the buckets a partition of it |
| TimerWheel.DueExactly | src/util/timer_wheel.h:118-131 | What a tick hands out is exactly the uncancelled timers whose fire tick is now, for arbitrarily long delays |
| TimerRuns.StepKeepsInv | src/util/timer_wheel.h:111-144 | Registrations and cancellations from any thread, ticks, callbacks, re-arms and stop keep every timer on schedule and in one place |
| TimerRuns.FiresExactlyWhenDue | src/util/timer_wheel.h:111-144 | In every run, between ticks, a timer nobody cancelled has had exactly the callbacks that were due: none early, late, lost or doubled, re-entrant adds included |
| TimerRuns.FiringTimes | src/util/timer_wheel.h:94-100 | For delays up to 2^32 - 10 ms the callbacks come at registration + i * max(1, ceil(delay/10)) ticks |
| TimerRuns.FiresAsAsked | src/util/timer_wheel.h:62-70 | From the call: whatever is done before and after it, an uncancelled one-shot timer has fired exactly once, max(1, ceil(delay/10)) ticks after `addOnce`, and a periodic one after every so many ticks; one of period 0 fires once |
| TimerRuns.CancelStopsCallbacks | src/util/timer_wheel.h:73-76 | After `cancel(id)` no callback of id starts, except at most one that the current tick had already extracted |
| TimerRuns.CancelledNeverRearmed | src/util/timer_wheel.h:138-142 | No step puts a cancelled timer back into the wheel |
| TimerRuns.StopStopsCallbacks | src/util/timer_wheel.h:133-137 | After `stop` no callback starts any more |
| DedupWindow.Filter.CheckAndMark | src/core/qos_engine.h:168-179 | Answer and new window of one check, with the ordered map pruned from below |
| DedupWindow.RefinesSeenSet | src/core/qos_engine.h:161-180 | For every call sequence the answer is membership in the set of all numbers seen when the high-water mark is below seq + 1024, and "duplicate" otherwise |
| DedupWindow.NeverTwice | src/core/qos_engine.h:168-179 | No number is let through twice |
| DedupWindow.BoundedMemory | src/core/qos_engine.h:174-178 | At most 1025 keys, all in the last 1024 numbers below the high-water mark or at it |
| DedupWindow.FirstOccurrence | src/core/qos_engine.h:168-173 | A number not seen before is turned away only for being too old |
| QosEngine.Engine.AddPending | src/core/qos_engine.h:37-42 | Sets the entry, fresh count and clock, and nothing else |
| QosEngine.Engine.OnAck | src/core/qos_engine.h:44-47 | Removes that entry and nothing else |
| QosEngine.Engine.OnNack | src/core/qos_engine.h:49-53 | Sends that entry again at once and counts the retry without testing the limit |
| QosEngine.Engine.OnPubrec | src/core/qos_engine.h:56-59 | Removes that entry, and says whether it was there |
| QosEngine.Engine.AddPendingRel | src/core/qos_engine.h:62-66 | Registers the PUBREL entry |
| QosEngine.Engine.OnPubcomp | src/core/qos_engine.h:69-72 | Removes the PUBREL entry |
| QosEngine.Engine.ProcessTimeouts | src/core/qos_engine.h:75-82 | Sweeps both tables: exactly the overdue exhausted entries are reported, exactly the overdue others are sent again |
| QosEngine.Engine.IsDuplicate | src/core/qos_engine.h:86-91 | The answer and new state of that source's window, created on first use |
| QosEngine.Engine.CleanupDedupWindow | src/core/qos_engine.h:96-106 | Reclaims exactly the windows idle for more than 30 s |
| QosEngine.Sweep | src/core/qos_engine.h:137-156 | One pass with erasure while iterating, in any order of keys, equals the table function and reports each key once |
| QosEngine.RetryBound | src/core/qos_engine.h:137-156 | Over any history, sweeps resend an entry at most maxRetries times between two registrations and drop it at most once, NACKs or not |
| QosEngine.RetriedExactly | src/core/qos_engine.h:75-156 | A packet registered with r retries and interval m, not answered: exactly the first r sweeps that find m whole milliseconds gone since its last send send it again, the next such sweep drops it and none before; its bytes, count and clock are given after every history |
| QosEngine.DefaultRetries | include/embedmq/qos.h:22-26 | With the default profile, of sweeps 100 ms or more apart the first three send the packet again and the fourth gives it up |
| QosEngine.DataLists | src/core/qos_engine.h:137-156 | What a sweep sends again are the bytes of exactly the entries it lists, one datagram each |
| QosEngine.SilentOnceGone | src/core/qos_engine.h:44-72 | An entry that was acknowledged or dropped is not resent or dropped again until it is added again |
| QosEngine.SweepDecreases | src/core/qos_engine.h:137-156 | The sum of remaining retries never grows in a sweep and strictly falls when anything is overdue |
| QosEngine.TableDrains | src/core/qos_engine.h:75-82 | With nothing added, that many sweeps leave the table empty, each sending at any time after it began and the next one starting at least the longest retry interval later |
| MessageBus.PackedInjective | src/core/message_bus.h:183-185 | Different (source, correlation id) pairs have different 64-bit cache keys |
| MessageBus.ServiceNameOf | src/core/message_bus.cpp:477-480 | The `$SVC/` prefix put on a service by the requester is exactly what the replier strips |
| MessageBus.Received | src/core/message_bus.cpp:401-547 | What one `onReceived` means: when it routes, when it runs the handler, what it remembers, which waiting request it resolves, and that it changes no identity |
| MessageBus.Bus.OnReceived | src/core/message_bus.cpp:389-548 | The dispatch on type and level, PUBREC/ACK before the duplicate test, changes the bus exactly so and sends exactly those packets |
| MessageBus.Bus.Serve | src/core/message_bus.cpp:475-525 | Cached reply sent once more, else handler run, remembered before it is sent, else nothing |
| MessageBus.Bus.SendReply | src/core/message_bus.cpp:617-638 | One REPLY under a fresh number, registered for retransmission only when asked and reliable |
| MessageBus.Bus.Publish | src/core/message_bus.cpp:309-384 | One number for local delivery, then per target a packet with its own number, registered after sending when reliable |
| MessageBus.PublishedPackets | src/core/message_bus.cpp:352-383 | What a call of publish sends: to target k this topic, payload and level, from this node, under the k-th number from the counter on |
| MessageBus.PublishedTable | src/core/message_bus.cpp:357-365 | What it registers: nothing below Reliable, else exactly those packets, each fresh under its own number; every other entry and field stays |
| MessageBus.Bus.DispatchRequest | src/core/message_bus.cpp:698-726 | One REQUEST with one number to all targets; nothing at all without targets |
| MessageBus.DispatchedPackets | src/core/message_bus.cpp:698-726 | Every target gets one copy of the same REQUEST, addressed to it, with the service behind `$SVC/`, the payload, the level and the correlation id |
| MessageBus.Bus.SendRequest | src/core/message_bus.cpp:728-808 | Local handler, else registered then sent, else withdrawn at once when nobody was reached and nobody can be discovered |
| MessageBus.Bus.DrawCorrId | src/core/message_bus.cpp:77-83 | Correlation ids are drawn from the counter |
| MessageBus.Bus.ExtractExpired | src/core/message_bus.cpp:176-198 | The periodic pass removes exactly the requests past their deadline, reschedules exactly the due ones, and lists each once |
| MessageBus.Bus.CancelPendingRequest | src/core/message_bus.cpp:693-696 | Removes that request |
| MessageBus.Bus.Stop | src/core/message_bus.cpp:213-226 | A running bus gives up exactly the waiting requests; a stopped one does nothing |
| MessageBus.Bus.ExpireReplyCache | src/core/message_bus.cpp:640-653 | Forgets exactly the replies at least 30 s old |
| BusAnswers.PublishAnswered | src/core/message_bus.cpp:438-472 | A PUBLISH brings PUBREC, ACK or nothing by its level, also when repeated; below ExactlyOnce it is always routed and leaves no trace in the bus |
| BusAnswers.RequestRepeated | src/core/message_bus.cpp:482-498 | A REQUEST answered before gets the remembered answer at the remembered level under a new number, not registered, and no handler runs |
| BusAnswers.RequestHandled | src/core/message_bus.cpp:476-523 | Else the handler of the service behind `$SVC/` answers at the level of the REQUEST; the answer is remembered, and registered fresh with three retries 100 ms apart unless it is BestEffort |
| BusAnswers.RequestIgnored | src/core/message_bus.cpp:500-524 | Without a handler, or turned away by the filter, a REQUEST changes nothing but the filter and sends nothing |
| BusAnswers.ReplyTaken | src/core/message_bus.cpp:527-546 | A REPLY that passes is acknowledged unless BestEffort and resolves exactly the request that waits under its id |
| BusAnswers.HandshakeAnswered | src/core/message_bus.cpp:401-435 | ACK, NACK, PUBREC, PUBREL, PUBCOMP: what each takes off and puts on the two tables, and the packet that answers it |
| BusAnswers.TimeoutIs | src/core/message_bus.cpp:761-768 | A request waits as long as the caller says, else ackTimeoutMs * (maxRetries + 1) in 32-bit arithmetic, else 5 s; it is sent again every ackTimeoutMs, or 200 ms |
| BusAnswers.DefaultTimes | include/embedmq/qos.h:22-26 | By default that is 2 s and 500 ms |
| BusAnswers.EveryPassResends | src/core/message_bus.cpp:186-195 | Periodic passes before the deadline, a retry interval or more after asking and after each other: every one finds the request due, and it stays registered as it was asked |
| BusAnswers.PassExpires | src/core/message_bus.cpp:182-196 | A pass takes a request out if and only if its deadline has come, and lists it as due if and only if its next retry has come and its deadline has not; any other it leaves alone |
| BusAnswers.RepliesKept | src/core/message_bus.cpp:640-653 | A reply is kept, unchanged, for exactly 30 seconds |
| BusAnswers.WindowsKept | src/core/qos_engine.h:96-106 | A window is reclaimed if and only if more than 30 seconds have passed since it was touched |
| BusNet.RunKeepsHosts | src/core/message_bus.cpp:352-365 | In every run, whatever any table may send again has been sent before by that node, under its key |
| BusNet.SentHasCause | src/core/message_bus.cpp:401-547 | Every packet a step sends was sent before, or is the answer this protocol calls for in that step |
| BusNet.NewNumber | src/core/message_bus.cpp:353-383 | A new numbered packet carries the counter's value, the counter moves on, and all packets of one step are the same |
| QosDelivery.NumberNamesPacket | src/core/message_bus.cpp:352-383 | Over the whole network, one sender's number names one packet |
| QosDelivery.WindowIsCalls | src/core/message_bus.cpp:446-451 | The window r keeps for p is the filter applied to the numbers that arrived from p since it was last reclaimed |
| QosDelivery.AtMostOnce | src/core/message_bus.cpp:446-472 | Over a network that loses, repeats and reorders: an ExactlyOnce publication is routed twice only if its window was reclaimed in between |
| QosDelivery.PubrecMeansArrived | src/core/message_bus.cpp:438-443 | A PUBREC exists only for a PUBLISH that arrived at its sender |
| QosDelivery.HandshakeOrder | src/core/message_bus.cpp:411-434 | PUBCOMP exists only after PUBREL, PUBREL only after PUBREC |
| QosDelivery.FirstArrivalFate | src/core/message_bus.cpp:446-472 | The first arrival of a publication is routed if and only if it is less than 1024 behind the highest number seen of that source |
| QosDelivery.AcknowledgedFate | src/core/message_bus.cpp:411-472 | When a PUBREC comes back, the publication has arrived, and its first arrival was routed if and only if it was not too far behind |
| QosDelivery.CompletedFate | src/core/message_bus.cpp:432-435 | When a PUBCOMP comes back, the same holds as for a PUBREC |
| QosDelivery.RoutedIff | src/core/message_bus.cpp:446-472 | While no window is reclaimed, a publication that arrived is routed at all if and only if its first arrival was not too far behind |
| QosDelivery.AckMeansTaken | src/core/message_bus.cpp:438-473 | An ACK exists only for a packet that was taken in, and routed if it was a PUBLISH |
| QosDelivery.AckedMeansRouted | src/core/message_bus.cpp:401-404 | A Reliable publication that leaves the table by an ACK has been routed, as the very packet in the table |
| BusLimits.AcknowledgedNeverRouted | src/core/message_bus.cpp:309-451 | For every n with 2(n - 1) >= 1024, a run of n calls of publish and three deliveries: the first publication, overtaken by the last, is acknowledged and taken off the sender's table though no step ever routes it |
| BusCalls.PublishIsSteps | src/core/message_bus.cpp:309-384 | A call of `Publish` is, from every reachable state, a run of BusNet steps: number, then send and register per target, with the same tables, counters and packets and nothing else changed |
| BusCalls.RequestIsSteps | src/core/message_bus.cpp:728-808 | A call of `SendRequest` under a drawn id is, from every reachable state, a run of BusNet steps - answered here, or asked and dispatched, or also given up and failed - with the same tables, counters and packets, nothing else changed, and exactly the outcome the method returns given to that promise |
| BusContents.PublishesWereSent | src/core/message_bus.cpp:352-383 | In every run, each PUBLISH on the network carries topic, payload and level of a send its sender made to that very target under that number |
| BusContents.RoutedWasPublished | src/core/message_bus.cpp:453-472 | So whatever is routed was published before, to this node, with this topic, payload and level |
| BusContents.PublishReaches | src/core/message_bus.cpp:309-384 | From every reachable state, a call of publish leaves the message for every target on the network, and in the sender's table, fresh, when it is to be confirmed |
| BusContents.DispatchReaches | src/core/message_bus.cpp:698-726 | In every run, once a request has been dispatched, every one of its targets has the REQUEST addressed to it on the network for good |
| BusContents.RequestReaches | src/core/message_bus.cpp:728-808 | A call of sendRequest without a local handler puts the REQUEST on the network for every target |
| BusProgress.HandshakeCompletes | src/core/message_bus.cpp:411-472 | From every reachable state, an ExactlyOnce publication still in its sender's table is taken off both tables by four deliveries, the first of which routes it unless the filter has a reason |
| BusProgress.AckCompletes | src/core/message_bus.cpp:401-443 | From every reachable state, a Reliable publication still in the table is routed and taken off it by two deliveries |
| BusProgress.PubrelCompletes | src/core/message_bus.cpp:427-435 | From every reachable state, a PUBREL entry, also one without its PUBLISH entry, is cleared by two deliveries |
| BusProgress.ReplyCompletes | src/core/message_bus.cpp:446-531 | From every reachable state, a REPLY entry is cleared by two deliveries, after a reclaim of the requester's window, at any time from which it is idle, if its filter turns the reply away |
| BusProgress.ReplyAckedIff | src/core/message_bus.cpp:446-531 | Delivering a REPLY puts its ACK on the network, unless it was there, if and only if the requester's filter lets the reply through and its level asks for one |
| BusProgress.EveryEntryClears | src/core/message_bus.cpp:401-531 | From every reachable state, every entry of a table of unconfirmed packets addressed to another node, PUBLISH or REPLY, is brought to its acknowledgement - the run goes on with deliveries only, for a filtered reply also a cleanup, the last one delivers its ACK or PUBCOMP, and then no table of the sender holds it |
| RequestProgress.NewNumberPasses | src/core/message_bus.cpp:446-451 | A number its sender has not used yet is never turned away by a filter |
| RequestProgress.CopiesLedger | src/core/message_bus.cpp:176-202 | Conservation of request copies in every run: one for asking and one for each periodic pass that finds the request due, each of them dispatched or still at hand |
| RequestProgress.SendLimit | src/core/message_bus.cpp:761-781 | In every run a request is dispatched at most once, or k times more only if k retry intervals are shorter than its timeout; one whose timeout is no longer than the interval is dispatched at most once, and one not asked never |
| RequestProgress.NewDueIff | src/core/message_bus.cpp:761-781 | Some periodic pass can find a new request due if and only if its retry interval is shorter than its timeout |
| RequestProgress.SendableIff | src/core/message_bus.cpp:186-195 | A waiting request can be sent again, a copy at hand or a pass still able to find it due, if and only if its own copy is at hand or there is a time at which it is due |
| RequestProgress.NeverSentAgain | src/core/message_bus.cpp:186-202 | A request asked that cannot be sent again is never dispatched again by any run, whoever asks and whatever arrives |
| RequestProgress.RequestCompletes | src/core/message_bus.cpp:176-545 | From every reachable state, a waiting request of which a copy is at hand or which a periodic pass finds due is dispatched to any targets with a provider among them, and two deliveries resolve its promise: with the answer the provider remembers, also after a lost reply, or else with what its handler says |
| RequestProgress.RequestTimesOut | src/core/message_bus.cpp:179-209 | From every reachable state, a request still waiting at its deadline is taken out by the next periodic pass and its promise fails with a timeout |
| RequestReply.PromiseLedger | src/core/message_bus.cpp:176-209 | Conservation: in every run an issued promise is in the table, or held by a thread about to fail it, or has exactly one outcome; one not issued has none |
| RequestReply.ResolvedAtMostOnce | src/core/message_bus.cpp:531-545 | A promise is resolved at most once by reply, timeout, missing provider, cancel or stop, and then nobody holds it |
| RequestReply.RequestsAreAsked | src/core/message_bus.cpp:712-725 | Every REQUEST on the network, every copy to send and every table entry carries service, payload and level of what was asked under that id, and no id is asked twice |
| RequestReply.RepliesAreAnswers | src/core/message_bus.cpp:488-523 | Every reply on the network or in a cache is the result of a run of that node's handler on exactly what was asked |
| RequestReply.ValuesAreAnswers | src/core/message_bus.cpp:531-545 | Any value a promise gets is some provider's handler result for that request |
| RequestReply.HandlerOnce | src/core/message_bus.cpp:488-523 | A provider runs its handler twice for one (source, id) only if its cache was emptied in between, at least 30 s after the first run |
| RequestReply.RepliesAgree | src/core/message_bus.cpp:488-498 | As long as the provider has not forgotten its answer to a request, all its replies to that request are equal, expiry passes and forgotten answers to other requests included |
| BusRepeats.RoutedAgain | src/core/qos_engine.h:96-106 | From every reachable state, at any time at which the window is idle, a publication that was routed is routed a second time after a cleanup; if that time is no earlier than the steps so far, the clock never goes back |
| BusRepeats.SomeRoutedTwice | src/core/qos_engine.h:96-106 | A run of a call of publish, two deliveries and a cleanup, its clock never going back, that routes one ExactlyOnce publication twice |
| BusRepeats.HandledAgain | src/core/message_bus.cpp:640-653 | From every reachable state, at any time at which the reply is old enough and the window idle, a request that was handled is handled a second time; if that time is no earlier than the steps so far, the clock never goes back |
| BusRepeats.SomeHandledTwice | src/core/message_bus.cpp:640-653 | A run, its clock never going back, that runs one handler twice for one request |
| Crc32.Crc32Update | src/util/crc32.h:8-17 | The two nested loops compute the register function |
| Crc32.UpdateConcat | src/util/crc32.h:8-17 | The register of a concatenation folds over its parts |
| Crc32.BitLinear | src/util/crc32.h:11-14 | One shift is linear over GF(2) |
| Crc32.ByteStepBijection | src/util/crc32.h:9-15 | For every byte the register step is one-to-one and onto on 32-bit states |
| Crc32.DifferenceSurvives | src/util/crc32.h:8-17 | Two different registers stay different under any common continuation |
| Crc32.BurstChangesRegister | src/util/crc32.h:9-15 | Four different bytes always leave a different register |
| Crc32.WindowDetected | src/util/crc32.h:8-17 | Two inputs that differ only within four consecutive bytes never have the same CRC |
| Crc32.SteeringReaches | src/util/crc32.h:8-17 | Four chosen bytes take any register value to any other |
| Crc32.StandardPolynomial | src/util/crc32.h:13-13 | The constant is the polynomial of ISO 3309, term by term |
| Crc32.KnownChecksum | src/util/crc32.h:8-17 | Initial value, polynomial and final complement together give the checksum 12477CDF for the bytes FF FF FF FF 80, as in any CRC-32 |
| MessageCodec.FromLeLe | src/core/message_codec.h:259-277 | Reading a little-endian field gives back the number written |
| MessageCodec.LeFromLe | src/core/message_codec.h:259-277 | Writing a field read gives back its bytes, and its value fits |
| MessageCodec.PacketBuffer.PutU32 | src/core/message_codec.h:260-262 | Writes the four bytes of the field and no others |
| MessageCodec.PacketBuffer.PutU64 | src/core/message_codec.h:263-265 | The byte loop writes the eight bytes of the field and no others |
| MessageCodec.GetU32 | src/core/message_codec.h:269-272 | The four shifted bytes are the little-endian value |
| MessageCodec.GetU64 | src/core/message_codec.h:273-277 | The byte loop reads the little-endian value |
| MessageCodec.PacketBuffer.WriteHeader | src/core/message_codec.h:285-314 | Overwrites every header byte, and says where the checksum goes |
| MessageCodec.PacketBuffer.EncodeInto | src/core/message_codec.h:68-111 | The buffer holds exactly the wire format, or nothing when a length limit is exceeded |
| MessageCodec.PacketBuffer.EncodeHeaderInto | src/core/message_codec.h:135-175 | For the same time stamp, header buffer ++ topic ++ payload is byte for byte what `EncodeInto` writes |
| MessageCodec.ComputeCrcContiguous | src/core/message_codec.h:317-324 | The CRC skips the checksum field and covers the rest |
| MessageCodec.Decode | src/core/message_codec.h:203-255 | Reads exactly the packets of the format and rejects everything else, reading inside the buffer only |
| CodecSafety.RoundTrip | src/core/message_codec.h:203-255 | Decoding an encoded message returns every field, with any bytes following it in the buffer |
| CodecSafety.StampedIff | src/core/message_codec.h:279-282 | Packets of type 0x01, 0x04 and 0x05, and no others, have the time-stamp flag and eight bytes more; the exact size of every packet |
| CodecSafety.StampReadBack | src/core/message_codec.h:203-255 | Of those types the time stamp is read back; of all others it reads 0 |
| CodecSafety.WireLayout | src/core/message_codec.h:285-314 | Where every field of the header is, byte by byte, least significant byte first |
| CodecSafety.WireTail | src/core/message_codec.h:68-111 | Behind it time stamp, checksum, topic and payload, in this order |
| CodecSafety.LimitsAre | src/core/message_codec.h:82-84 | A message can be encoded if and only if its topic has at most 65535 bytes and its payload at most 64 MiB |
| CodecSafety.AcceptedIff | src/core/message_codec.h:203-255 | Which buffers are accepted: magic EBDC, version 2, at least the size the header says, and the right checksum when flagged, and no others rejected |
| CodecSafety.ChecksumIsStandard | src/core/message_codec.h:317-324 | The checksum of a packet is the standard CRC-32 |
| CodecSafety.EncodedInjective | src/core/message_codec.h:68-111 | Two messages one of whose encodings begins with the other's are equal |
| CodecSafety.BurstRejected | src/core/message_codec.h:239-246 | A CRC-bearing packet hit by a burst of up to four consecutive covered bytes is never accepted, as long as the two flags and the length fields survive |
| CodecSafety.AlterationRejected | src/core/message_codec.h:239-246 | Altering any bytes within four positions of topic ++ payload, of bytes 5-11 or 14-21, or of the time stamp makes `Decode` reject the packet |
| CodecSafety.BurstClearsFlag | src/core/message_codec.h:224-246 | A burst that clears the checksum flag is accepted if and only if the buffer is long enough for what the header then says |
| CodecSafety.ClearedFlagAccepted | src/core/message_codec.h:224-246 | For every CRC-bearing packet, flipping that single bit gives an accepted packet |
| CodecSafety.LengthBurstAccepted | src/core/message_codec.h:234-246 | Every message can be lengthened by four bytes such that overwriting the payload length of its packet gives an accepted packet with the shorter message |
| CodecSafety.TypeByteUnprotected | src/core/message_codec.h:239-242 | The type byte is outside the CRC: altering it gives an accepted packet of another type |
| Announce.Build | src/discovery/discovery_agent.cpp:186-248 | Appends exactly the format, with its cuts of 255-byte and 65535-byte strings and 255 items |
| Announce.Reader.Need | src/discovery/discovery_agent.cpp:256 | True exactly when that many bytes are left, else the reader has failed |
| Announce.Reader.ReadChars | src/discovery/discovery_agent.cpp:260-261 | Reads that many bytes inside the buffer, or fails and reads none |
| Announce.ParseTopics | src/discovery/discovery_agent.cpp:278-285 | The loop with its early exits reads what the format says, also on malformed input |
| Announce.ParseEndpoints | src/discovery/discovery_agent.cpp:287-294 | The endpoint loop with its early exit reads what the format says, also on malformed input |
| Announce.ParseWill | src/discovery/discovery_agent.cpp:296-308 | The will is taken only when it is complete |
| Announce.Parse | src/discovery/discovery_agent.cpp:265-311 | Terminates on all bytes, reads only inside the buffer, and gives a peer exactly when the parse succeeds for this domain |
| AnnounceSafety.AnnounceRoundTrip | src/discovery/discovery_agent.cpp:186-311 | Parsing a built payload, whatever follows it, gives back the node up to the cuts for its own domain, and nothing for any other |
| AnnounceSafety.NothingCut | src/discovery/discovery_agent.cpp:195-204 | What the cuts leave alone: within the limits the peer learns everything unchanged |
| AnnounceSafety.WillLearned | src/discovery/discovery_agent.cpp:202-204 | The peer learns a will if and only if it is enabled and has a topic, and then that one |
| AnnounceSafety.HeadLayout | src/discovery/discovery_agent.cpp:199-208 | Node id, domain, flags, name and host, byte by byte |
| AnnounceSafety.TopicLayout | src/discovery/discovery_agent.cpp:216-226 | Each topic is the role byte 2, two length bytes and its characters |
| AnnounceSafety.EndpointLayout | src/discovery/discovery_agent.cpp:228-236 | Each endpoint is transport, address and port |
| AnnounceSafety.WillLayout | src/discovery/discovery_agent.cpp:238-245 | A will is QoS, retain flag, topic and payload with its length in four bytes |
| AnnounceSafety.ReadsRoles | src/discovery/discovery_agent.cpp:278-285 | Topics of any role are read in order, those of role 2 as subscribed and all others as published |
| AnnounceSafety.OtherFlagsIgnored | src/discovery/discovery_agent.cpp:272-273 | Of the flags byte only the lowest bit matters |
| AnnounceSafety.OnlyOwnDomain | src/discovery/discovery_agent.cpp:269-271 | Whatever the bytes, what is accepted carries this domain |
| AnnounceSafety.TruncatedRejected | src/discovery/discovery_agent.cpp:252-262 | No proper prefix of an announcement is ever accepted |
| MemoryPool.ChainUnique | src/util/memory_pool.h:80-80 | Where the links lead is determined by where they start |
| MemoryPool.ChainAcyclic | src/util/memory_pool.h:69-71 | The free list visits no block twice |
| MemoryPool.LinkedOk | src/util/memory_pool.h:97-105 | Putting a new block on the list keeps the pool well-formed |
| MemoryPool.TakenOk | src/util/memory_pool.h:52-57 | Taking the first block and overwriting its link with the tag keeps the pool well-formed |
| MemoryPool.ReturnedOk | src/util/memory_pool.h:69-72 | Overwriting the tag with the link of a block given back keeps the pool well-formed |
| MemoryPool.OversizedOk | src/util/memory_pool.h:42-46 | Tagging an oversized block keeps the pool well-formed |
| MemoryPool.ChunkedOk | src/util/memory_pool.h:97-107 | A whole new chunk keeps the pool well-formed, its blocks apart from each other and from everything else |
| MemoryPool.TagDecides | src/util/memory_pool.h:64-67 | The tag read at deallocation is the oversized one exactly for oversized blocks |
| MemoryPool.TakenIsApart | src/util/memory_pool.h:52-57 | A block handed out shares no byte, header included, with any block in use |
| MemoryPool.TakeThenReturn | src/util/memory_pool.h:41-73 | Allocating and giving back restores the pool |
| MemoryPool.Pool.Allocate | src/util/memory_pool.h:41-58 | Oversized fallback, growth, exhaustion or first free block, exactly, keeping the pool well-formed |
| MemoryPool.OversizedMeans | src/util/memory_pool.h:42-46 | A request above the block size gets memory of its own and leaves the pool as it is |
| MemoryPool.ListedMeans | src/util/memory_pool.h:48-57 | With a free block the first of the list is handed out and the capacity stays |
| MemoryPool.EmptyMeans | src/util/memory_pool.h:48-57 | With none free, a pool that may grow gains exactly one chunk and hands out a block of it; one that may not is unchanged |
| MemoryPool.NullIff | src/util/memory_pool.h:41-58 | The null pointer is returned if and only if a pool block was asked for, none is free and the pool may not grow; when the capacity changes, and by how much |
| MemoryPool.ReturnedMeans | src/util/memory_pool.h:61-73 | A pool block given back is the next to be handed out; an oversized one goes back to the heap; the null pointer does nothing |
| MemoryPool.RunCapacity | src/util/memory_pool.h:97-107 | Over every legal run the capacity grows by one chunk for each call that finds the list empty in a pool that may grow, and by nothing else |
| MemoryPool.Pool.Deallocate | src/util/memory_pool.h:61-73 | Exactly the block given back changes hands, to where it came from |
| MemoryPool.Pool.AllocateChunk | src/util/memory_pool.h:97-107 | The linking loop is the chunk function |
| MemoryPool.RunBalance | src/util/memory_pool.h:41-73 | Over every legal run, in use = taken - given back, and in use + free = capacity across growth |
| Topics.SplitTopic | src/core/topic_router.h:120-129 | The character loop computes the segments |
| Topics.SplitOfJoin | src/core/topic_router.h:120-129 | Splitting undoes joining for segments without '/' of which the last is not empty |
| Topics.SameSegments | src/core/topic_router.h:120-129 | Two names have the same segments if and only if they differ at most by one final '/' after a nonempty segment |
| Topics.MatchTopic | src/core/topic_router.h:97-117 | The two-index loop decides the recursive definition |
| Topics.MatchesMeans | src/core/topic_router.h:103-116 | Position by position: `*` one segment, `#` only at the end and also for no segment, elsewhere no match |
| Topics.ExactPattern | src/core/topic_router.h:97-117 | A pattern without wildcards matches exactly the names with its segments |
| TopicRouter.Router.AddSubscription | src/core/topic_router.h:27-41 | A fresh id, appended to the flat list |
| TopicRouter.Router.RemoveSubscription | src/core/topic_router.h:43-55 | Removes exactly that id, keeping the order of the rest, in both indexes |
| TopicRouter.Router.Route | src/core/topic_router.h:58-74 | Fires the exact subscriptions, then the matching wildcards, each in the order they were made |
| TopicRouter.Router.HasSubscribers | src/core/topic_router.h:76-83 | True exactly when routing would fire someone |
| TopicRouter.Router.AllTopics | src/core/topic_router.h:86-94 | Lists exactly the patterns of live subscriptions |
| TopicRouter.FiredIsWanting | src/core/topic_router.h:58-74 | Over the flat list, routing fires each subscription that wants the topic exactly as often as it is there, and no other |
| TopicRouter.FiredInOrder | src/core/topic_router.h:58-74 | All exact subscriptions fire before all wildcards, each group from the oldest to the youngest |
| TopicRouter.SelectsPeer | src/core/message_bus.cpp:340-349 | The loop over announced topics decides whether the peer is selected |
| TopicRouter.FilterMissesNone | src/core/message_bus.cpp:340-349 | Whenever the peer's router would fire, the publisher's filter over its announced topics selects it |
| TopicRouter.FilterExact | src/core/message_bus.cpp:340-349 | And exactly when it selects a peer where nobody wants the topic: an exact name off by a final '/', or a wildcard pattern published literally |
| PeerFilter.HeardNames | src/discovery/discovery_agent.cpp:216-226 | What a peer reads out of an announcement are its first 255 names, each cut to 65535 bytes |
| PeerFilter.SelectsIff | src/core/message_bus.cpp:340-349 | The publisher selects the peer if and only if one of those names, as cut, is chosen by the topic |
| PeerFilter.NobodyMissed | src/core/message_bus.cpp:340-349 | With at most 255 names of at most 65535 bytes, whenever the peer's router would fire, the publisher selects the peer from what it heard |
| PeerFilter.LimitIs255 | src/discovery/discovery_agent.cpp:221-221 | For exact subscriptions that differ by more than a final '/', nobody is missed on any topic if and only if there are at most 255 |
| TcpFraming.EncodeLen | src/transport/tcp_transport.cpp:109-114 | Four bytes, most significant first |
| TcpFraming.LengthRoundTrip | src/transport/tcp_transport.cpp:204-207 | The length read is the length written |
| TcpFraming.SendAll | src/transport/tcp_transport.cpp:75-84 | Writes exactly the bytes that the socket's calls let out, for every plan of portions and failures, and succeeds exactly if these are all; a length cast to a negative int is a failing call |
| TcpFraming.RecvAll | src/transport/tcp_transport.cpp:87-96 | Reads exactly that many bytes however they arrive, and fails exactly when the stream ends first |
| TcpFraming.SendFrame | src/transport/tcp_transport.cpp:116-128 | Appends exactly what the calls let out of one frame, prefix first, and succeeds exactly if that is all of it |
| TcpFraming.SendSlices | src/transport/tcp_transport.cpp:131-150 | Appends exactly what the calls let out of the frame of the concatenated slices, and succeeds exactly if that is all of it |
| TcpFraming.FrameSpends | src/transport/tcp_transport.cpp:75-150 | A frame of up to 2^31 - 1 bytes goes out whole if and only if no call come to on the way fails; otherwise only the last call used failed |
| TcpFraming.FrameGoesOut | src/transport/tcp_transport.cpp:75-150 | So when no call planned fails, every such frame goes out whole, in one buffer or in slices, and the calls left do not fail either |
| TcpFraming.TooLong | src/transport/tcp_transport.cpp:78-81 | Of a buffer of 2^31 bytes to 4 GiB nothing goes out |
| TcpFraming.ClientLoop | src/transport/tcp_transport.cpp:196-220 | Delivers what the stream says, whatever the portions it arrives in |
| TcpFraming.FramesArrive | src/transport/tcp_transport.cpp:196-220 | Frames of 1 byte to 10 MiB arrive as those messages in order, whatever follows |
| TcpFraming.ReceivedExactly | src/transport/tcp_transport.cpp:209-212 | The receiver delivers exactly the messages before the first empty or oversized one, and none after it |
| TcpFraming.DeliveredIff | src/transport/tcp_transport.cpp:209-212 | A list of messages arrives as sent if and only if each has 1 byte to 10 MiB |
| TcpFraming.CutStream | src/transport/tcp_transport.cpp:75-84 | A stream that breaks off inside a frame gives what was complete before it |
| TcpFraming.AfterCut | src/transport/tcp_transport.cpp:116-128 | What the receiver delivers when bytes follow a cut frame on the same connection: the messages before, then the cut message completed by the bytes that follow, then whatever the rest says; nothing of it if too few follow |
| TcpFraming.NobodySent | src/transport/tcp_transport.cpp:116-128 | A failed send of two bytes and a send of one, after which the receiver delivers a message nobody sent |
| TcpFraming.Exchange | src/transport/tcp_transport.cpp:75-220 | Both ends together, for every split on either side: everything is delivered when no send call fails, and otherwise exactly the messages sent whole before the first failing call |

## Left out

Assumptions of the models:

- Weak memory: each atomic access is one sequentially consistent step.
- Shared segment: mapping, geometry checks on opening, futex waits, crashed peers and reopening are not modelled; a run starts from a zeroed inbox whose geometry all sides share. Empty messages are accepted and skipped, as in the code. The count of dropped messages is not modelled.
- ShmRingSafety.RingSafety: needs the timeliness condition, because without it the property is false (`ShmRingLimits.StaleExchangeOverruns`).
- ShmRingSafety.RingDelivery: needs the timeliness condition too.
- Network: a node id stands for its endpoint, node ids do not collide, and one `onReceived` is one step, so a handler that calls back into its own bus is not modelled.
- QosDelivery.NumberNamesPacket: like everything built on it, assumes that sequence and correlation counters do not pass 2^32 within a run.
- QosDelivery.AtMostOnce: a reclaimed window forgets what it saw, as the code's own comment accepts; the lemma says that this is the only way to a second delivery.
- QosDelivery.AckMeansTaken: says nothing about a repeated ExactlyOnce REPLY, which the code drops before its ACK.
- MessageBus.Bus.Publish: the choice of targets is a parameter (the filter is in TopicRouter and PeerFilter); that the call is a sequence of BusNet steps is `BusCalls.PublishIsSteps`.
- RequestProgress.RequestCompletes: needs a copy at hand or a pass that finds the request due, because otherwise no run sends it again (`RequestProgress.NeverSentAgain`); a REQUEST already on the network may still be answered.
- BusProgress.EveryEntryClears: is about entries addressed to another node; a bus never lists itself among its peers.
- CodecSafety.BurstRejected: needs the flags and lengths to survive, because without that it is false. A burst that keeps the checksum flag and alters a length or the time-stamp flag is accepted when the checksum over the other range happens to agree; that this can happen is shown for the payload length only.
- MessageBus.Bus.SendRequest: the reachable targets and whether a transport could discover more are parameters.
- Clock: times are parameters of each step. What is proved of all runs does not need them to be monotone; runs that are shown to exist go on at one given time, which may be the latest so far or later, and the theorems about repeats say that their clock never goes back.
- Handlers: a handler's result is a parameter of the step that runs it; exceptions it throws become an empty result before the bus sees them.
- TimerRuns.FiresExactlyWhenDue: is about ticks; how the thread sleeps from tick to tick is not modelled, and the wheel is running.
- MessageCodec.PacketBuffer.EncodeInto: the time stamp is a parameter; allocation and buffer reuse are not modelled.
- Bus packets: the packet types the bus sends are plain values in Packets; that they survive encoding is `CodecSafety.RoundTrip`.
- MemoryPool.Pool.Allocate: operator new is a parameter that promises memory apart from all memory in use, and does not fail; user bytes behind the header are not modelled; concurrent calls are serialised by the mutex.
- TopicRouter.Router.AddSubscription: ids are unbounded; callbacks are represented by their ids and the lock is not modelled.
- TcpFraming.SendAll: the error a failing call reports is not modelled; the plan says when calls fail and how much the others take.
- TcpFraming.AfterCut: opening, closing and replacing connections are not modelled; the connection is taken to stay usable after a failed send, as the sender's code leaves it.
- TcpFraming.DeliveredIff: is about messages below 4 GiB, because the prefix holds the length modulo 2^32.
- TcpFraming.ClientLoop: runs until the stream ends or a length is not admissible; shutdown from another thread is not modelled.

Parts of the repository that are not modelled:

- Peer registry and the bus's copy of it (src/discovery/peer_registry.h): a map with callbacks; it would only add easy members.
- Retained messages, last-will delivery, serializers, payload storage and the single-producer ring: easier than, or contained in, what is proved here.
- UDP transport, transport manager, endpoint choice, connection table, event loops, configuration, logging, CPU affinity, C and Python bindings, tools and benchmarks.
