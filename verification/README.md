# Verification of the BTA data path

This project models the parts of the BltTofApi library that bring camera data from the
network to the user and proves what they guarantee. The main subject is the UDP data path
of `sdk/bta_eth.c`: datagrams that may be lost, repeated or reordered become frames, gaps
are requested again, and packet buffers travel between two threads. Beside it stand the
bounded queue, the ring buffer, the two CRCs, the frame serializer, the choice of control
channel and the chunked transfers.

How the pieces fit together:

- Code that changes things in place is modelled in that form and proved against functions
  on values: `FrameToParse` and `FrameParser` against `FrameTable`, `LegacyParser` against
  `LegacyFrames`, `Serializer` and `BitConverter` against `FrameFormat` and `FieldCodec`, `CircularBuffer.Ring`
  and `Queue.BVQ` against sequences. What every run keeps is then proved about the functions.
- Protocol v2: `FrameRuns` puts the functions of `FrameTable` together into steps and runs.
  `FrameFaithful`, `FrameOrder`, `FrameCounts`, `FrameExcess`, `FrameRetry`, `FrameLookup`, `FrameGaps` and
  `Retransmission` each prove one thing about all runs. `FrameIntake`, `FrameRequests` and
  `FrameOutcome` say what a datagram or a timeout check does, seen from outside: what is stored
  and which frame makes room, which requests go out, and which frames leave.
- Protocol v1: `LegacyFaithful` says what is handed on and exactly when, `LegacyDelivery` that a
  frame that fits is handed on, and how long the arrays become.
- The serializer: `FrameLayout` says where every byte of a frame stands, `FrameRoundTrip` which
  frames can be read back and that no two encodings can be confused, `FrameReadExact` that
  nothing else is read as a frame.
- `Sequences` puts parts together and `Counting` counts positions in a sequence; the statements that something is in exactly one
  place are made with it.
- `PacketPool` interleaves the reader and the parser thread. It uses the put and get of
  `CircularBuffer` and the v1 step of `LegacyFrames`.
- `QueueThreads` interleaves any number of threads at every point between a semaphore and a
  mutex operation of `common/bvq_queue.c`.
- `Gf2Register` is the theory of shift registers that both CRC modules instantiate.

Clocks, socket outcomes, the outcome of every send, and the contents of newly allocated
buffers are inputs of the model; nothing is assumed about them except that the clock does
not run backwards where that is said.

Properties one might expect that do not hold, with the exact condition under which they do:

- Frames are handed on in order exactly as long as no frame is handed on directly past an
  older one (`FrameOrder.OrderIffGuarded`); with retransmission on that is always so.
- The two packet counts mean "received" and "not available" exactly as long as an NDA lists
  only packets still missing, each once (`FrameCounts.CountedIffClean`), and just as long the
  completeness test is right after the list and whatever packets follow
  (`FrameExcess.TestStaysRightIffClean`). In every run the counts are ahead by exactly the
  entries wasted on the frame (`FrameExcess.ExcessIsWaste`). Two datagrams from the start are
  enough to hand on a frame with a packet missing (`FrameExcess.TwiceListedHandsOn`).
- Whether the right gap is requested in the previous frame can be told from the totals alone
  exactly when they are equal (`Retransmission.TotalsDecideIff`); in runs in which they are, it
  always is the missing tail (`FrameGaps.EqualTotalsAskForTails`). Otherwise a gap can be missed
  and a packet requested that is there, with an honest sender (`FrameGaps.GapIsMissed`,
  `FrameGaps.ReceivedIsRequested`). The look stays within the previous frame's
  table exactly when the current frame has no more packets than the table has entries
  (`Retransmission.LookupStaysIff`, `FrameLookup.StaysInsideIffNoMatter`); two datagrams are
  enough to leave it (`FrameLookup.LongerFrameLooksOutside`).
- The bytes of a packet that passes the length test stay within its frame exactly when its
  position and length add up to less than 2^32 (`FrameTable.StoredInsideIff`); a packet for
  which they do not is stored (`FrameTable.WrappingIsStored`).
- While retransmission is supported a frame can be given up exactly when the retry limit is
  at most 65535 (`FrameRetry.GivenUpIff`).
- In protocol v1 the last packet completes its frame exactly when the byte count holds
  nothing beyond the packets in the array (`LegacyFaithful.DeliversIff`); regrowth and
  completion leave such bytes behind, and a frame all of whose packets are there is then not
  handed on (`LegacyFaithful.AllPresentYetNothing`). The choice of the array to give up, which
  a comment at sdk/bta_eth.c:1968 calls robust against overflows, falls on an unused one or that
  of the oldest frame exactly when no counter is from before the 16-bit wrap-around, or just one
  is and all arrays have been used (`LegacyFaithful.LosesLeastIff`; two runs from the start after
  which it does not are `LegacyFaithful.YoungerGivenUp` and `LegacyFaithful.UsedGivenUp`).
- `BVQclear` with a callback finishes exactly when no dequeuer holds a token while it runs
  (`QueueThreads.ClearFinishesIffQuiet`); three threads are enough for it not to
  (`QueueThreads.ClearGetsStuck`).
- A serialized frame can be read back exactly when it is at least three bytes longer than
  the frame structure in memory (`FrameRoundTrip.RoundTripIff`); the shortest frames are not.
- The length announced for a frame is the length written, and the test for room is right,
  exactly for frames of less than 2^32 bytes (`Serializer.AnnouncedIsWrittenIff`); there is a
  longer one that passes as one of 72 (`Serializer.LargestOverruns`).
- The chunked transfers cover the buffer exactly when no 32-bit sum wraps around, and the
  ten-part receive stands still for one to nine bytes (`ChunkedTransfer.TransfersCoverIff`).
- Between attempts, TCP control that is wanted can be attempted again exactly when its socket
  is closed (`ControlChannel.TriedAgainIff`); an answer that is not understood leaves it open
  (`ControlChannel.AnswerNotUnderstood`).

## Model

| member | source | states |
|---|---|---|
| FrameTable.OldestMeans | sdk/bta_eth.c:2560-2571 | what is picked is in use, no other frame in use is older, and among equals it is the first; nothing is picked only if nothing is in use with less than the largest 64-bit timestamp |
| FrameTable.OlderThanMeans | sdk/bta_eth.c:2574-2585 | what is picked is the oldest frame, if it is not younger than the bound; among equals it is the last |
| FrameTable.NewestBeforeMeans | sdk/bta_eth.c:2545-2557 | what is picked is the youngest of the frames strictly older than the reference |
| FrameTable.FindMeans | sdk/bta_eth.c:2229-2240 | no slot is found exactly when none is in use for the frame counter |
| FrameTable.FreeMeans | sdk/bta_eth.c:2228-2240 | no free slot is found exactly when all are in use |
| FrameTable.DrainMeans | sdk/bta_eth.c:2325-2332 | the drain loop ends; it hands on from old to young, the triggering frame last, and leaves no frame strictly older in the table |
| FrameTable.DrainConserves | sdk/bta_eth.c:1840-1847 | exactly the frames that a drain retires are handed on: nothing is lost or handed on twice |
| FrameTable.DrainNotBefore | sdk/bta_eth.c:2325-2332 | nothing handed on is older than what was in use |
| FrameTable.ClaimKeepsWellFormed | sdk/bta_eth.c:2227-2263 | the slot made ready for a packet is in use for that packet's frame and its buffers fit it |
| FrameTable.ReceiveKeepsWellFormed | sdk/bta_eth.c:2216-2299 | any data packet that passed the header checks keeps every index within the tables and the tables and buffers in step with the frame, also when buffers are reused for a smaller or larger frame |
| FrameTable.StoredInsideIff | sdk/bta_eth.c:2216-2293 | the bytes of a packet that is stored stay within its frame, and within the buffer, if and only if position and length add up to less than 2^32, which the 32-bit length test does not see to |
| FrameTable.WrappingIsStored | sdk/bta_eth.c:2216-2299 | a packet of 32 bytes at position 0xFFFFFFF0 of a 32-byte frame passes the tests, is counted, and all its bytes go elsewhere |
| FrameTable.MarkNdaKeepsWellFormed | sdk/bta_eth.c:2200-2209 | an NDA changes nothing but the NDA count and packet sizes, whose number stays |
| FrameIntake.KnownFrame | sdk/bta_eth.c:2216-2299 | a packet of a frame that has a slot is stored there, with its bytes, place, size and time and nothing else changed; if it contradicts the frame the frame is gone from the table, if it was announced as unavailable nothing happens; no other slot is touched |
| FrameIntake.LateRetransmission | sdk/bta_eth.c:2241-2246 | a packet sent again, of a frame without a slot, changes nothing |
| FrameIntake.NewFrame | sdk/bta_eth.c:2227-2299 | any other packet of a frame without a slot starts it, in a slot not in use or else in that of the oldest frame, with nothing but this packet received, no retries counted and its times set; no other slot is touched |
| FrameIntake.FirstPacketGone | sdk/bta_eth.c:2192-2199 | an NDA that starts with packet 0 leaves no slot in use for its frame and touches no other |
| FrameIntake.ListTakenIn | sdk/bta_eth.c:2200-2209 | any other NDA marks exactly the packets listed before the first number out of range, counts each entry, and changes nothing else |
| FrameRuns.StepKeepsWellFormed | sdk/bta_eth.c:1791-2381 | every step of the parser keeps the table well-formed, so every run is defined |
| FrameRuns.StepSameFrames | sdk/bta_eth.c:2314-2379 | what follows a packet or a timeout never changes what a slot holds of its frame, and only frames of the table are handed on |
| FrameOutcome.StepHandsOn | sdk/bta_eth.c:1830-1865 | every frame that a timeout check, or a datagram once taken in, takes out of the table is handed on in that step as it was |
| FrameOutcome.CheckSpares | sdk/bta_eth.c:1830-1834 | a check leaves a frame in the table and unchanged unless it, or a frame not older, has received nothing for longer than the timeout |
| FrameFaithful.InitMatches | sdk/bta_helper.c:74-148 | a slot just made ready claims nothing about the frame's bytes, whatever its buffer held before |
| FrameFaithful.StoreMatches | sdk/bta_eth.c:2278-2298 | storing a packet that was sent, also a repeated one, keeps every packet marked received equal to the bytes sent |
| FrameFaithful.MarkNdaMatches | sdk/bta_eth.c:2200-2209 | an NDA for any packets, also received ones, keeps the match |
| FrameFaithful.StepFaithful | sdk/bta_eth.c:1791-2381 | one step, with any loss, repetition and order, keeps all slots and all frames handed on faithful |
| FrameFaithful.RunFaithful | sdk/bta_eth.c:2216-2299 | in every run every frame handed on, and every slot at its end, holds exactly the sent bytes wherever a packet is marked received, also when frame counters come to be used again |
| FrameFaithful.AllReceived | sdk/bta_eth.c:2293-2298 | once every packet is marked received the buffer is the frame that was sent |
| FrameFaithful.WholeFramesAreExact | sdk/bta_eth.c:2216-2332 | from the start, every frame handed on with all packets received is a frame that was sent, byte for byte |
| FrameOrder.DrainOrderly | sdk/bta_eth.c:2325-2332 | a drain continues an ordered delivery and leaves nothing older than what it handed on |
| FrameOrder.CheckSlotsOrderly | sdk/bta_eth.c:1828-1865 | the timeout check, with several frames timed out at once, keeps delivery ordered |
| FrameOrder.RunOrdered | sdk/bta_eth.c:1828-2379 | over every run in which no frame is handed on past an older one, timestamps of delivered frames never decrease |
| FrameOrder.RetransmittingRunsAreOrdered | sdk/bta_eth.c:2322-2333 | with the retransmission mode on and every datagram resendable, delivery is in order in every run from the start |
| FrameOrder.OrderIffGuarded | sdk/bta_eth.c:2316-2320 | a step keeps the order against every possible next timeout check if and only if it does not hand on a frame directly while an older one is in use |
| FrameOrder.DirectDeliveryCanOvertake | sdk/bta_eth.c:2316-2320 | with the mode off there is a run from the start that delivers a younger frame before an older one |
| FrameCounts.StoreCounts | sdk/bta_eth.c:2278-2298 | a new packet is counted once, a repeated one not again, and the excess of the counts stays |
| FrameCounts.MarkNdaCounts | sdk/bta_eth.c:2200-2209 | an NDA list moves the counts ahead of the packets accounted for by exactly the number of entries that were not missing (any more), in 16 bits |
| FrameCounts.WastedNoneIffClean | sdk/bta_eth.c:2200-2209 | no entry is wasted exactly when the list names only packets still missing, each once |
| FrameCounts.CountedIffClean | sdk/bta_eth.c:2200-2209 | after an NDA the counts are still the numbers of received and unavailable packets if and only if the list was clean |
| FrameCounts.CompleteIffMissingIsExcess | sdk/bta_eth.c:2318 | in every case the completeness test succeeds exactly when as many packets are missing as the counts are in excess |
| FrameCounts.ReachableCounts | sdk/bta_eth.c:2173-2323 | in every reachable state slots in use have distinct frame counters and the completeness test is exact about the excess |
| FrameCounts.CleanRunsAreExact | sdk/bta_eth.c:2173-2323 | if NDAs are clean, then in every reachable state "got + nda == total" holds exactly when no packet is missing, and both counts are the numbers they stand for |
| FrameCounts.CompleteFramesAreExact | sdk/bta_eth.c:2317-2332 | in every clean run from the start every frame handed on that tests complete with nothing unavailable is the frame that was sent, byte for byte |
| FrameCounts.StepGoesOutIff | sdk/bta_eth.c:2314-2333 | a datagram taken into a slot makes that frame go out if and only if none of its packets is missing any more; otherwise nothing goes out |
| FrameCounts.GoesOutIffLastMissing | sdk/bta_eth.c:2314-2333 | in every clean run every frame in the table still misses a packet, so that it goes out with exactly the datagram that settles the last one |
| FrameExcess.ExcessIsWaste | sdk/bta_eth.c:2173-2323 | in every run the counts of a slot in use are ahead by exactly the number of NDA entries wasted on it since it was made ready, in 16 bits, and its frame tests complete exactly when that many packets are missing |
| FrameExcess.TestStaysRightIffClean | sdk/bta_eth.c:2200-2209 | "got + nda == total" tells whether a packet is missing after an NDA list, and after every further sequence of packets of the frame, if and only if the list named only packets still missing, each once |
| FrameExcess.TwiceListedHandsOn | sdk/bta_eth.c:2205-2320 | from the start, a packet of an honest sender's frame of three and an NDA that lists one missing packet twice make the parser hand that frame on with another packet missing |
| FrameRetry.CheckSlotsActOnEach | sdk/bta_eth.c:1830-1865 | each slot goes through its own timeout check or is retired by the drain for another frame, nothing else |
| FrameRetry.RetryCountsWithin | sdk/bta_eth.c:1835-1855 | with a fixed limit of at most 65535, whole or not, no retry count passes the least whole number not below it, in any run |
| FrameRetry.RequestsAreBounded | sdk/bta_eth.c:1832-1865 | while a frame stays in the table its retry count is exactly the number of checks that acted on it, hence at most what the limit allows, whatever else arrives |
| FrameRetry.NeglectedFrameLeaves | sdk/bta_eth.c:1832-1865 | a frame for which nothing more arrives, whatever arrives for others, is gone after as many checks that act on it as it has requests left and one more, and stays away |
| FrameRetry.WideLimitNeverReached | sdk/bta_eth.c:1835-1855 | a limit above 65535 is never reached: no number of checks gives the frame up |
| FrameRetry.GivenUpIff | sdk/bta_eth.c:1832-1865 | while retransmission is supported some number of checks gives a frame up if and only if the limit is at most 65535 |
| Retransmission.OwnGapIsMaximal | sdk/bta_eth.c:2337-2347 | the requested range is the maximal run of missing packets ending just before the packet received; there is none exactly when that packet's predecessor is there |
| Retransmission.TotalsDecideIff | sdk/bta_eth.c:2348-2365 | whatever has been received and whatever stands beyond the table, the range requested in the previous frame is its missing tail, if and only if both frames have equally many packets |
| Retransmission.LookupStaysIff | sdk/bta_eth.c:2355 | what stands beyond the previous frame's table does not matter if and only if the current frame has no more packets than that table has entries |
| FrameLookup.StaysInsideIffNoMatter | sdk/bta_eth.c:2348-2365 | for a whole step: what stands beyond the table makes no difference, whatever the outcome of the request, if and only if the look stays in the table |
| FrameLookup.EqualTotalsStayInside | sdk/bta_eth.c:2348-2365 | in every run in which all frames have equally many packets no look leaves a table |
| FrameLookup.LongerFrameLooksOutside | sdk/bta_eth.c:2348-2365 | with an honest sender, packet 0 of a frame of two packets and packet 0 of one of three make the parser look beyond the table |
| FrameGaps.EqualTotalsAskForTails | sdk/bta_eth.c:2348-2365 | in every run in which all frames have equally many packets, each look at a previous frame requests exactly the maximal run of missing packets that ends with its last one, and nothing if that one is there |
| FrameGaps.GapIsMissed | sdk/bta_eth.c:2355 | from the start, with an honest sender, packets 0 and 1 of a frame of three and packet 0 of one of two: nothing is requested though packet 2 is missing |
| FrameGaps.ReceivedIsRequested | sdk/bta_eth.c:2355 | the same with packets 0 and 2: packet 2 is requested though it has been received |
| Retransmission.WantedIsTheMissing | sdk/bta_eth.c:2620-2623 | a complete request names exactly the missing packets, in ascending order, each once |
| Retransmission.GapIsMissing | sdk/bta_eth.c:2689-2690 | a gap request names missing packets only |
| FrameRequests.LooksBackMeans | sdk/bta_eth.c:2334-2354 | the previous frame is looked at exactly when every packet before the one received is missing |
| FrameRequests.GapIsAskedFor | sdk/bta_eth.c:2334-2373 | if all sends succeed, the batches sent are exactly the maximal run of missing packets before the one received, and the frame's retry time is the interval after the clock |
| FrameRequests.DueIsCounted | sdk/bta_eth.c:1846-1851 | if all sends succeed, the batches sent for a frame whose retry is due are exactly its missing packets, its retry time is the interval after the clock, and its retry count is one higher |
| FrameToParse.FrameToParse.Init | sdk/bta_helper.c:74-148 | making a slot ready in place, growing buffers only when needed, is what FrameTable says; an empty frame is refused and changes nothing |
| FrameToParse.FrameToParse.Store | sdk/bta_eth.c:2278-2298 | copying a packet in place writes exactly its bytes at its position and counts it as FrameTable says |
| FrameToParse.FrameToParse.MarkNda | sdk/bta_eth.c:2200-2209 | the loop over the list, whose pointer stops at a counter out of range, marks what FrameTable says |
| FrameToParse.FrameToParse.GapBegin | sdk/bta_eth.c:2341-2346 | the backward search finds where the gap begins |
| FrameToParse.FrameToParse.SendRetrReqComplete | sdk/bta_eth.c:2613-2672 | non-empty batches of at most 128 go out that make up exactly the missing packets; after a failed send they are a prefix and the retry time stays |
| FrameToParse.FrameToParse.SendRetrReqGap | sdk/bta_eth.c:2677-2738 | the same for the numbers of a gap; the last 16-bit number as end is refused |
| FrameParser.FrameParser.GetOldest | sdk/bta_eth.c:2560-2571 | the loop returns the frame that FrameTable picks |
| FrameParser.FrameParser.GetOlderThan | sdk/bta_eth.c:2574-2585 | the loop returns the frame that FrameTable picks |
| FrameParser.FrameParser.GetNewestBeforeThis | sdk/bta_eth.c:2545-2557 | the loop returns the frame that FrameTable picks |
| FrameParser.FrameParser.DrainFor | sdk/bta_eth.c:2325-2332 | the loop that hands frames on in place does exactly the drain |
| FrameParser.FrameParser.TakeData | sdk/bta_eth.c:2216-2299 | taking a data packet into the table of objects does exactly what FrameTable says to the table and names the same slot |
| FrameParser.FrameParser.TakeNda | sdk/bta_eth.c:2173-2215 | the same for an NDA, including one that gives the frame up |
| FrameParser.FrameParser.RequestGapsFor | sdk/bta_eth.c:2334-2373 | the maximal run of missing packets before the one received is requested, if there is one; so is the end of the previous frame, if all before are missing and its entry for this frame's last number is 0, wherever that entry is; a success carries the clock, the two retry times follow from it, and nothing else changes |
| FrameParser.FrameParser.CheckTimeouts | sdk/bta_eth.c:1828-1865 | the loop over the frames does exactly the timeout check; for each frame that at its turn has waited too long, has reached its retry time and has retries left, of a sender that resends, batches go out that make up exactly what is missing, and for no other frame anything |
| FrameParser.FrameParser.OnData | sdk/bta_eth.c:2131-2379 | a data datagram changes the parser exactly as one step of a run, so that everything proved about runs holds of the object; with the mode on, a sender that resends and the frame not complete, the requests of RequestGapsFor go out, and otherwise none |
| FrameParser.FrameParser.OnNda | sdk/bta_eth.c:2131-2379 | the same for an NDA datagram |
| FrameParser.FrameParser.OnCheck | sdk/bta_eth.c:1828-1865 | a timeout check is one step of a run, and requests what CheckTimeouts says |
| FrameParser.FrameParser.OnRejected | sdk/bta_eth.c:2134-2165 | a datagram that fails a check changes nothing but the note whether the sender resends |
| LegacyFrames.StepConserves | sdk/bta_eth.c:1962-2129 | every packet buffer held before, and the one that came, is afterwards held in one cell or given back, exactly once, over eviction, regrowth, replacement and completion |
| LegacyFaithful.CopyFaithful | sdk/bta_eth.c:2084-2108 | whatever is missing, bytes of the right total length are the right bytes |
| LegacyFaithful.StepFaithful | sdk/bta_eth.c:1962-2128 | a frame handed on is the frame sent under its counter, whatever the byte count says |
| LegacyFaithful.RunFaithful | sdk/bta_eth.c:1962-2128 | over every run, with any order, loss, repetition, eviction and regrowth, every frame handed on is one that was being sent |
| LegacyFaithful.DeliversIff | sdk/bta_eth.c:2065-2108 | a packet makes its frame go out if and only if it was the last one missing and the byte count held nothing stale |
| LegacyFaithful.AllPresentYetNothing | sdk/bta_eth.c:2015-2108 | there is a run of the sender's packets from the start after which all packets of a frame are in its array and nothing has been handed on |
| LegacyFaithful.StaleStays | sdk/bta_eth.c:2065-2108 | a stale byte count stays stale; no frame goes out twice from one array |
| LegacyFaithful.NewLaneIsClean | sdk/bta_eth.c:1967-2009 | an array taken over for a new frame has nothing stale |
| LegacyFaithful.RegrowthLeavesStaleBytes | sdk/bta_eth.c:2015-2045 | regrowth leaves every byte count standing with no packet to account for it |
| LegacyFaithful.CompletionLeavesStaleBytes | sdk/bta_eth.c:2076-2108 | completing a frame empties its array but not its byte count |
| LegacyFaithful.LosesLeastIff | sdk/bta_eth.c:1967-1997 | of arrays unused or holding recent frames, the one given up is unused if one is, else that of the oldest frame, if and only if no counter is from before the wrap-around, or just one is and none is unused |
| LegacyFaithful.YoungerGivenUp | sdk/bta_eth.c:1967-1997 | after frames 0, 65535 and 65534 have begun, frame 1 takes the array of a frame two frames old where one three frames old is there |
| LegacyFaithful.UsedGivenUp | sdk/bta_eth.c:1967-1997 | after frame 65535 has begun, frame 0 takes its array though two arrays have never been used |
| LegacyFaithful.NoLengthNoFrames | sdk/bta_eth.c:2035 | once doubling has taken the 16-bit length to 0, nothing is ever handed on again |
| LegacyDelivery.LengthOfRun | sdk/bta_eth.c:2015-2045 | after every run the arrays have length 512 times two to the number of packets that did not fit, and none from the seventh on |
| LegacyDelivery.FrameThatFitsIsHandedOn | sdk/bta_eth.c:1962-2108 | a frame not yet begun whose packet numbers fit the arrays is handed on once, byte for byte, when its packets have come in any order |
| LegacyParser.PacketLane.Evict | sdk/bta_eth.c:1969-1981 | the loop gives back exactly the packets held, in order, and leaves the array empty |
| LegacyParser.PacketLane.Store | sdk/bta_eth.c:2065-2074 | storing in place replaces and counts as LegacyFrames says, in 32 bits |
| LegacyParser.PacketLane.Complete | sdk/bta_eth.c:2076-2108 | the copy loop gives packets back and puts the frame together as LegacyFrames says |
| LegacyParser.LegacyParser.Handle | sdk/bta_eth.c:1962-2129 | a v1 datagram changes the three arrays exactly as one step, with the same packets given back and the same frame handed on |
| PacketPool.StepConserves | sdk/bta_eth.c:1637-1742 | each step of the reader or the parser keeps every allocated buffer in exactly one place |
| PacketPool.StartConserved | sdk/bta_eth.c:398-408 | so it is after preallocation, also if that stopped early |
| PacketPool.ParseQueueHasRoom | sdk/bta_eth.c:1728-1732 | whenever the reader has a buffer to put, the parse queue has room |
| PacketPool.FillQueueHasRoom | sdk/bta_eth.c:2308-2312 | whenever the parser gives a buffer back, the fill queue has room |
| PacketPool.RunConserves | sdk/bta_eth.c:1637-2312 | in every interleaving every allocated buffer is in exactly one of the two queues, the two threads and the v1 arrays, at most 5000 exist, and no put finds its queue full |
| PacketPool.RunFromStartInOrder | sdk/bta_eth.c:1637-2312 | in every interleaving from the start the parser gets exactly the buffers the reader put, in that order, the reader gets those the parser gave back, in that order, after the preallocated ones, and the v1 arrays are what the kept datagrams make of them |
| PacketPool.NextInOrder | sdk/bta_eth.c:1637-1739 | a free parser takes the first buffer put and not yet taken; a reader takes the first free one, allocates only if none is free, and puts a received datagram behind those before it |
| PacketPool.RingsFit | sdk/bta_eth.c:385-397 | the queues never hold more than their length |
| CircularBuffer.Ring.GetSize | common/bcb_circular_buffer.c:129-146 | the size computed in 32-bit arithmetic, also when it wraps, is the number of items stored |
| CircularBuffer.Ring.Put | common/bcb_circular_buffer.c:168-186 | an item is appended, or the ring is full and nothing changes |
| CircularBuffer.Ring.Get | common/bcb_circular_buffer.c:188-214 | the oldest item is taken, or the ring is empty and nothing changes |
| CircularBuffer.Ring.Reset | common/bcb_circular_buffer.c:78-121 | with a callback exactly the stored items are freed, once, in order; then the ring is empty |
| CircularBuffer.Ring.IsEmpty | common/bcb_circular_buffer.c:150-157 | the indices and the flag say empty exactly when no item is stored |
| CircularBuffer.Ring.IsFull | common/bcb_circular_buffer.c:159-166 | the flag says full exactly when as many items are stored as fit |
| CircularBuffer.PutView | common/bcb_circular_buffer.c:168-186 | writing at the head, around the end or not, appends to the stored sequence |
| CircularBuffer.GetView | common/bcb_circular_buffer.c:188-199 | reading at the tail, around the end or not, takes the first of the stored sequence |
| CircularBuffer.RunIsFifo | common/bcb_circular_buffer.c:78-214 | over every run of put, get and reset what left and what is stored is what was accepted, in that order |
| Queue.OldestIndexIffLength | common/bvq_queue.c:116-119 | the signed 32-bit index computation finds the oldest item in every state if and only if the length is at most 2^31 |
| Queue.BVQ.Enqueue | common/bvq_queue.c:148-215 | with room the item is appended; when full, DropOldest evicts and frees the oldest and appends, DropCurrent frees the new item and leaves the queue as it is, AvoidDrop refuses it and leaves it with the caller |
| Queue.BVQ.Peek | common/bvq_queue.c:218-245 | one look returns the item that dequeue would return, and is refused where that could be freed |
| Queue.BVQ.Dequeue | common/bvq_queue.c:248-268 | the oldest item is taken |
| Queue.BVQ.GetList | common/bvq_queue.c:271-295 | the list is the queued sequence in the order of dequeuing |
| Queue.BVQ.Clear | common/bvq_queue.c:108-127 | with a callback everything is freed, oldest first, and the queue is empty; without one nothing happens |
| Queue.EnqueueView | common/bvq_queue.c:155-170 | advancing and writing at the newest position appends, or, when full, replaces the oldest and appends |
| Queue.EnqueueCounts | common/bvq_queue.c:148-215 | in every mode an accepted item is queued or dropped, and whatever makes room is dropped |
| Queue.RunsAccounted | common/bvq_queue.c:108-268 | over every run in every mode items leave in the order they were stored, every accepted item is exactly once queued, dequeued or dropped, and exactly the dropped ones are freed, once, if there is a callback |
| QueueThreads.StepKeeps | common/bvq_queue.c:108-268 | at every point between a semaphore and a mutex operation, for any number of threads, count and tokens agree up to the owner's pending change |
| QueueThreads.TakingFindsAnItem | common/bvq_queue.c:258-266 | a dequeuer that owns the mutex finds the queue not empty |
| QueueThreads.RunKeeps | common/bvq_queue.c:148-268 | in every run, whenever the mutex is free the count equals the semaphore plus the tokens not yet cashed in, no dequeue meets an empty queue, and items leave in the order they entered |
| QueueThreads.ClearProgresses | common/bvq_queue.c:113-125 | with no token out every step of clear brings it one nearer its end and frees the oldest item |
| QueueThreads.ClearNeverFinishes | common/bvq_queue.c:113-125 | once a dequeuer holds a token while clear owns the mutex, no continuation lets clear finish |
| QueueThreads.ClearGetsStuck | common/bvq_queue.c:108-127 | such a state is reached from the start by three threads: one enqueues, one takes the token, one clears |
| QueueThreads.ClearFinishesIffQuiet | common/bvq_queue.c:108-127 | given its steps, clear finishes if and only if no dequeuer holds a token while it runs; then all items have been freed once, oldest first, and count and tokens are 0 |
| Crc32.TableStepIsStep | common/crc32.c:146-148 | a table step at the width of `unsigned long` is eight polynomial shifts of a 32-bit register |
| Crc32.SignDoesNotMatter | common/crc32.c:130-143 | the sign extension of a `char` does not change the register |
| Crc32.CRC32ccitt | common/crc32.c:106-128 | the table-driven loop computes the bitwise checksum, for any length, also none |
| Crc32.CrcBlock | common/crc32.c:130-143 | a block is the single-byte step folded over its bytes |
| Crc32.BlocksChain | common/crc32.c:130-148 | a block fed in pieces gives what it gives in one |
| Crc32.BurstChangesChecksum | common/crc32.c:32-121 | two buffers of equal length that differ, but only within four consecutive bytes, have different checksums |
| Crc32.ChecksumIsRemainder | common/crc32.c:32-128 | the checksum is the complement of the remainder of long division of the message, preset and padded, by the polynomial |
| Crc32.PolynomialIsMirrored | common/crc32.c:32-98 | the table's constant is 0x04C11DB7 with its bits reversed |
| Crc32Table.EntryIsShift8 | common/crc32.c:32-98 | each of the 256 table entries is eight shifts of its index |
| Crc7.Crc7 | common/crc7.c:71-85 | the loop computes the remainder of the message by x^7 + x^3 + 1 and stays below 0x80 |
| Crc7.IndexInRange | common/crc7.c:87-89 | the table index is in range exactly as long as the running value is below 0x80 |
| Crc7.EntryIsShift8 | common/crc7.c:33-66 | each of the 256 table entries is eight shifts of its index |
| Crc7.StateIsRemainder | common/crc7.c:71-89 | the running value is the remainder of long division of the bits read so far |
| FieldCodec.DecodeEncode | common/bitconverter.c:6-100 | numbers of any widths written one after the other are read back, whatever follows them |
| FrameRoundTrip.ReadChannelBack | sdk/bta_serialization.c:430-505 | a channel with its data and metadata is read back, leaving what follows |
| FrameRoundTrip.RoundTripIff | sdk/bta.c:2584-2636 | a serialized frame followed by anything is read back equal except for the sequence counter, which is not serialized, if and only if the input passes the reader's first length check |
| FrameRoundTrip.EmptyFrameDoesNotRoundTrip | sdk/bta.c:2589-2592 | a frame without channels and metadata takes 31 bytes and is refused by the reader with 8-byte pointers |
| FrameRoundTrip.Unambiguous | sdk/bta.c:2510-2568 | frames with the same bytes agree in every serialized member, and no encoding is a proper prefix of another |
| FrameReadExact.ReadIsWritten | sdk/bta.c:2584-2636 | whatever the reader takes for a frame is the serialized form of exactly that frame, followed by what it leaves |
| FrameReadExact.ReadIff | sdk/bta.c:2584-2636 | an input is read as a frame if and only if it passes the first length check and begins with the serialized form of a frame |
| FrameReadExact.CutOffIsRefused | sdk/bta_serialization.c:406-545 | a serialized frame cut off anywhere is not read as a frame |
| FrameLayout.Layout | sdk/bta.c:2525-2568 | byte by byte where preamble, version and each member of a frame stand, low byte first, and that the channels and the metadata follow one another in order |
| FrameLayout.ChannelLayout | sdk/bta.c:2536-2559 | the same for the members, data and metadata of a channel |
| FrameLayout.MetadataLayout | sdk/bta.c:2561-2566 | the same for an item of metadata |
| FrameFormat.OneChannelLength | sdk/bta.c:2478-2500 | a channel takes 42 bytes and its data and metadata |
| FrameFormat.SerializedLength | sdk/bta.c:2465-2507 | a frame takes 31 bytes and its channels and metadata |
| BitConverter.FromUInt16 | common/bitconverter.c:15-21 | the low byte is written first and the high byte after it, at the offset or, without one, at the start, and nothing else changes |
| BitConverter.FromUInt32 | common/bitconverter.c:24-30 | the four bytes are written from the lowest to the highest, at the offset or, without one, at the start, and nothing else changes |
| BitConverter.ToUInt32 | common/bitconverter.c:72-80 | the number read is the sum of the four bytes, the first the lowest |
| BitConverter.BytesOfValue | common/bitconverter.c:51-100 | every byte string is the representation of the number it is read as |
| BitConverter.RoundTrip32 | common/bitconverter.c:24-80 | what is written is read back |
| Serializer.GetSerializedLength | sdk/bta.c:2465-2507 | the length added up in 32 bits is that of what is written, modulo 2^32 |
| Serializer.WriteChannel | sdk/bta.c:2537-2560 | a channel's fields, data and metadata are written one after the other at the index and nothing else changes |
| Serializer.AnnouncedIsWrittenIff | sdk/bta.c:2510-2519 | the 32-bit length announced is the length written, and no buffer that passes the test for room is too small, if and only if the frame takes less than 2^32 bytes |
| Serializer.LargestOverruns | sdk/bta.c:2510-2519 | a valid frame with 2^32 - 1 data bytes is announced as, and accepted for a buffer of, 72 bytes |
| Serializer.SerializeFrame | sdk/bta.c:2510-2568 | exactly the announced number of bytes is written, they are the frame's encoding, and nothing beyond them changes; a buffer too small is refused and untouched |
| ControlChannel.NeverBothInUse | sdk/bta_eth.c:978-1361 | over all socket outcomes and interleaved calls UDP and TCP control are never both in first attempt, reconnecting or connected |
| ControlChannel.NeverBothInUseFromStart | sdk/bta_eth.c:978-1361 | so it is in every run from opening, whichever connections the user wants |
| ControlChannel.UdpUpExcludesTcp | sdk/bta_eth.c:1042-1056 | once UDP control is up it stays up and TCP stays deactivated until shutdown |
| ControlChannel.TcpUpExcludesUdp | sdk/bta_eth.c:1117-1137 | once TCP control is up UDP stays deactivated for good, even while TCP reconnects |
| ControlChannel.LeftOpenIff | sdk/bta_eth.c:4093-4171 | a failed first attempt leaves its socket open exactly when the answer was not understood or select failed after part of it had come |
| ControlChannel.HalfOpenIsNeverRetried | sdk/bta_eth.c:1085-1152 | with the socket left open, whatever UDP does, no run makes another attempt over TCP |
| ControlChannel.TriedAgainIff | sdk/bta_eth.c:1085-1152 | between attempts, with TCP wanted or lost: an attempt over TCP can be reached, and TCP can be connected, if and only if its socket is closed |
| ControlChannel.AnswerNotUnderstood | sdk/bta_eth.c:1117-1137 | such an open socket is reached from the start, also when both connections are wanted |
| ControlChannel.LossIsNoted | sdk/bta_eth.c:1335-1354 | when the monitor gives up the connection that is up, it becomes one to be connected again, over TCP with its socket closed, and the mutex is free |
| ControlChannel.FailureIsNoted | sdk/bta_eth.c:4021-4320 | a connection that fails under a call or a probe is noted as lost in the same way; an answer over UDP makes it connected |
| ControlChannel.LostTcpCanComeBack | sdk/bta_eth.c:1085-1152 | in every run after TCP has come up, whenever it is lost its socket is closed and some continuation connects it again |
| ControlChannel.LostUdpComesBack | sdk/bta_eth.c:4021-4060 | lost UDP control is connected again by the first answer a call receives |
| ControlChannel.WantedUdpComesUp | sdk/bta_eth.c:1001-1049 | UDP control that is wanted is connected by one round of the monitor in which its message is answered, and TCP is deactivated |
| ControlChannel.ShutdownClosesSockets | sdk/bta_eth.c:1368-1395 | in every run, once the monitor has ended no control socket is open |
| ChunkedTransfer.CoversIffNoWrap | sdk/bta_eth.c:3309-3357 | the slices are consecutive, never pass the end and end exactly there if and only if no 32-bit sum of the loop wraps around |
| ChunkedTransfer.TransfersCoverIff | sdk/bta_eth.c:3361-3402 | which lengths each of the three transfers gets right |
| ChunkedTransfer.NoProgress | sdk/bta_eth.c:3960-3984 | with parts of no bytes, as for one to nine bytes, the loop stands still |
| ChunkedTransfer.SendInParts | sdk/bta_eth.c:3309-3357 | the loop ends and its slices, none empty and none longer than the part size, make up the whole buffer, or a prefix if a slice fails every attempt |
| ChunkedTransfer.ReceiveInParts | sdk/bta_eth.c:3960-3984 | the loop ends and the buffer holds the whole response, or a receive failed |

## Left out

- Sockets, select, threads, mutexes, semaphores and the clock themselves: their outcomes are inputs, their operations steps.
- Allocation failure: assumed not to happen, except where it is a branch of the packet pool.
- Shutdown of the parser thread (sdk/bta_eth.c:2383-2402): conservation of packet buffers is claimed only until closing.
- Statistics, logging, LibParams and the count of missed packets: they do not influence what is modelled.
- CRC-16 of v2 datagrams and CRC-32 of v1 datagrams as part of a step: a datagram that fails any check is `Rejected`.
- Parsing of a frame handed on, the grab callback and the frame queue behind it: handing on is the delivery.
- FrameTable.Write: bytes written beyond the end of the frame buffer land in memory that is not modelled.
- FrameTable.Entry: what stands beyond a table of sizes is an input; that reading it could fault is not modelled.
- FrameTable.ReceiveNda: the first listed counter is an input of its own, so that a list of one byte is covered.
- FrameTable.TimedOut: the wait timeout and the attempt limit are floats in the code and reals here.
- FrameParser.FrameParser.GetOldest: slots are named by their index where the code returns a pointer.
- FrameParser.FrameParser.OnData: a frame handed on is returned as a value, its buffer stays with the object; the content of a newly allocated buffer is named only in a ghost result.
- LegacyParser.LegacyParser.Regrow: the new arrays are allocated at once, in the code at the head of the next loop.
- LegacyFrames.Copy: the 32-bit offset is unbounded here; the packets of one array cannot add up to 2^32 bytes.
- PacketPool.Step: a buffer that leaves an array is the parser's until it is back in the fill queue; in the code it is for a moment in both.
- Queue.BVQ.Peek: one look; the loop that repeats it until a timeout is left out. That it and the other calls find the right item is said for queues of at most 2^31 places, the exact condition of Queue.OldestIndexIffLength; for longer ones only how many items are taken, and what is read outside the ring is an input.
- Queue.BVQ.Dequeue: a call on an empty queue times out; waiting is modelled in QueueThreads.
- QueueThreads.Proceed: the ring is its sequence of items; Queue.BVQ ties the two together.
- Null handles and null out-parameters of the queue, the ring buffer and the serializer: plain argument checks.
- Serializer.SerializeFrame: not stated for just the calls that write beyond the buffer, which passes the test for room although it is too small (Serializer.AnnouncedIsWrittenIff says for which frames there is such a buffer).
- FrameFormat.Deserialize: compressed frames and versions 1 to 4 are read elsewhere; an empty allocation is taken to succeed; where the reader goes on past the end of its input the result is `Overrun`.
- Floating-point members of a frame are 32-bit patterns; the host is taken to be little-endian.
- ControlChannel.Next: what is sent and received is left out, and the keep-alive timer is an input.
- ChunkedTransfer.SendInParts: one loop stands for the two send loops, which differ in part size and attempts; what is put around a slice is left out. Not stated for just the calls that read past the end of the buffer: a 32-bit sum wraps around (ChunkedTransfer.CoversIffNoWrap) and no slice before that fails.
- ChunkedTransfer.ReceiveInParts: the same, and not for one to nine bytes of which no receive ever fails, with which the loop does not end (ChunkedTransfer.NoProgress).
- UDP data connection, auto-configuration, register access, discovery, flash status polling, shared memory, UART, USB and image processing.
