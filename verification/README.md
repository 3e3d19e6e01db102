# A verified model of an RTP proxy and its SIP router

A Dafny model of the algorithms at the core of the RTP proxy (`rtpproxy/`), of four
components of the SIP router (`sip_router/`) and of one database migration script
(`migrate_db/`), with proofs of what they promise. The modules import each other and nothing else;
`dafny verify dfyconfig.toml` checks the whole project.

## What is modelled

**The re-packetizer** (`Words`, `Codec`, `RtpParse`, `ResizerSpec`, `ResizerProofs`,
`ResizerOrder`, `ResizerSize`, `ResizerRuns`, `ResizerTimeline`, `ResizerRecount`, `RtpPackets`,
`PacketLists`, `Resizer`).
Incoming RTP packets are queued in the order of their 32-bit serial timestamps and re-emitted
in packets of a requested number of samples, cut only at codec frame boundaries. Proved, for
every run of arrivals, polls and changes of the output size: no payload byte is lost or
invented, and what was sent followed by what is queued is what was accepted in the order of
media time, byte for byte; each queued packet keeps the sample count its codec assigns to its
bytes, so none of the assertions in the C code can fail; output is contiguous, of one payload
type, less than one frame over its target, and exactly as long as the queue allows: it falls
short of the target only for one of four stated reasons, and a packet is cut only where the
shortest head of whole frames fills the output up; sequence numbers are consecutive; time moves
forward across timestamp wrap-around; and draining terminates. The loop that does this on packet
objects, linked by pointers and copied from buffer to buffer, taken from queue and pool and
given back, is proved to compute the same as on values and to keep queue, pool and packet in
hand apart. Header parsing is proved
inverse to the wire format of sections 5.1 and 5.3.1 of RFC 3550, in both directions.

**The session table** (`SessionTable`, `SessionPass`, `SessionTtl`, `SessionIndex`,
`SessionDelete`, `SessionFlags`, `SessionProxy`, `SessionRuns`, `SessionIdle`, `Chains`). Two
parallel arrays with back-pointers, compacted in place while sessions time out in the middle of
the scan, together with a chained hash index. Class invariants are kept by creation,
completion, refresh, deletion and the full pass; the pass is proved to have exactly the effect
of a two-line description (who is dead, who was heard), and a delete request to remove exactly
the sessions that their tags and keep flags say. Over any sequence of commands and passes,
every step has exactly the effect described for it, every state between steps satisfies the
invariants, an idle session goes on exactly the tick its mode prescribes, and one that relays
does not go before that.

**The blacklist** (`Blacklist`, `BlacklistTable`, `BlacklistRuns`). A hash table with lazy
expiry on a wrapping clock, a protocol wildcard and memory accounting, refined against a plain
timed map, call by call and over any sequence of calls; what was listed answers later lookups
with its flags until it is due, and not any more from then on.

**The route script interpreter** (`RouteScript`). The flag-driven and the long-jump control
flow are both proved equal to a structured semantics of return and exit.

**The asynchronous log** (`SyslogQueue`). A state machine over all interleavings of any number
of producers and one worker, with safety, order, the end of the worker, and what is written
being what the producers filled in.

**Codecs and text** (`Base64`, `Scanner`, `UrlUnquote`, `PortTable`, `Domains`). Table-driven
base 64, the configuration scanner, in-place percent-decoding, the port table and the
grouping of domain names.

Where the source updates things in place, the model is a class or an array method proved
against a function on values; the laws are then lemmas about those functions. Integers that
wrap in the source wrap explicitly here.

Places where the code does not do what one might expect:

- `url_unquote` decodes rightly exactly if it does not read beyond the string
  (`UrlUnquote.OutcomeRight`): its bound check lets the byte behind the string pass as a hex
  digit. On a terminated string that byte is zero, and the result is right.
- A blacklist entry flagged as permanent still expires (`sip_router/dst_blacklist.c:545`): it
  is found exactly until its due time (`Blacklist.PermanentUntilDue`, with
  `Blacklist.PermanentExpires` for one). Only flushing honours the flag.
- `create_listener` never tries the slot used last: even with every port free, a listener is
  found exactly if the configured range holds two port pairs (`PortTable.TwoPairsNeeded`, with
  `PortTable.SinglePairExample` for one that holds one pair).
- The re-packetizer keeps its queue in time order exactly if each packet taken in fits between
  those queued (`ResizerRuns.ArrivalKeepsOrder`). A packet of at least one sample fits if it
  overlaps none; one without samples, such as a GSM payload shorter than a frame, does not if it
  starts together with one that has some (`ResizerOrder.FitsIfSounding`): it goes behind that
  one and is sent with an earlier time (`ResizerRuns.EmptyPacketGoesBack`).
- The expiry test of the blacklist takes an entry for expired in the half of every 2^32 ticks
  that begins with its due time (`Blacklist.ExpiredInTurns`), so an entry that nothing drops
  for 2^31 ticks is found again (`Blacklist.ExpiredComesBack`). The theorem over runs asks that
  what is known stays within 2^31 ticks of the clock; a whole clean-up round forgets the rest.
- A weak keep flag is set for one side and cleared for the other
  (`rtpproxy/rtpp_command.c:840-841`, 1082-1095): whoever refreshes a session weakly cannot take
  that back with a weak delete request, only the other party's clears it
  (`SessionFlags.WeakNotTakenBack`).
- An aggregated payload recounts to the number of samples its packet carries exactly if the
  frames of its parts meet (`ResizerRecount.OutputRecounts`, with
  `ResizerRecount.CutFrameMiscounts` for one where they do not).

## Model

| member | source | states |
|---|---|---|
| Words.TsLessUnwrapped | rtpproxy/rtp.h:144 | the serial comparison agrees with the order of unwrapped times less than half the range apart |
| Codec.G723Walk | rtpproxy/rtp.c:141-166 | skipping k frames of a G.723 payload stays inside it and leaves exactly 240k samples fewer, so the walk's assertion holds |
| Codec.G723Prefix | rtpproxy/rtp.c:64-76 | the bytes before the k-th frame count exactly 240k samples |
| Codec.G723Suffix | rtpproxy/rtp.c:64-76 | cutting a payload at a frame does not change the count of the rest |
| Codec.FramesForBounds | rtpproxy/rtp.c:109-155 | rounding up to whole frames reaches the minimum and exceeds it by less than a frame |
| Codec.ChunkKeepsFraming | rtpproxy/rtp.c:101-203 | for every codec, the first chunk of a payload holds at least the minimum and less than one frame more, both sides are non-empty, and recounting each side gives its recorded samples |
| Codec.CountG723 | rtpproxy/rtp.c:64-76 | the counting loop computes the recursive sample count of the payload in the buffer |
| Codec.FramesCount | rtpproxy/rtp.c:42-99 | a payload of k whole frames counts k samples for the PCM codecs, 80k for G.729, 160k for GSM and 240k for the three kinds of G.723.1 frames |
| Codec.ShortFrameCounts | rtpproxy/rtp.c:87-88 | a short last frame of G.729 counts 80 samples like a whole one |
| Codec.UnknownFrame | rtpproxy/rtp.c:58-74 | a G.723.1 payload with a byte that starts no frame behind whole ones has no count |
| Codec.FindG723Chunk | rtpproxy/rtp.c:141-166 | the frame walk finds the first chunk and stays inside the buffer |
| ResizerProofs.SplitKeepsQueued | rtpproxy/rtp_resizer.c:163-200 | splitting a queued packet leaves two framed, non-empty parts whose payloads join to the old one |
| ResizerProofs.StartIsGood | rtpproxy/rtp_resizer.c:233-259 | the first turn of the loop accounts for every byte and sample of the queue head and respects the size bound |
| ResizerProofs.ExtendIsGood | rtpproxy/rtp_resizer.c:260-322 | each further turn does the same, appending a whole packet, a chunk or nothing |
| ResizerProofs.AggregateIsGood | rtpproxy/rtp_resizer.c:232-322 | the whole loop does, over any number of packets |
| ResizerProofs.TakeIsGood | rtpproxy/rtp_resizer.c:232-322 | so does a call from an empty output |
| ResizerProofs.RemainingHolds | rtpproxy/rtp_resizer.c:232-322 | the queue left behind is framed, and its bytes and samples are what the call did not take |
| ResizerProofs.GetConserves | rtpproxy/rtp_resizer.c:202-334 | output bytes followed by the new queue are the old queue, byte for byte; no output means no change; output shortens the queue, lies in its buffer and is less than one frame over the target; the running sample count stays the sum over the queue |
| ResizerProofs.InsertHolds | rtpproxy/rtp_resizer.c:105-136 | inserting at any place adds exactly the packet's bytes and samples |
| ResizerProofs.EnqueueConserves | rtpproxy/rtp_resizer.c:67-138 | an accepted packet adds exactly its bytes, a late one changes nothing, and the invariant is kept |
| ResizerOrder.ExtendShape | rtpproxy/rtp_resizer.c:260-322 | a packet is added only if it continues the output in payload type and timestamp, and a cut moves the rest's timestamp by the samples taken |
| ResizerOrder.AggregateContiguous | rtpproxy/rtp_resizer.c:260-322 | the packets used by one output follow each other without gap or change of payload type |
| ResizerOrder.TakeContiguous | rtpproxy/rtp_resizer.c:232-322 | the output has the timestamp of the queue head and covers a contiguous prefix of the queue |
| ResizerOrder.AdjacentTimes | rtpproxy/rtp_resizer.c:262-267 | packets contiguous on the wrapping clock are adjacent in unwrapped time |
| ResizerOrder.OutputEnd | rtpproxy/rtp_resizer.c:323-328 | the output ends where the taken part of the queue ends in unwrapped time |
| ResizerOrder.TakeKeepsOrder | rtpproxy/rtp_resizer.c:232-328 | what is left of an ordered queue is ordered and starts no earlier than the output ends |
| ResizerOrder.InsertPosSorted | rtpproxy/rtp_resizer.c:105-109 | the backwards search by serial comparison finds the sorted place, behind equal times |
| ResizerOrder.FitsIfSounding | rtpproxy/rtp_resizer.c:107-109 | a packet that overlaps none fits exactly if it has samples or starts together with none that has |
| ResizerOrder.InsertKeepsOrder | rtpproxy/rtp_resizer.c:105-135 | inserting a packet keeps the queue ordered and non-overlapping exactly if it fits |
| ResizerSize.ChunkIsShortest | rtpproxy/rtp.c:101-203 | the chunk found is the shortest head of whole frames with the samples asked for, and the whole packet exactly if no head with fewer samples has them |
| ResizerSize.ExtendIsExact | rtpproxy/rtp_resizer.c:260-322 | a turn uses the next packet whole, cuts it, or stops, exactly as queue, target and buffer size say |
| ResizerSize.AggregateIsExact | rtpproxy/rtp_resizer.c:232-322 | so does the loop, over any number of packets |
| ResizerSize.TakeIsExact | rtpproxy/rtp_resizer.c:232-322 | so does a call from an empty output, and it gives none exactly if the head has to be cut and there is no packet to cut it into |
| ResizerSize.LargeEnough | rtpproxy/rtp_resizer.c:232-322 | an output reaches the target unless the queue is used up, the last packet cannot be appended to, the next is of another type or leaves a gap, or what is needed of it overflows the buffer; a packet is cut only if it would overshoot |
| ResizerSize.ExactUnique | rtpproxy/rtp_resizer.c:232-322 | these conditions leave one choice of packets used, cut, samples and size |
| ResizerSize.GetIsExact | rtpproxy/rtp_resizer.c:202-334 | whatever a call gives is that output for the size asked for, at most 160 samples for GSM, read off the queue before and after |
| ResizerSize.GetWaits | rtpproxy/rtp_resizer.c:215-229 | in unwrapped time, a call gives nothing exactly if the queue is empty, or has fewer samples than asked for while the clock has not passed the head by these and 160 more, or the head cannot be cut |
| ResizerSize.LateIffBefore | rtpproxy/rtp_resizer.c:80-86 | a packet is refused exactly if something was sent and it starts, in unwrapped time, before the end of that |
| ResizerSize.EnqueueTracks | rtpproxy/rtp_resizer.c:87-104 | a packet taken in leaves the tracked clock set, one refused changes nothing |
| RtpParse.Parse | rtpproxy/rtp.c:241-300 | an accepted packet has its payload behind the fixed header and inside the packet |
| RtpParse.ToPacket | rtpproxy/rtp_resizer.c:74-78 | a packet that parses and has a known sample count is non-empty, framed and in bounds |
| RtpParse.ParseSerialized | rtpproxy/rtp.c:241-300 | every packet laid out as sections 5.1 and 5.3.1 of RFC 3550 prescribe parses to its own fields and payload, with any CSRC list, extension and padding |
| RtpParse.SerializeParsed | rtpproxy/rtp.c:241-300 | every packet that parses is the layout of the fields found in it |
| ResizerRuns.StepConserves | rtpproxy/rtp_resizer.c:67-334 | one arrival or poll keeps the byte balance |
| ResizerRuns.RunConserves | rtpproxy/rtp_resizer.c:67-334 | over any run, bytes queued at first plus bytes accepted equal bytes emitted plus bytes queued at the end |
| ResizerRuns.RunNumbers | rtpproxy/rtp_resizer.c:252-326 | over any run, emitted sequence numbers are consecutive modulo 2^16 |
| ResizerRuns.RunBounds | rtpproxy/rtp_resizer.c:232-334 | over any run, every emitted packet is non-empty, lies in its 8192-byte buffer, is less than one frame longer than the size asked for at that moment, capped for GSM, and takes from the queue of that moment exactly what it should |
| ResizerRuns.RunSent | rtpproxy/rtp_resizer.c:323-328 | that something was sent is noted exactly from the first output on |
| ResizerRuns.StepKeepsOrder | rtpproxy/rtp_resizer.c:80-334 | one event keeps the queue in unwrapped time order; an output starts at or after the end of the one before, by less than half the range, and moves that end forward by its length |
| ResizerRuns.PollKeepsOrder | rtpproxy/rtp_resizer.c:202-334 | the same for a poll that emits |
| ResizerRuns.ArrivalKeepsOrder | rtpproxy/rtp_resizer.c:67-138 | a packet taken in leaves the queue in time order exactly if it fits |
| ResizerRuns.EmptyPacketGoesBack | rtpproxy/rtp.c:91 | a packet of ten GSM bytes that overlaps none is sent 160 samples before the end of the output before it |
| ResizerRuns.RunOrder | rtpproxy/rtp_resizer.c:67-334 | over any run of packets that fit within half the timestamp range, the media times at which the emitted packets start are congruent to their timestamps, and each is at or after the end of the packet before, by less than half the range |
| ResizerRuns.AscendingUnique | rtpproxy/rtp.h:144 | wrapped timestamps can be read as such a sequence of times in one way at most |
| ResizerTimeline.InsertSorts | rtpproxy/rtp_resizer.c:105-135 | putting an arrival behind all that start no later keeps the timeline sorted and adds just it |
| ResizerTimeline.TimelineSorts | rtpproxy/rtp_resizer.c:67-138 | the timeline of a run holds exactly the payloads accepted, sorted by media time |
| ResizerTimeline.ArriveMatch | rtpproxy/rtp_resizer.c:105-135 | the queue insertion and the timeline insertion find the same place |
| ResizerTimeline.EmitMatch | rtpproxy/rtp_resizer.c:232-328 | what an output leaves in the queue is what the timeline still holds behind the bytes sent |
| ResizerTimeline.RunInTimeOrder | rtpproxy/rtp_resizer.c:67-334 | over any plausible run, the payload bytes sent followed by those queued are, byte for byte, the payloads queued at first and accepted, sorted by media time |
| ResizerRecount.G723Join | rtpproxy/rtp.c:64-76 | counting over joined G.723 payloads goes on behind the last frame of the first, cut short or not |
| ResizerRecount.JoinRecounts | rtpproxy/rtp.c:78-99 | for every codec, a joined payload recounts to the sum of its parts exactly if they join at a frame boundary |
| ResizerRecount.TurnRecounts | rtpproxy/rtp_resizer.c:260-322 | the sample count after a turn is that of the longer payload exactly if the parts join |
| ResizerRecount.AggregateRecounts | rtpproxy/rtp_resizer.c:232-322 | an output recounts to its sample count if the packets used for it end at frame boundaries, the last perhaps excepted |
| ResizerRecount.PartsRecount | rtpproxy/rtp.c:78-99 | joined payloads recount to the sum of their counts exactly if their frames meet: always for PCM and for aligned G.729, for GSM if they are together less than a frame over whole frames, for G.723 if the walk across them meets as many frames as they have |
| ResizerRecount.AggregateParts | rtpproxy/rtp_resizer.c:232-322 | what the loop adds to an output is the join of the parts it takes, and the samples are the sum of theirs; G.729 parts but the last are aligned |
| ResizerRecount.OutputRecounts | rtpproxy/rtp_resizer.c:232-322 | every output is the join of its parts and carries the sum of their samples, and it recounts to that exactly if their frames meet |
| ResizerRecount.CutFrameMiscounts | rtpproxy/rtp.c:64-76 | two G.723 packets of 240 samples each whose common output carries 480 samples and has no count |
| ResizerOrder.SyncClockTracks | rtpproxy/rtp_resizer.c:87-104 | in unwrapped time the new offset makes the sender's clock show 40 samples past a packet ahead of it, half as late if it was too late, and else what it showed |
| ResizerOrder.TrackedBounds | rtpproxy/rtp_resizer.c:87-104 | the clock never lags behind a packet that has come, is set forward only by a packet ahead of it, and lateness is at least halved |
| RtpPackets.RtpPacket.SetSeq | rtpproxy/rtp.c:346-352 | only the sequence number changes: the field, and the two header bytes, which hold it in network order |
| RtpPackets.RtpPacket.SetTs | rtpproxy/rtp.c:354-360 | only the timestamp changes: the field, and the four header bytes, which hold it in network order |
| RtpPackets.RtpPacket.AppendPacket | rtpproxy/rtp_resizer.c:151-161 | copying in the buffer appends payload and samples, and nothing else |
| RtpPackets.RtpPacket.Truncate | rtpproxy/rtp_resizer.c:174-180 | moving the payload down in place drops exactly the first bytes and advances the timestamp |
| RtpPackets.RtpPacket.AppendChunk | rtpproxy/rtp_resizer.c:163-181 | the chunk goes to the end of one packet and is cut off the other |
| RtpPackets.RtpPacket.MoveChunk | rtpproxy/rtp_resizer.c:183-200 | the chunk becomes the payload of a fresh packet and is cut off the old one |
| RtpPackets.RtpPacket.Parse | rtpproxy/rtp.c:241-300 | the fields filled in are the parsed packet; an error leaves timestamp and number alone and the data offset where the parser stopped |
| RtpPackets.CountSamples | rtpproxy/rtp.c:78-99 | the count is that of the payload bytes in the buffer |
| RtpPackets.ParseHeader | rtpproxy/rtp.c:241-300 | the step-by-step parser returns the parse of the bytes, and how far it came |
| RtpPackets.FindChunk | rtpproxy/rtp.c:174-203 | the chunk search returns the first chunk of the payload in the buffer |
| Resizer.RtpResizer.constructor | rtpproxy/rtpp_command.c:897 | a new re-packetizer is empty and valid, whatever packet objects there are |
| Resizer.RtpResizer.SetLinks | rtpproxy/rtp.h:100-101 | writing the pointers of one packet object changes what that one stands for and no other |
| Resizer.RtpResizer.AppendWhole | rtpproxy/rtp_resizer.c:151-161 | appending in the buffer of one object changes the value of that packet alone |
| Resizer.RtpResizer.AppendPart | rtpproxy/rtp_resizer.c:163-181 | moving a chunk between two buffers changes the values of these two packets alone |
| Resizer.RtpResizer.MoveHead | rtpproxy/rtp_resizer.c:183-200 | the same for a chunk that becomes a packet of its own, with the pointers copied |
| Resizer.RtpResizer.ParseInto | rtpproxy/rtp_resizer.c:74-78 | parsing a received object gives the packet its bytes stand for |
| Resizer.RtpResizer.Alloc | rtpproxy/rtp.c:302-313 | the packet at the head of the pool leaves it, or memory gives one; either way it is in no list |
| Resizer.RtpResizer.Free | rtpproxy/rtp.c:315-322 | the packet goes to the head of the pool; both lists stay linked and apart |
| Resizer.RtpResizer.FindBefore | rtpproxy/rtp_resizer.c:105-109 | following the back pointers ends at the packet before the insertion place |
| Resizer.RtpResizer.Relink | rtpproxy/rtp_resizer.c:111-134 | the four cases of relinking write the links of the longer list |
| Resizer.RtpResizer.LinkPacket | rtpproxy/rtp_resizer.c:105-135 | the packet is at its place in the queue, linked both ways; the pool is untouched |
| Resizer.RtpResizer.DetachHead | rtpproxy/rtp_resizer.c:140-149 | the first packet leaves the queue, the rest stays linked |
| Resizer.RtpResizer.Enqueue | rtpproxy/rtp_resizer.c:67-138 | an object whose bytes do not parse stays the caller's, a late one goes to the pool, another into the queue at its place; the state is that of the value-level enqueue |
| Resizer.RtpResizer.SyncClock | rtpproxy/rtp_resizer.c:87-104 | the stored offset makes the clock read, on unwrapped times, as `SyncClockTracks` says |
| Resizer.RtpResizer.StartTurn | rtpproxy/rtp_resizer.c:234-259 | the first turn takes the head of the queue, or cuts its beginning into a packet from pool or memory, or changes nothing if there is none |
| Resizer.RtpResizer.SplitOff | rtpproxy/rtp_resizer.c:183-200 | the head is cut off into the other packet, although the pointers are copied with it |
| Resizer.RtpResizer.ExtendTurn | rtpproxy/rtp_resizer.c:260-322 | a further turn appends the head and frees it, or appends its beginning, or stops |
| Resizer.RtpResizer.ExtendLoop | rtpproxy/rtp_resizer.c:231-322 | all further turns together are the value-level aggregation; the packets used up are in the pool, the last on top |
| Resizer.RtpResizer.Assemble | rtpproxy/rtp_resizer.c:231-322 | the loop builds the value-level output and leaves the value-level rest; the output packet is in neither list |
| Resizer.RtpResizer.TakingAccounts | rtpproxy/rtp_resizer.c:231-322 | after the loop every packet is queued, free or in hand, exactly once, and none is new but one from memory |
| Resizer.RtpResizer.Stamp | rtpproxy/rtp_resizer.c:323-328 | the output gets the next sequence number, and its samples leave the running count |
| Resizer.RtpResizer.Due | rtpproxy/rtp_resizer.c:215-229 | an output is due exactly if the queue is not empty and need not wait, and of the size asked for, capped for GSM |
| Resizer.RtpResizer.Get | rtpproxy/rtp_resizer.c:202-334 | object and state are those of the value-level get, bytes are conserved, a packet returned shortens the queue, and every packet is accounted for; the output is as long as it should be for the queue and the size asked for |
| Resizer.RtpResizer.SendNext | rtpproxy/main.c:719-722 | one packet is sent and freed; none lost, one perhaps added from memory |
| Resizer.RtpResizer.Drain | rtpproxy/main.c:718-723 | draining ends, sends a prefix of the queued bytes, stops only when a further call would return nothing, and leaves every packet queued or free; memory is needed for the first packet at most |
| SessionTable.ShapeKeepsInv | rtpproxy/rtpp_command.c:840-849 | changing anything but descriptors, slots and pairing keeps the table invariant |
| SessionTable.SkipKeepsInv | rtpproxy/main.c:693-697 | stepping over a hole keeps it |
| SessionTable.LegOfSlot | rtpproxy/main.c:699-706 | the leg found by comparing descriptors has its back-pointer to this slot, as the assertions say |
| SessionTable.MoveKeepsInv | rtpproxy/main.c:708-713 | moving a slot down and updating its back-pointer keeps it, including that leg 0 has the lowest slot |
| SessionTable.RemoveKeepsInv | rtpproxy/rtpp_session.c:159-223 | removing a pair in the middle of a pass keeps it, provided its leg 0 has not been passed yet |
| SessionTable.ClearPairSlots | rtpproxy/rtpp_session.c:172-196 | exactly the slots of the two sessions become holes |
| SessionTable.CompactedNotOwned | rtpproxy/main.c:676-713 | no slot already moved belongs to a session whose leg 0 is still ahead |
| SessionTable.CreateKeepsInv | rtpproxy/rtpp_command.c:897-950 | a new pair with two fresh slots keeps it |
| SessionTable.CompleteKeepsInv | rtpproxy/rtpp_command.c:819-839 | opening the second legs at the end of the table keeps it |
| SessionPass.PassStart | rtpproxy/main.c:674-676 | a pass starts in the state its invariant describes |
| SessionPass.NoTick | rtpproxy/main.c:679-680 | a slot that is not an RTP session's leg 0, or no alarm, changes no lifetime |
| SessionPass.Decrement | rtpproxy/main.c:679-690 | the alarm takes one off both counters of a session, when its leg 0 is reached |
| SessionPass.Expire | rtpproxy/main.c:679-684 | a session whose time is up goes with its twin, and its later slots are skipped as holes |
| SessionPass.Skip | rtpproxy/main.c:693-697 | a hole is passed over without effect |
| SessionPass.Move | rtpproxy/main.c:699-724 | a live slot is moved down in order, and traffic restores the leg's lifetime |
| SessionPass.PassEnd | rtpproxy/main.c:667-728 | after a full pass the table has no holes, lists exactly the surviving slots in their old order, and each session was decremented once or restored |
| SessionPass.PassEndStore | rtpproxy/main.c:667-728 | after a full pass the sessions are exactly those not dead, each with its new slots and its lifetimes decremented once or restored |
| SessionPass.GetTtl | rtpproxy/rtpp_session.c:348-365 | the larger counter in unified mode, the smaller in independent mode; zero exactly if both, or one of them, have run out |
| SessionTtl.QuietPass | rtpproxy/main.c:676-691 | without traffic a pass removes the session exactly if it ticks and both counters (unified mode) or one (independent mode) have run out, else takes one tick off each |
| SessionTtl.LifeStep | rtpproxy/main.c:676-691 | the state k ticks on becomes the state k + 1 ticks on |
| SessionTtl.IdleLifetime | rtpproxy/rtpp_session.c:348-365 | after k ticks without traffic a session is there exactly if k is at most one of its counters in unified mode, both in independent mode |
| SessionIdle.IdleRun | rtpproxy/rtpp_session.c:348-365 | the same over any run of commands for other sessions, of completions and of passes without traffic for it, and its counters are then lower by the number of ticks |
| SessionFlags.CountersAfter | rtpproxy/main.c:676-691 | a pass sets the counter of a leg that relays to the configured lifetime and takes a tick off one that does not |
| SessionFlags.BusyPass | rtpproxy/main.c:670-724 | whatever a pass relays, it does not shorten the life of a session |
| SessionIdle.BusyRun | rtpproxy/main.c:829-859 | over any run with any traffic and commands for others, a session is there at least until its counters have had the time to run out |
| SessionIdle.HeardLasts | rtpproxy/main.c:829-859 | a session that relayed a packet, in independent mode one each way, is there for as many ticks as the configured lifetime has |
| SessionIndex.ChainMembers | rtpproxy/rtpp_session.c:68-90 | a bucket's chain holds exactly the sessions with that hash, each once |
| SessionIndex.SelOfChain | rtpproxy/rtpp_session.c:115-141 | filtering a bucket by call-id gives the same list as filtering all sessions |
| Chains.AppendLinked | rtpproxy/rtpp_session.c:68-90 | linking behind the last element gives the longer chain |
| Chains.RemoveLinked | rtpproxy/rtpp_session.c:92-113 | unlinking gives the chain without the element, which was first exactly if it had no predecessor |
| Chains.InsertLinked | rtpproxy/rtp_resizer.c:111-134 | linking an element between its neighbours gives the chain with the element at that place |
| SessionIndex.NamesKeepIndex | rtpproxy/rtpp_session.c:68-141 | changes that keep call-ids and pairing keep the index |
| SessionIndex.AppendKeepsIndex | rtpproxy/rtpp_session.c:68-90 | appending keeps the whole index in step with the creation order |
| SessionIndex.RemoveKeepsIndex | rtpproxy/rtpp_session.c:92-113 | removing does too, and the assertion on the bucket head holds |
| SessionIndex.SelDistinct | rtpproxy/rtpp_session.c:115-141 | a call's sessions are listed once each |
| SessionIndex.SelAlive | rtpproxy/rtpp_session.c:115-141 | removals leave the remaining sessions of a call in creation order |
| SessionProxy.Cfg.constructor | rtpproxy/main.c:819-825 | an empty proxy is valid |
| SessionProxy.Cfg.HashAppend | rtpproxy/rtpp_session.c:68-90 | the session goes to the end of the order and of its chain |
| SessionProxy.Cfg.LastInChain | rtpproxy/rtpp_session.c:84-86 | following the links reaches the last element |
| SessionProxy.Cfg.HashRemove | rtpproxy/rtpp_session.c:92-113 | the session leaves the order and its chain, without a failing assertion |
| SessionProxy.Cfg.FindFirst | rtpproxy/rtpp_session.c:115-128 | the first live session with the call-id, in creation order |
| SessionProxy.Cfg.FindNext | rtpproxy/rtpp_session.c:130-141 | the next one with the same call-id |
| SessionProxy.Cfg.FindAll | rtpproxy/rtpp_session.c:115-141 | iterating gives exactly the live sessions with the call-id, in creation order |
| SessionProxy.Cfg.CloseLeg | rtpproxy/rtpp_session.c:181-188 | an open leg's slot becomes a hole, and the two assertions on it hold |
| SessionProxy.Cfg.ClosePair | rtpproxy/rtpp_session.c:172-196 | all four legs of a pair are closed |
| SessionProxy.Cfg.RemoveSession | rtpproxy/rtpp_session.c:159-223 | exactly the pair leaves the store, the table and the index, also in the middle of a pass |
| SessionProxy.Cfg.AppendSession | rtpproxy/rtpp_session.c:143-157 | an open leg gets the next slot and its back-pointer, a closed one gets -1 |
| SessionProxy.Cfg.CreateSession | rtpproxy/rtpp_command.c:897-955 | a new pair in table, index and counters; all invariants kept |
| SessionProxy.Cfg.CompleteSession | rtpproxy/rtpp_command.c:819-839 | the second legs in the table; all invariants kept |
| SessionProxy.Cfg.RefreshSession | rtpproxy/rtpp_command.c:840-849 | flags, mode and lifetimes of one session, nothing else; all invariants kept |
| SessionProxy.Cfg.HandleDelete | rtpproxy/rtpp_command.c:1071-1131 | going through the call's sessions in creation order, exactly those go that the request means and no other flag keeps, the others it means lose one flag, and behind the first one removed whose tag was given without a media number nothing is touched; failure exactly if none is meant; all invariants kept |
| SessionDelete.TagsCompared | rtpproxy/rtpp_session.c:225-241 | a tag matches exactly if it is the party's, alone or with a semicolon and something behind it |
| SessionDelete.StepDeletes | rtpproxy/rtpp_command.c:1080-1125 | one session, on its tag and flags: untouched, without the one flag the request clears, or gone with its twin |
| SessionDelete.DeleteTreats | rtpproxy/rtpp_command.c:1071-1131 | what becomes of each session of the call and its twin: removed, flag lost, or unchanged, up to the one that ends the search |
| SessionDelete.DeleteDone | rtpproxy/rtpp_command.c:1071-1131 | and of all other sessions: nothing |
| SessionDelete.DeletedUnique | rtpproxy/rtpp_command.c:1071-1131 | this description determines the sessions afterwards |
| SessionDelete.DeleteFails | rtpproxy/rtpp_command.c:1071-1131 | the request fails exactly if it means no session of the call, and then nothing changes |
| SessionDelete.DeleteSparesOthers | rtpproxy/rtpp_command.c:1071-1131 | sessions that are neither of the call nor twins of its sessions are untouched |
| SessionFlags.CreatedSession | rtpproxy/rtpp_command.c:905-945 | a new session lasts for the configured lifetime; a request that means it removes it exactly if it is as strong or weak as the creation was and, if weak, not from the opener |
| SessionFlags.CreatedListed | rtpproxy/rtpp_command.c:951 | it is listed last among the sessions of its call, and other calls are not affected |
| SessionFlags.RefreshedSession | rtpproxy/rtpp_command.c:840-849 | a refresh starts both lifetimes again and adds one flag at most, the weak one of its side or the strong one |
| SessionFlags.WeakNotTakenBack | rtpproxy/rtpp_command.c:840-841 | the weak flag a party sets is cleared exactly by the weak delete request of the other party |
| SessionProxy.Cfg.TickSlot | rtpproxy/main.c:679-691 | the alarm part of one slot's turn |
| SessionProxy.Cfg.FindLeg | rtpproxy/main.c:699-706 | the leg of a slot, by comparing descriptors; the assertion holds |
| SessionProxy.Cfg.MoveSlot | rtpproxy/main.c:708-724 | the moving part of one slot's turn |
| SessionProxy.Cfg.ProcessRtp | rtpproxy/main.c:667-728 | the whole pass: its result, the surviving slots in order, the surviving sessions in index order, all invariants, and with them that no assertion of the pass fails |
| SessionRuns.SlotsFollow | rtpproxy/rtpp_session.c:172-196 | if sessions keep their places, the slots of those gone become holes and the others do not change |
| SessionRuns.Serve | rtpproxy/main.c:829-859 | one command or pass changes sessions, slots and creation order exactly as described on values |
| SessionRuns.ServeAll | rtpproxy/main.c:829-859 | over any sequence of creations, completions, refreshes, deletions and passes, every step has exactly the effect described, and in every state in between table and index satisfy their invariants |
| RouteScript.Sequencing | sip_router/action.c:1066-1078 | a list runs its first part and, only if that ends normally, its second |
| RouteScript.ReturnEndsOneRoute | sip_router/action.c:435-452 | a return, also as the first action, ends the route it is in with its code, and the caller goes on |
| RouteScript.ExitEndsScript | sip_router/action.c:124-130 | nothing after an exit runs, at any nesting |
| RouteScript.IfChooses | sip_router/action.c:788-819 | the condition decides which list runs, one level down; the other makes no difference |
| RouteScript.ModuleDecides | sip_router/action.c:820-831 | a module function is called once; returning 0 ends the script with the on-break handlers, anything else goes on with that as last return code |
| RouteScript.CallsStay | sip_router/action.c:1034-1095 | module calls once made stay made, in order |
| RouteScript.FlagActionAgrees | sip_router/action.c:788-831 | one action in the flag-driven form agrees with the structured semantics |
| RouteScript.FlagLoopAgrees | sip_router/action.c:1066-1078 | so does a list |
| RouteScript.FlagRunAgrees | sip_router/action.c:1034-1095 | so does a nested run, recursion limit included |
| RouteScript.FlagFormIsStructured | sip_router/action.c:1034-1095 | the flag-driven form makes the same module calls and returns the same code as the structured semantics, for every script, also of mutually recursive routes |
| RouteScript.RunActCtx.DoAction | sip_router/action.c:788-831 | one action of the long-jump form against the structured semantics |
| RouteScript.RunActCtx.RunLoop | sip_router/action.c:1066-1078 | the list loop of the long-jump form |
| RouteScript.RunActCtx.RunActions | sip_router/action.c:1034-1095 | a nested run of the long-jump form; terminates by levels left and list length |
| RouteScript.RunActCtx.RunScript | sip_router/action.c:1034-1095 | the long-jump form, too, makes the calls and returns the code of the structured semantics |
| Blacklist.SweepFinds | sip_router/dst_blacklist.c:541-558 | the search drops only expired entries and finds a live match exactly if there is one |
| Blacklist.PurgeRemoves | sip_router/dst_blacklist.c:645-661 | purging a bucket leaves exactly the entries not expired |
| Blacklist.ExpiredIsDue | sip_router/dst_blacklist.c:545 | the wrapping expiry test agrees with the unwrapped clock for differences below 2^31 |
| Blacklist.TimePasses | sip_router/dst_blacklist.c:545 | the table stays in step with the timed map as time goes on |
| Blacklist.SweptKeepsTable | sip_router/dst_blacklist.c:545-550 | physical removal of expired entries does not matter to the map |
| Blacklist.SweepIsFind | sip_router/dst_blacklist.c:521-559 | a search is a lookup in the timed map under the protocol wildcard |
| Blacklist.ReplaceKeepsTable | sip_router/dst_blacklist.c:719-721 | merging an entry is an update of the map |
| Blacklist.InsertKeepsTable | sip_router/dst_blacklist.c:746-754 | inserting after a failed search is an update of the map and makes no two entries match |
| Blacklist.CutKeepsTable | sip_router/dst_blacklist.c:567-610 | deleting an entry deletes its key |
| Blacklist.PurgeIgnoresFlags | sip_router/dst_blacklist.c:645-661 | a clean-up leaves an entry exactly if its due time is ahead, whatever its flags |
| Blacklist.OneLive | sip_router/dst_blacklist.c:541-558 | at most one live key speaks for a destination and a concrete protocol |
| Blacklist.ListedUntilDue | sip_router/dst_blacklist.c:695-785 | what is listed is found, with its merged flags, exactly until its due time |
| Blacklist.PermanentUntilDue | sip_router/dst_blacklist.c:545 | a destination listed as permanent is found exactly until its due time, like any other |
| Blacklist.ExpiredInTurns | sip_router/dst_blacklist.c:545 | without a window, an entry counts as expired in the half of every 2^32 ticks that begins with its due time |
| Blacklist.ExpiredComesBack | sip_router/dst_blacklist.c:545 | an entry that has been expired for 2^31 ticks and is found again |
| Blacklist.SweepComesTo | sip_router/dst_blacklist.c:541-558 | the search comes to an entry if there is no live match before it, and has then dropped exactly the expired ones |
| Blacklist.SweepIgnoresFlags | sip_router/dst_blacklist.c:545-550 | in any bucket, a search that comes to an entry drops it and goes on behind it exactly if it is due, whatever its flags, and else stops at it exactly if it matches |
| Blacklist.PermanentExpires | sip_router/dst_blacklist.c:545 | a permanent entry that a lookup and a clean-up drop |
| BlacklistTable.VisitsOnce | sip_router/dst_blacklist.c:626-678 | from any 32-bit start value, the round visits each of the 1024 buckets exactly once |
| BlacklistTable.Turns | sip_router/dst_blacklist.c:641-642 | the wrapping loop counter meets its end exactly after 1024 turns |
| BlacklistTable.AllVisited | sip_router/dst_blacklist.c:626-678 | a whole round leaves no bucket unvisited |
| BlacklistTable.ElapsedIs | sip_router/dst_blacklist.c:664-665 | the time limit is measured rightly across a wrap of the clock |
| Blacklist.SizeCounts | sip_router/dst_blacklist.c:706-713 | memory in use is 24 bytes an entry and 12 more for each IPv6 address |
| Blacklist.TypedFlags | sip_router/dst_blacklist.c:707-711 | bit 0 of the flags is set to the address type and the others are kept |
| BlacklistTable.FlushKeepsTable | sip_router/dst_blacklist.c:1088-1111 | keeping the permanent entries restricts the map to the permanent keys |
| BlacklistTable.DstBlacklist.constructor | sip_router/dst_blacklist.c:399-486 | an empty blacklist is valid and uses no memory |
| BlacklistTable.DstBlacklist.Unlink | sip_router/dst_blacklist.c:546-550 | removing one entry keeps the accounts |
| BlacklistTable.DstBlacklist.Search | sip_router/dst_blacklist.c:521-559 | the search loop is the sweep of the bucket, with exact accounts |
| BlacklistTable.DstBlacklist.IsBlacklisted | sip_router/dst_blacklist.c:764-785 | for a concrete protocol the flags are those of the timed map; for the wildcard those of some live entry of the destination, and zero if there is none |
| BlacklistTable.DstBlacklist.PurgeBucket | sip_router/dst_blacklist.c:645-661 | the bucket is the purged one unless cut short, which happens exactly when an entry went and memory is down to the target; the count is that of the entries gone |
| BlacklistTable.DstBlacklist.CleanTurn | sip_router/dst_blacklist.c:643-672 | one bucket is clean, also if time runs out behind it, or the turn ended the round exactly because memory is down or time is up |
| BlacklistTable.DstBlacklist.CleanExpired | sip_router/dst_blacklist.c:626-678 | the buckets visited hold nothing that was expired when the round began, the next round starts behind them, the clock is read once for each bucket at most, a round is cut short only because memory is down or because time is up behind a bucket it has cleaned, and the count is that of the entries gone; the map is unaffected |
| BlacklistTable.DstBlacklist.Prolong | sip_router/dst_blacklist.c:719-721 | re-adding merges the flags and renews the expiry |
| BlacklistTable.DstBlacklist.Insert | sip_router/dst_blacklist.c:746-754 | a new entry in table, map and accounts |
| BlacklistTable.DstBlacklist.MakeRoom | sip_router/dst_blacklist.c:723-737 | success exactly if the entry fits below the limit; if it did not fit, all that was expired is gone, or memory is down by an eighth, or time is up and as many buckets are clean as the clock was read |
| BlacklistTable.DstBlacklist.AddIp | sip_router/dst_blacklist.c:695-759 | adding is merge-or-insert in the timed map; it fails, without change, only if no live entry matches and either there is no room even after a clean-up that went as far as it should or the allocation fails; memory stays below a fixed limit |
| BlacklistTable.DstBlacklist.Delete | sip_router/dst_blacklist.c:567-610 | deletes exactly one live key that matches the destination, for a concrete protocol the one that speaks for it, and tells whether there was one |
| BlacklistTable.DstBlacklist.FlushBucket | sip_router/dst_blacklist.c:1097-1108 | one bucket keeps exactly its permanent entries |
| BlacklistTable.DstBlacklist.Flush | sip_router/dst_blacklist.c:1088-1111 | exactly the permanent entries stay |
| BlacklistRuns.ForgetKeepsTable | sip_router/dst_blacklist.c:626-678 | after a whole round the map may forget what was expired |
| BlacklistRuns.Serve | sip_router/dst_blacklist.c:567-1111 | one lookup, listing, deletion, clean-up or flush answers and changes as the timed map does |
| BlacklistRuns.ServeAll | sip_router/dst_blacklist.c:567-1111 | over any sequence of them, each timely when it comes, every answer is that of the timed map as the calls before have left it, a listing is refused only for want of memory, the table is in step with the map at the last moment of the run, and memory stays below the limit after every call |
| BlacklistRuns.ListedAnswers | sip_router/dst_blacklist.c:695-783 | in any run, what was listed with success answers a lookup before its due time with at least the error flags it was listed with, and with just these if it was not listed before |
| BlacklistRuns.VoiceRun | sip_router/dst_blacklist.c:567-1111 | in any run, at most one live key speaks for a destination and protocol |
| BlacklistRuns.ListedNoLonger | sip_router/dst_blacklist.c:695-783 | from its due time on a lookup answers 0 |
| SyslogQueue.InitHolds | rtpproxy/rtpp_syslog_async.c:109-135 | after initialisation all 64 items are in the free list |
| SyslogQueue.GuardedIsSafe | rtpproxy/rtpp_syslog_async.c:71-181 | whatever thread moves next follows pointers to pool items only, and the tail only while it is the last queued item |
| SyslogQueue.GetFreeKeeps | rtpproxy/rtpp_syslog_async.c:137-160 | taking a free item, or dropping the message, keeps the invariant |
| SyslogQueue.FillKeeps | rtpproxy/rtpp_syslog_async.c:229-239 | filling an item in hand keeps it |
| SyslogQueue.PutKeeps | rtpproxy/rtpp_syslog_async.c:162-181 | appending to the queue keeps it, with the tail stale or not |
| SyslogQueue.TakeKeeps | rtpproxy/rtpp_syslog_async.c:76-83 | the worker's taking keeps it |
| SyslogQueue.WorkKeeps | rtpproxy/rtpp_syslog_async.c:85-96 | writing or ending keeps it |
| SyslogQueue.ReleaseKeeps | rtpproxy/rtpp_syslog_async.c:98-105 | giving back an item keeps it |
| SyslogQueue.StepKeeps | rtpproxy/rtpp_syslog_async.c:71-196 | every step of every thread is safe and keeps it |
| SyslogQueue.RunKeeps | rtpproxy/rtpp_syslog_async.c:71-196 | in every state of every interleaving, each item is in exactly one place and accepted messages are written, with the worker or queued, in order |
| SyslogQueue.RunIsSafe | rtpproxy/rtpp_syslog_async.c:162-181 | no step of any run follows a bad or stale pointer |
| SyslogQueue.WrittenInOrder | rtpproxy/rtpp_syslog_async.c:71-107 | what is written is always a prefix of what was put |
| SyslogQueue.PutAsLogged | rtpproxy/rtpp_syslog_async.c:217-241 | in every run, the messages put are those the producers filled in last since they got their items, in the order of the puts |
| SyslogQueue.WrittenAsLogged | rtpproxy/rtpp_syslog_async.c:71-107 | so what is written is what was logged, from the first message on |
| SyslogQueue.NoneUncounted | rtpproxy/rtpp_syslog_async.c:137-160 | in every run, each request for an item is accounted for: put, in some hand, or counted as dropped |
| SyslogQueue.DroppedIfBusy | rtpproxy/rtpp_syslog_async.c:143-149 | a request is turned down, and counted, exactly if all 64 items are in use |
| SyslogQueue.ExitDrains | rtpproxy/rtpp_syslog_async.c:183-196 | when the worker has ended, exactly the messages put before the exit request are written |
| SyslogQueue.WorkerNotBlocked | rtpproxy/rtpp_syslog_async.c:76-83 | once an exit request has been put, the worker is never blocked until it ends |
| SyslogQueue.StepTowardsEnd | rtpproxy/rtpp_syslog_async.c:71-107 | each of the worker's steps brings its end nearer by one, and no step of a producer puts it off |
| SyslogQueue.ExitComes | rtpproxy/rtpp_syslog_async.c:71-196 | in every run, from an exit request on, the worker can always go on and ends with exactly the step that the state then determines, after at most three steps for each message up to the request |
| SyslogQueue.AsyncLog.constructor | rtpproxy/rtpp_syslog_async.c:109-135 | the chaining loop produces the initial state |
| SyslogQueue.AsyncLog.GetFreeItem | rtpproxy/rtpp_syslog_async.c:137-160 | the critical section is the get step |
| SyslogQueue.Fitting | rtpproxy/rtpp_syslog_async.c:229-236 | a message that is too long is cut to 2047 characters, any other is kept |
| SyslogQueue.AsyncLog.FillItem | rtpproxy/rtpp_syslog_async.c:229-239 | filling in priority and text is the fill step |
| SyslogQueue.AsyncLog.FillExit | rtpproxy/rtpp_syslog_async.c:192-194 | so is making an exit request |
| SyslogQueue.AsyncLog.PutItem | rtpproxy/rtpp_syslog_async.c:162-181 | the critical section is the put step |
| SyslogQueue.AsyncLog.TakeItem | rtpproxy/rtpp_syslog_async.c:76-83 | the critical section is the take step |
| SyslogQueue.AsyncLog.WorkItem | rtpproxy/rtpp_syslog_async.c:85-96 | writing the message or ending is the work step |
| SyslogQueue.AsyncLog.FreeItem | rtpproxy/rtpp_syslog_async.c:98-105 | the critical section is the release step |
| Scanner.Scan | sip_router/cfg_parser.c:282-507 | a token consumes at least one character and never runs past the end |
| Scanner.Alphanumeric | sip_router/cfg_parser.c:152-156 | the alphanumeric characters are the 52 letters, the digits and the underscore |
| Scanner.CharClasses | sip_router/cfg_parser.c:160-185 | the delimiters and the blanks are those listed |
| Scanner.EscapesRead | sip_router/cfg_parser.c:382-477 | every escape sequence is read back as its character, in tokens, strings and on its own |
| Scanner.AlphaScans | sip_router/cfg_parser.c:346-403 | printed alphanumeric text is read back up to whatever ends it |
| Scanner.StringScans | sip_router/cfg_parser.c:405-434 | printed quoted text is read back, whatever characters it holds |
| Scanner.TextScans | sip_router/cfg_parser.c:282-507 | every printed token reads as itself and leaves what is behind it |
| Scanner.SkipBlanks | sip_router/cfg_parser.c:302-345 | blanks and escaped newlines between tokens are skipped |
| Scanner.SkipComment | sip_router/cfg_parser.c:436-450 | a comment is skipped up to the newline that ends it, which is not one that is escaped, or to the end of the file |
| Scanner.RoundTrip | sip_router/cfg_parser.c:282-507 | printing any list of tokens and scanning it gives the list back, in both flag modes, whatever blanks, escaped newlines and comments are in between, or nothing where a delimiter ends the token |
| Scanner.EscapesInside | sip_router/cfg_parser.c:382-434 | inside a token an escaped newline is nothing and escaped letters are control characters |
| Scanner.StrangeRejected | sip_router/cfg_parser.c:302-381 | a character of no class does not scan |
| Scanner.BadEscapeRejected | sip_router/cfg_parser.c:382-477 | nor does an escape of anything else |
| Scanner.OpenQuoteRejected | sip_router/cfg_parser.c:405-434 | nor a quoted token that is never closed |
| Scanner.ScanGivesWellFormed | sip_router/cfg_parser.c:196-230 | tokens have at most 512 characters and the form their type allows |
| Scanner.TokensAreWellFormed | sip_router/cfg_parser.c:282-507 | so do all tokens of a file |
| Scanner.Reprint | sip_router/cfg_parser.c:282-507 | the tokens of any file that scans survive being printed and scanned again |
| Scanner.CfgParser.constructor | sip_router/cfg_parser.c:586-618 | a parser starts on line 1 at the first character |
| Scanner.CfgParser.ReadChar | sip_router/cfg_parser.c:223-230 | the line is one more than the newlines read, and the column the characters since |
| Scanner.CfgParser.GetToken | sip_router/cfg_parser.c:282-507 | the look-ahead kept between calls makes no difference: the result and the next position are those of scanning the plain text |
| Scanner.CfgParser.ReadAll | sip_router/cfg_parser.c:282-507 | calling until the end of the file gives all its tokens or the first error |
| Base64.DigitsOfGroup | sip_router/basex.h:232-235 | the digit expressions are the four six-bit groups of section 4 of RFC 4648, and the decoder's expressions recover the bytes |
| Base64.DigitRoundTrip | sip_router/basex.h:504-556 | each digit decodes to its value and is never the pad character, in both alphabets |
| Base64.EncIsAlphabet | sip_router/basex.h:504-556 | the digits are the characters of table 1 of RFC 4648 in its order, and 64 characters in a row for the shifted form |
| Base64.DecOutsideAlphabet | sip_router/basex.h:524-556 | a character has a digit exactly if it is in that table, and decodes to 255 otherwise |
| Base64.RoundTrip | sip_router/basex.h:622-719 | every non-empty byte string decodes from its encoding, in both alphabets; only the empty encoding is not accepted |
| Base64.QuadBack | sip_router/basex.h:687-695 | four characters come back from their three bytes exactly if all are in the alphabet |
| Base64.CanonicalIff | sip_router/basex.h:663-719 | of the strings the decoder takes, encoding the result gives the string again exactly if its characters are in the alphabet and its unused bits zero |
| Base64.BufferRoundTrip | sip_router/basex.h:565-864 | encoding into a buffer and decoding the reported length gives back the bytes and their number |
| Base64.EntryDigits | sip_router/basex.c:215-223 | an entry of the 8K table holds the two plain digits, on either byte order |
| Base64.ShiftedDigits | sip_router/basex.h:733-768 | or-ing bits into a shifted character gives the shifted digit |
| Base64.InitTable | sip_router/basex.c:215-223 | the loop fills all 4096 entries |
| Base64.InitUntable | sip_router/basex.c:224-226 | the loop fills the decoding table |
| Base64.EncodePlain | sip_router/basex.h:622-653 | writes exactly the encoding and reports its length, or writes nothing and reports minus the length |
| Base64.Encode8K | sip_router/basex.h:565-615 | the table form does the same as the plain form, for odd and even addresses and either byte order |
| Base64.EncodeShifted | sip_router/basex.h:733-768 | the same for the shifted alphabet |
| Base64.DecodeBuffer | sip_router/basex.h:663-862 | in both alphabets, through the decoding table or by offset, writes exactly the decoding, or nothing with 0 or minus the length |
| UrlUnquote.HexDigits | rtpproxy/rtpp_util.c:212-221 | a byte is read as a digit exactly if it is one, in either case |
| UrlUnquote.QuoteRoundTrip | rtpproxy/rtpp_util.c:223-247 | decoding undoes percent-encoding, whichever bytes were left alone and with digits of either case |
| UrlUnquote.ReadsBeyondMalformed | rtpproxy/rtpp_util.c:234-238 | in the one case where the byte behind the string is read, the string is malformed |
| UrlUnquote.OutcomeRight | rtpproxy/rtpp_util.c:223-247 | what comes out is the decoding of section 2.1 of RFC 3986 exactly if the byte behind the string is not read |
| UrlUnquote.ReadsBeyondExample | rtpproxy/rtpp_util.c:234-238 | a malformed string for which the code returns the empty string |
| UrlUnquote.TerminatedIsFine | rtpproxy/rtpp_command.c:529 | that case does not arise on terminated strings |
| UrlUnquote.ReplacedProgress | rtpproxy/rtpp_util.c:239-244 | replacing one escape keeps the decoding, and the stale byte behind the rest equals its last byte but one |
| UrlUnquote.Unquote | rtpproxy/rtpp_util.c:223-247 | in place and leaving the bytes behind alone, the result is the outcome of the string and the byte behind it: -1 for an error, else the length of what the buffer then starts with |
| PortTable.PortsOnce | rtpproxy/rtpp_util.c:106-112 | the linear table lists each even port of the range once |
| PortTable.TableIsRange | rtpproxy/rtpp_util.c:100-124 | any permutation of it lists each even port of the range exactly once and nothing else |
| PortTable.SlotsOnce | rtpproxy/rtpp_command.c:138-139 | the attempts visit every slot but the last used, each once |
| PortTable.FindsIfAny | rtpproxy/rtpp_command.c:130-150 | without fatal errors a listener is found exactly if some slot other than the last used can be bound |
| PortTable.TwoPairsNeeded | rtpproxy/rtpp_command.c:130-150 | with every port free a listener is found exactly if the configured range holds two port pairs |
| PortTable.SinglePairExample | rtpproxy/rtpp_command.c:130-150 | the range 35000-35001 is accepted and never yields a listener |
| PortTable.PortPool.Normalise | rtpproxy/main.c:340-360 | succeeds exactly if the configured range holds a pair of an even port and the next, and then the even ports of the new range are exactly those pairs |
| PortTable.PortPool.FillTable | rtpproxy/rtpp_util.c:106-112 | the loop writes the even ports in order, without 16-bit wrap |
| PortTable.PortPool.InitTable | rtpproxy/rtpp_util.c:100-124 | after the shuffle, whatever the random numbers, the table is a permutation of the even ports |
| PortTable.PortPool.CreateListener | rtpproxy/rtpp_command.c:130-150 | gives out the first slot in cyclic order whose port is not in use, and remembers it |
| Domains.MoreLabels | migrate_db/domain.py:34-53 | a subdomain has more labels than its domain |
| Domains.LabelsCounted | migrate_db/domain.py:53-54 | a name put together from k labels counts k |
| Domains.MatchesNest | migrate_db/domain.py:34-38 | two different domains of one name are one under the other |
| Domains.PlaceKeeps | migrate_db/domain.py:79-85 | placing the next name keeps one group for each top name, holding all names below it |
| Domains.GroupedIsPartition | migrate_db/domain.py:74-85 | for distinct names sorted by label count, ties in any order, the loops give one group for each name under no other, with exactly the names below it in list order |
| Domains.EachNameOnce | migrate_db/domain.py:74-85 | each name is in exactly one group, once, although the inner loop does not stop at a match, and the group's head is its shortest listed label suffix |
| Domains.HeadsApart | migrate_db/domain.py:74-85 | no group's head is a subdomain of another's, and groups hold only listed names |
| Domains.PlaceName | migrate_db/domain.py:79-85 | the inner loop over domain objects does what placing says |
| Domains.ConvertDomains | migrate_db/domain.py:74-85 | so does the outer loop |

## Left out

- Sockets, polling, files, recording, signals and log texts: descriptors, bind results, arriving bytes and clock readings are inputs.
- The re-packetizer's floating-point clock tracking (rtpproxy/rtp_resizer.c:87-104, 218): the internal timestamp and the reference time of a poll are arbitrary inputs.
- The pool of free packets belongs to one re-packetizer here, not to all, and the memory allocator hands out one of the packet objects there are.
- The header bytes of a split-off packet: the split copies the structure only up to the buffer, so its payload type is whatever the buffer of the newly allocated packet held.
- The arrays of sessions and descriptors are one array of slots; session pointers are numbers, and their fields and hash links live in maps. Fixed capacity, memory exhaustion and unique descriptors from the operating system are assumed.
- SessionProxy.Cfg.CompleteSession: models the second leg; leg 0 is open from creation on.
- Stream lookup, playback and copying commands, and removal on memory exhaustion while relaying.
- The hash functions of session index and blacklist: arbitrary functions into the bucket range.
- Script conditions are a side-effect-free oracle, and of the actions only drop, if, route and module call are modelled.
- Blacklist hooks, per-bucket locks and statistics; entry sizes are those of a 64-bit machine. The memory limit is a multiple of 1024 below 2^32, so the unsigned sum in the limit test does not wrap and is an unbounded integer here.
- BlacklistTable.DstBlacklist.IsBlacklisted: for the wildcard protocol it only says that the flags belong to some live entry, because the code returns whichever it meets first.
- Condition variables and spurious wake-ups of the log queue: a waiting thread is one whose step is not enabled. The text of a message is what formatting it gives; a producer that would put an item without filling it puts what is in it.
- Token start and end positions of the scanner, and that its look-ahead is shared by all parsers.
- Base 16, the 2.5K tables and the small table of base 64: they would only add easy members.
- Database access and random domain identifiers of the migration scripts; the sort is represented by its result.
