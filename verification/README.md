# YapYap message delivery, verified

YapYap is a peer-to-peer messenger node. Nodes stamp their messages with a counter and a vector clock, send them over
unreliable peer connections, retry and relay them, and keep what they know in a local database. This project models the
parts of a node on which reliable delivery rests, in the form the program has them (methods that update tables and
loops over buffers, each proved against a specification function), and proves what those parts promise over every input
and every run.

## What is modelled

**Reliable delivery** (`Messages`, `Receiving`, `Router`, `Delivery`, `Network`, `Counters`, `AtRest`, `FailingReceives`,
`Overtaking`, `CallBackOrder`, `ControlMessages`, `Gates`, `Reordering`, `ReorderingLimit`, `Clocks`,
`StaleClocks`, `DeltaSync`).
`Receiving` is the specification of one node: the tables, the deduplication cache, the out-of-order buffer, the gates of
`receive`, the transaction that accepts a message and the flush loop. `Router` is the same as a class whose methods
update the maps in place, each proved equal to the specification. `Network` puts any number of nodes on a wire that
keeps every message ever transmitted, so that any copy may arrive anywhere, late, twice, in any order or never; steps are
cut at the `await` points of the source, so that handlers, flush loops, callbacks, retries, clean-ups, delta syncs and
restarts interleave freely. Peers that are not among the modelled nodes may inject any message that does not name one of
the nodes as its sender. A message counts as accepted when its transaction commits, and as handed over when its callback
runs. Between the two comes the ACK, which may throw, as may the callback itself: then the rest of that receive does not
take place, and after a failing ACK the callback is lost. The main results:

* what a node has accepted from another node is always exactly the first k messages of that node's send log, in order
  (`Network.FifoDelivery`), and no two callbacks are for the same message (`Network.AtMostOnce`), with purges of the
  deduplication table and restarts in the run;
* `Gates.AcceptedIff` and `Gates.BufferedIff` say what exactly gets in. The next messages of a peer may come in any order
  and any number of copies, and the application gets them in order, each once, up to 513 of them and no more
  (`Reordering.ReorderingIsRepaired`, `ReorderingLimit.RepairsAllIff`);
* no node's counter for a peer is ever ahead of that peer's own counter (`Counters.CountersNeverAhead`), or behind what it
  has accepted (`Clocks.AcceptedIsLearned`), so that clocks follow the causal order (`Clocks.CausalOrder`). But a counter
  that is learned before the messages it counts, by a delta sync for instance, shuts out their sender for good
  (`StaleClocks.CounterAheadBlocks`, `StaleClocks.SyncBlocks`);
* a delta sync queues exactly the offered messages that the receiver has not processed (`DeltaSync.SyncCarries`);
* between receives, every buffered message still has a gap before it and no buffer exceeds 512, except after a failure:
  a receive keeps the buffers so exactly when no message fails in it while the next one lies in the buffer
  (`AtRest.ReceiveSettlesIff`, for runs `AtRest.AlwaysSettledIff`). They are so after all runs of a class exactly when the
  class lets none of the first 512 messages of a receive fail (`FailingReceives.SettledForAllIff`); a message left
  there can end up behind the last accepted number (`FailingReceives.StuckBehindLast`), and then no receive takes it out
  again unless a full buffer makes room (`FailingReceives.BehindStays`). A receive without interruption is a run of the
  atomic steps (`AtRest.ReceiveIsRun`);
* callbacks are *not* always in order: two messages accepted in order may be handed over in the other order, because
  each callback waits for an event and an ACK first (`Overtaking.OvertakingRun`). Nor do they always come: a failing ACK
  loses one (`Overtaking.LostCallBackRun`). For every run, with restarts and failing ACKs, whatever was accepted is
  suspended, handed over or lost (`CallBackOrder.AcceptedIsAccounted`); the application has got the messages of a sender
  in send order exactly when their callbacks ran oldest first (`CallBackOrder.OrderedDeliveryIff`); and it has got exactly
  the first k of them, each once, in send order, exactly when besides none is suspended or lost
  (`CallBackOrder.CompleteDeliveryIff`);
* ACKs and NAKs take numbers of the one counter but are never accepted, so that nobody ever accepts anything that a node
  sends after its first ACK or NAK (`ControlMessages.NothingAfterControl`).

**Framing and streams** (`Framing`, `Streams`). The four-byte length prefix, the three decoders and the two loops that
read a stream chunk by chunk. A chunk that makes the buffer exceed its limit aborts the stream; `Streams.NoAbortIff` says
for which chunk sizes that can never happen in the network module. The loop of the node stops after a failed frame, so
that there only chunks of at most four bytes are safe whatever handlers do (`Streams.NodeSafeForAllIff`). Which failures
make a stream end with frames not offered is said by `Streams.StreamOffersAllIff` and `Streams.NodeStreamOffersAllIff`.

**Key conversion** (`Modular`, `Primality`, `PrimeTower`, `Curve`). Ed25519 to X25519: the extended Euclid loop, the
birational map of section 4.1 of RFC 7748, the little-endian codecs, and the masks of section 5 of RFC 7748. `BigInt`
remainders take the sign of the dividend, and `Rem` does so too: for y of at least p + 2 the denominator is negative.
`PrimeTower` proves that 2^255 - 19 is prime, so that the only refused points are those with y = 1 mod p.

**Rate limits and retries** (`TokenBucket`, `PendingQueue`, `RetryBound`). The token buckets, which let through no more
than burst and rate allow (`TokenBucket.WindowBound`) and no less than comes in (`TokenBucket.TokensKept`), the
pending-message table with every statement that updates it, the retry pass and the handover to a reconnected peer. The
timer that starts retry passes does not wait for the one before, so passes overlap; `RetryBound` runs any number of them side by side, each cut
at its awaits. The limit of eight transmissions of a row by retry passes then fails in three ways: a row that a pass has
just delivered is queued again before it is removed, a row is read while another pass is still going to transmit it, or
a pass ends by an error in the middle of a transmission. `RetryBound.RetryBound` bounds the transmissions by eight plus
the number of these three, `RetryBound.BoundIsReached` reaches the bound for all numbers of them, and
`RetryBound.EightHoldsIff` says that eight holds in all runs of a class exactly when the class permits none of the three.

**XOR metric, selection, routing table** (`XorMetric`, `ReplicaSelection`, `RoutingTable`). Three computations of one
order, the choice of replica peers, and the flat routing table with its 256 buckets. The flat table and the buckets agree
after every run exactly when the own id has at most 32 bytes or is no hex string (`RoutingTable.PartitionIff`). Adding a
known peer again refreshes the flat table but not the bucket; `RoutingTable.OnlyUpdateRefreshesBucket` shows that such a
peer, seen this very moment, is dropped from both tables by the next optimization, and `RoutingTable.OptimizeDropsIff`
says for every run which peers are.

**Delta log** (`DeltaLog`). The state of named values of the sync protocol and the last hundred deltas. Deltas of the
same millisecond as the request are not sent (`DeltaLog.SameMillisecondIsMissed`); `DeltaLog.CatchesUpIff` says when that
is right whatever the deltas hold.

## Model

| member | source | states |
|---|---|---|
| Network.FifoDelivery | src/message/message-router.ts:352-371 | In every run with loss, duplication, reordering, delay, restarts, purges, delta syncs, outside peers and await-level interleaving, what node q has accepted from node p is, up to the payload (which the sender encrypts in one of its copies), a prefix of p's send log, numbered 1..k, and q's last sequence for p is k. |
| Network.AtMostOnce | src/message/message-router.ts:312-350 | In every run no two callbacks at a node are for messages with the same id, sender, timestamp and sequence, though processed ids are purged and the cache is lost; every message handed over was accepted. |
| Network.StepKeeps | src/message/message-router.ts:765-781 | Every atomic section (send, arrival, one flush iteration, callback, relay, delta sync, clean-up, restart, clock tick, outside message) keeps the network's invariant: authentic messages in all stores, accepted prefixes, spent ids, own counters covering what was sent. |
| Network.RunKeeps | src/message/message-router.ts:302-372 | The invariant holds after every run from every good state. |
| Network.NodeStepKeeps | src/message/message-router.ts:751-758 | No step of a node breaks its delivery invariant or lowers its own counter, whatever arrives. |
| Delivery.SendPosition | src/message/message-router.ts:821-828 | The i-th message of a send log has a sequence number of at least i + 1, with gaps and all. |
| Delivery.NextInLog | src/message/message-router.ts:713-720 | A message that passes both sequence gates is the one message of the log that follows the accepted prefix, and the log has had no gap up to it. |
| Delivery.PersistKeepsPrefix | src/database/index.ts:1062-1075 | The transaction keeps what was accepted from every peer a prefix of that peer's log. |
| Delivery.PersistKeepsOnce | src/database/index.ts:1026-1044 | The transaction accepts no message that equals one accepted before, and marks the new one as spent for good. |
| Delivery.ProcessKeeps | src/message/message-router.ts:765-781 | Accepting a message that passed the gates keeps the whole delivery invariant of a node, also when it turns out to be a duplicate. |
| Delivery.GateKeeps | src/message/message-router.ts:312-369 | So does the arrival of any authentic message, whatever the gates decide. |
| Delivery.FlushOneKeeps | src/message/message-router.ts:751-758 | So does each iteration of the flush loop. |
| Delivery.PurgeKeeps | src/database/index.ts:1106-1111 | Deleting processed rows older than seven days lets no accepted message in again: an unsequenced one is then outside the five-minute window, a sequenced one behind the last sequence. |
| Delivery.RestartKeeps | src/message/message-router.ts:145-147 | Losing the cache, the buffers and the suspended callbacks keeps the invariant. |
| Delivery.CallBackKeeps | src/message/message-router.ts:804-806 | Running any suspended callback keeps the invariant. |
| Delivery.LoseCallBackKeeps | src/message/message-router.ts:801-803 | So does losing any suspended callback to a failing ACK. |
| Delivery.CallBackKeepsOrderIff | src/message/message-router.ts:782-806 | From a state with the callbacks of each sender in order, one more callback keeps them so if and only if no older message of its sender is still suspended: the step of the result about runs. |
| CallBackOrder.OtherStepKeepsOrder | src/message/message-router.ts:765-781 | Every other step of the network (accepting, buffering, flushing, losing a callback to a failing ACK, restarting, cleaning up) keeps the callbacks in order, among any tickets. |
| CallBackOrder.CallBacksInOrderIff | src/message/message-router.ts:782-806 | In every run from the start and among any tickets, after every prefix the messages handed over were in the order of acceptance for every sender and older than those of that sender still suspended, if and only if each callback that ran was the oldest of its sender still suspended. |
| CallBackOrder.AcceptedIsAccounted | src/message/message-router.ts:765-807 | In every run, with restarts and failing ACKs, whatever q has accepted was handed over, is still suspended or has been lost; just one of the three, and the numbers add up. |
| CallBackOrder.HandedOverInOrderIff | src/message/message-router.ts:782-806 | In every run, with restarts and failing ACKs, the messages were handed over in the order of acceptance for every sender if and only if each callback, when it ran, was the oldest of its sender among those suspended that have run by the end. |
| CallBackOrder.NothingLostIff | src/message/message-router.ts:782-806 | In every run that has lost no callback at q, by a failing ACK or a restart, and leaves none suspended there, if and only if each was simply the oldest of its sender suspended. |
| CallBackOrder.OrderedDeliveryIff | src/message/message-router.ts:765-807 | In every run, with restarts and failing ACKs, what the application at q got from p is a subsequence of p's send log, in the order of the log, if and only if each callback of a message of p was the oldest of p among those suspended that have run by the end. |
| CallBackOrder.CompleteDeliveryIff | src/message/message-router.ts:765-807 | In every run it is exactly what q has accepted of p, which is the first k messages of that log, each once, in send order, if and only if no message of p is suspended at q or lost there and the callbacks of p's messages ran oldest first. |
| ControlMessages.NothingAfterControl | src/message/message-router.ts:853-864 | In every run no node has accepted an ACK or NAK, and from p's first one on nobody has accepted a copy of anything that p sent. |
| Overtaking.CallBacksMayOvertake | src/message/message-router.ts:782-806 | From every network state with a fresh node and the first two messages of a sender on the wire, a legal run accepts both in order and hands them over in the other order. |
| Overtaking.OvertakingRun | src/message/message-router.ts:765-807 | Such a run exists from the start of any network of two nodes, with both messages sent by the ordinary send. |
| Overtaking.LostCallBackRun | src/message/message-router.ts:801-806 | Nor are they always complete: one failing ACK, without a restart and with every callback the oldest one, and of two messages accepted the application has got the second only, with nothing left suspended. |
| Counters.CountersNeverAhead | src/message/message-router.ts:821-840 | In every run in which callers preset neither sequence nor clock and no outside peer takes part, node q's counter for p is at most p's own, p's own counter is the number of messages p sent, and these are numbered 1, 2, 3, ... |
| Counters.StepClean | src/message/message-router.ts:1446-1466 | Every step, delta syncs and relayed clocks included, keeps each counter anywhere in the network at most the number of messages its peer has sent. |
| Clocks.AcceptingLearns | src/database/index.ts:1062-1100 | Accepting a message learns its whole clock and no more: no counter goes back, every non-negative entry is reached, the sequence number counts when the clock does not name the sender, and every counter is an old one, an entry or that number. |
| Clocks.StampDominates | src/message/message-router.ts:821-840 | A stamped message has a clock that is nowhere below what the node knows or the caller preset, its own number is one more than the own counter, and the node changes no other counter. |
| Clocks.AcceptedIsLearned | src/database/index.ts:1077-1097 | In every run a node's counters are nowhere below the clock of any message it has accepted, and never go back. |
| Clocks.CounterCoversDelivered | src/database/index.ts:1077-1097 | In every run q's counter for p is at least the number of messages of p that q has accepted. |
| Clocks.CausalOrder | src/message/message-router.ts:821-840 | In every run, what a node sends has a clock nowhere below that of any message it accepted before, and above it at the sender's own entry. |
| StaleClocks.CounterAheadBlocks | src/message/message-router.ts:809-819 | In every run without preset clocks, once q's counter for p is beyond p's next message, which is not in q's buffer, q accepts nothing more from p, whatever happens from then on. |
| StaleClocks.NextIsAcceptedIff | src/message/message-router.ts:809-819 | In every run without preset clocks, a timely copy of p's next message with an unknown id is accepted at its arrival if and only if q's counter for p is not beyond it. |
| StaleClocks.SyncBlocks | src/message/message-router.ts:1446-1453 | A run of two nodes: p sends two messages, and q applies a delta sync of p before they arrive; from then on no run makes q accept anything from p. |
| DeltaSync.QueuesUnprocessed | src/message/message-router.ts:1454-1465 | Of the messages of a delta sync, the last one of every id that is not processed is in the queue afterwards; every other key of the queue, processed ids included, is as before. |
| DeltaSync.SyncCarries | src/message/message-router.ts:1425-1466 | Whatever happens between offering and taking up a delta sync, the receiver then has every offered message it has not processed in its queue, the rest of the queue is unchanged, and its counters are nowhere below those offered. |
| AtRest.FlushSettles | src/message/message-router.ts:745-763 | After the flush loop every buffered message has its own number as key and a gap before it, and no buffer holds more than 512, also when a flushed message was a duplicate, if and only if no message fails in the loop except possibly the last of those that it takes out when none fails. |
| AtRest.ReceiveSettlesIff | src/message/message-router.ts:369-371 | Every receive of any message at any time, with whatever ACKs and callbacks fail, keeps the buffers so if and only if neither the message itself nor one that it lets out of the buffer fails while the next one lies in the buffer. |
| AtRest.OwnFailureIff | src/message/message-router.ts:369-371 | When the ACK or the callback of the message itself fails, the buffers stay so if and only if the next number is not in the buffer. |
| AtRest.AlwaysSettledIff | src/message/message-router.ts:745-807 | In every run of receives and restarts the buffers are so after every prefix if and only if no receive of the run is cut short by such a failure. |
| FailingReceives.SettledForAllIff | src/message/message-router.ts:745-807 | For every class of outcomes: the buffers are so after all runs of receives that go as the class allows, and restarts, if and only if in no outcome of the class one of the first 512 messages that a receive accepts fails. |
| FailingReceives.EarlyFailureUnsettles | src/message/message-router.ts:745-763 | For every outcome with such a failure a run shows it: 512 messages wait in the buffer for the first one. |
| FailingReceives.StuckBehindLast | src/message/message-router.ts:369-371 | A concrete run: messages 2 and 1 arrive and the ACK of 1 fails, so that 2 stays in the buffer although it is next; another copy of 2 is accepted without a failure, and the first copy stays in the buffer behind the last accepted number. |
| FailingReceives.BehindStays | src/message/message-router.ts:745-763 | Every receive, whatever fails in it, leaves a buffered message behind the last accepted number where it is, unless one of the same sender comes when the buffer is full. |
| AtRest.BuffersBounded | src/message/message-router.ts:722-743 | In every interleaved run no buffer holds more than 512 messages, each under its own number and sender. |
| AtRest.FlushIsRun | src/message/message-router.ts:745-763 | A whole flush loop, with its callbacks and with failures that end it, is a run of single steps of the network. |
| AtRest.ReceiveIsRun | src/message/message-router.ts:302-372 | A whole receive without interruption, with its callbacks and failures, is a run of the network's atomic steps, so the results about all runs hold for it. |
| Receiving.MergeOneMore | src/database/index.ts:1077-1087 | Merging a clock entry by entry, in any order, gives the entrywise maximum of the entries done so far. |
| Receiving.LeastExists | src/message/message-router.ts:739-742 | Every non-empty set of sequence numbers has one least element, the one that is evicted. |
| Receiving.FlushEnds | src/message/message-router.ts:745-763 | The flush loop ends for every buffer and leaves other peers' buffers and sequences untouched; it ends at a gap if and only if none but the last message it can take out fails; when none at all fails, a buffer that was emptied is removed; an empty one is left alone. |
| Gates.AcceptedIff | src/message/message-router.ts:312-369 | A message is accepted at its arrival if and only if it is no ACK or NAK, its timestamp is at most five minutes off in either direction, its id is neither in the cache nor processed, it has no number or the next one (from an unknown sender, one of at most 1), and its clock does not name its sender with less than the known counter; otherwise nothing is accepted. |
| Gates.BufferedIff | src/message/message-router.ts:713-743 | A message lies in the buffer after its arrival if and only if it passed the first checks and leaves a gap, or lay there before; beyond 512 only if it has not the least number. |
| Gates.OnlyTheBuffer | src/message/message-router.ts:722-743 | A message that leaves a gap changes its sender's buffer and nothing else; one that is neither accepted nor leaves a gap changes nothing at all. |
| Gates.PutIs | src/message/message-router.ts:732-742 | Up to 512 messages all stay; beyond, the one with the least number goes and all others stay. |
| Gates.PurgedIff | src/database/index.ts:1106-1111 | A processed row goes if and only if it is older than seven days. |
| Gates.RememberIs | src/message/message-router.ts:842-851 | The cache gets the newest id, forgets at most the oldest one and that beyond 10 000 only, and stays at 10 000 unless the oldest is the empty string. |
| Reordering.ReorderingIsRepaired | src/message/message-router.ts:713-763 | At every node that waits for the next up to 513 messages of a peer: whatever the order and the number of copies in which they arrive in time, the application gets exactly those before the first one missing, in order and each once. |
| ReorderingLimit.RepairsAllIff | src/message/message-router.ts:722-763 | For all orders and numbers of copies the next k messages are all accepted in order if and only if k is at most 513. |
| Reordering.FlushRepairs | src/message/message-router.ts:745-763 | The flush loop comes to the first message missing and accepts and hands over everything before it. |
| Router.MessageRouter.UpdateVectorClock | src/database/index.ts:1003-1017 | The stored counter becomes the maximum of the stored one and the new one, and no other entry changes. |
| Router.MessageRouter.MergeVectorClock | src/database/index.ts:1077-1087 | The loop over the entries merges the whole clock, leaving out negative counters. |
| Router.MessageRouter.PersistIncoming | src/database/index.ts:1019-1104 | The transaction does nothing for a processed id, and otherwise the specified change of processed ids, last sequence, clocks and waiting callbacks. |
| Router.MessageRouter.RememberProcessed | src/message/message-router.ts:842-851 | The cache remembers the id and drops its oldest entry beyond the limit, unless that is the empty string. |
| Router.MessageRouter.ProcessAccepted | src/message/message-router.ts:765-807 | Transaction, cache, ACK and callback together are the specified acceptance: a failing ACK loses the callback and throws, a failing callback has run and throws. |
| Router.MessageRouter.OldestKey | src/message/message-router.ts:739-742 | Finds the least key of a buffer. |
| Router.MessageRouter.BufferOutOfOrder | src/message/message-router.ts:722-743 | Stores the message under its number and, beyond 512, drops the least number. |
| Router.MessageRouter.FlushBuffered | src/message/message-router.ts:745-763 | The loop over the buffer in place does what the recursive flush specifies, and throws exactly when a message that it can reach fails. |
| Router.MessageRouter.Receive | src/message/message-router.ts:302-372 | After rate limits and handover, the chain of branches and gates in place (control messages, timestamp, relay envelopes that were dealt with, deduplication, sequence, buffer, clock) gives the specified verdict and the specified new state in every case; when the ACK or callback of the message fails the buffer is not flushed. |
| Router.MessageRouter.ApplyOutgoingVectorClock | src/message/message-router.ts:821-840 | Stamping raises the own counter by one, uses it as the sequence number unless one is preset, and attaches the merged clock. |
| Router.MessageRouter.MergeEntries | src/message/message-router.ts:831-838 | The loop over a message's own clock entries merges them into the local clocks by maximum. |
| Router.MessageRouter.ApplyDeltaSync | src/message/message-router.ts:1446-1466 | Merges the clock of a delta sync and queues its messages that are not processed yet. |
| Router.MessageRouter.DeleteOldProcessed | src/database/index.ts:1106-1111 | Keeps exactly the processed rows that are at most seven days old. |
| Framing.Encode | src/core/protocols.ts:55-68 | Refuses payloads above the limit and no others; otherwise the buffer is the big-endian length followed by the payload. |
| Framing.DecodeFrames | src/core/protocols.ts:73-106 | The loop finds the frames and the remainder of the buffer, and fails exactly when a header announces too large a frame. |
| Framing.Decode | src/core/protocols.ts:111-135 | Decodes the first frame only; each of its errors occurs exactly in its own case. |
| Framing.SplitMessages | src/core/protocols.ts:140-183 | The tolerant loop skips empty and oversized headers and unreadable frames, and gives the specified messages and remainder. |
| Framing.ParseThenReframe | src/core/protocols.ts:73-106 | Framing the decoded frames again and appending the remainder rebuilds every buffer. |
| Framing.ReframeThenParse | src/core/protocols.ts:55-68 | Any payloads within the limit, framed and followed by a partial frame, are decoded to those payloads with that partial left. |
| Framing.ParseMore | src/core/protocols.ts:73-106 | Decoding a prefix and then its remainder with the later bytes is decoding all bytes at once, also at an oversized header. |
| Framing.RestIsShort | src/core/protocols.ts:73-106 | A remainder holds no whole frame and has at most MAX_FRAME + 3 bytes. |
| Framing.FirstHeader | src/core/protocols.ts:73-106 | The first four bytes of a buffer, most significant first, are a number: above 256 KiB decoding fails there, otherwise it is the length of the first frame, which is cut off once all of it is there. |
| Framing.SplitIsParse | src/core/protocols.ts:140-183 | Whenever the strict decoder succeeds, the tolerant one has the same remainder and returns the readable non-empty frames in order. |
| Framing.SplitResumes | src/core/protocols.ts:147-166 | Where the strict decoder gives up, the tolerant one keeps the messages before, skips the four bytes of the oversized header and goes on from there. |
| Streams.ConcatBuffers | src/network/NetworkModule.ts:886-895 | The new buffer is the two buffers one after the other. |
| Streams.OfferFrames | src/network/NetworkModule.ts:783-796 | The loop offers frames up to and with the first that fails. |
| Streams.HandleNetworkStream | src/network/NetworkModule.ts:729-753 | The chunk loop in place is the specified stream. |
| Streams.ChunkInvariance | src/network/NetworkModule.ts:729-753 | For every division of a stream into chunks, an open stream has kept the remainder of decoding all bytes at once, has offered exactly its frames when no handler fails, and breaks only when decoding all bytes does. |
| Streams.OfferedAllIff | src/network/NetworkModule.ts:783-796 | All frames of a chunk are offered if and only if no frame before the last fails; otherwise the later ones are lost. |
| Streams.StreamOffersAllIff | src/network/NetworkModule.ts:729-753 | An open stream has offered all frames of its bytes if and only if every failing frame is the last that its chunk completes; otherwise it has offered fewer. |
| Streams.LastChunkOffersNothing | src/network/NetworkModule.ts:729-753 | A chunk with too large a header breaks the stream and one beyond 512 KiB aborts it; neither offers any of the frames it completes, so that then all frames have been offered exactly when it completes none. |
| Streams.NoAbortIff | src/network/NetworkModule.ts:734-741 | No stream of chunks of at most c bytes is ever aborted if and only if c is at most MAX_FRAME - 3. |
| Streams.SmallChunksNeverAbort | src/network/NetworkModule.ts:734-741 | Chunks of at most MAX_FRAME - 3 bytes never trip the receive-buffer limit. |
| Streams.AbortingStream | src/network/NetworkModule.ts:734-741 | Chunks one byte longer can: a concrete stream that is aborted. |
| Streams.ProcessFrames | src/core/node.ts:689-731 | The loop that cuts off and handles one frame at a time is the specified one, error cases included. |
| Streams.HandleNodeStream | src/core/node.ts:641-668 | The chunk loop of the node in place is the specified stream. |
| Streams.NodeFramesConserve | src/core/node.ts:689-731 | Whatever handlers throw, the frames offered followed by those left in the buffer are the frames of the buffer before. |
| Streams.NodeConservation | src/core/node.ts:641-668 | At every chunk boundary the frames offered so far followed by the frames in the buffer are the frames of all bytes received, so each is offered at most once, in order, and a failure loses only its own frame. |
| Streams.NodeStreamOffersAllIff | src/core/node.ts:641-731 | An open stream of the node has offered all frames of its bytes if and only if, of the frames still to be offered when the last chunk came, none but the last one failed; failures at earlier chunks only delay frames. |
| Streams.NodeSafeIff | src/core/node.ts:646-653 | When no handler fails, no stream of chunks of at most c bytes is aborted if and only if c is at most MAX_FRAME - 3. |
| Streams.NodeSafeForAllIff | src/core/node.ts:646-653 | Whatever handlers do, that holds if and only if c is at most 4, since a failing handler stops the loop after one frame. |
| Curve.DecodeEdwardsY | src/crypto/index.ts:241-251 | The loop reads the little-endian number of the 32 bytes with the top bit cleared, which is below 2^255. |
| Curve.ToLittleEndian | src/crypto/index.ts:272-280 | The loop fills a fresh array with the 32 little-endian digits of the value. |
| Curve.DecodeEncode | src/crypto/index.ts:272-280 | Decoding the n digits of a value below 256^n gives the value back. |
| Curve.EncodeDecode | src/crypto/index.ts:241-251 | Encoding the value of any bytes gives the bytes back. |
| Curve.NormalizeIsMod | src/crypto/index.ts:254-254 | The double remainder of a possibly negative value is its residue in [0, m). |
| Curve.ModInverse | src/crypto/index.ts:253-270 | Ends for every value and positive modulus, fails exactly when the two are not coprime, and otherwise returns the only inverse in [0, modulus). |
| Curve.InverseUnique | src/crypto/index.ts:253-270 | A value has at most one inverse in [0, m). |
| PrimeTower.PrimeP | src/crypto/index.ts:212-226 | The modulus 2^255 - 19 is prime. |
| Primality.PrimeIf | src/crypto/index.ts:212-226 | The criterion for that: an element whose order exceeds the square root of the number. |
| Curve.NonzeroIsCoprime | src/crypto/index.ts:219-222 | Every denominator but 0 has an inverse, so that the extended Euclid loop never fails here. |
| Curve.ConvertPublic | src/crypto/index.ts:212-226 | Refuses keys that are not 32 bytes, and points with y = 1 mod p, and no others; otherwise returns u in [0, p) with u (1 - y) = 1 + y mod p, for y of p and above too. |
| Curve.DenominatorOf | src/crypto/index.ts:217-222 | The denominator is 1 - y mod p, is 0 exactly for y = 1 mod p, and is negative for y of at least p + 2. |
| Curve.MapHolds | src/crypto/index.ts:214-224 | Numerator times inverse of the denominator satisfies the equation of the map, for negative denominators too. |
| Curve.MapInverse | src/crypto/index.ts:212-226 | The equation of the map is equivalent to that of its inverse y = (u - 1)/(u + 1) of section 4.1 of RFC 7748. |
| Curve.MapInjective | src/crypto/index.ts:212-226 | Two y with one u are congruent, modulo any odd number and so modulo p, prime or not. |
| Curve.ConversionInjective | src/crypto/index.ts:212-226 | Two keys with equal converted bytes have congruent y, and equal bytes up to the sign bit when both y are below the modulus; for any odd modulus, so for p. |
| Curve.ConversionUnique | src/crypto/index.ts:212-226 | A point has only one converted key in [0, p), for p or any odd modulus. |
| Curve.ImageIs | src/crypto/index.ts:212-226 | Some key converts to u in [0, p) if and only if u is not p - 1; with the two rows above the map is a bijection from the y in [0, p) other than 1. |
| Curve.Clamp | src/crypto/index.ts:228-239 | The masks, applied in place, give 2^254 plus the hashed bits 3 to 253. |
| Curve.ClampValue | src/crypto/index.ts:233-238 | What the three masks do to the number that the bytes stand for. |
| Curve.ClampedRange | src/crypto/index.ts:233-238 | A masked scalar is a multiple of 8 in [2^254, 2^255), as section 5 of RFC 7748 asks, and masking again changes nothing. |
| TokenBucket.Throttle.AllowInbound | src/message/message-router.ts:938-988 | Refill and withdrawal in place are the specified step; the decision is the specified one. |
| TokenBucket.RunInRange | src/message/message-router.ts:949-958 | Tokens stay in [0, burst] for every key over every run, with a clock that goes either way. |
| TokenBucket.TokensAccounted | src/message/message-router.ts:938-962 | Calls let through plus tokens left never exceed the tokens at the start plus the rate times the time since. |
| TokenBucket.WindowBound | src/message/message-router.ts:938-988 | In every window of calls, other keys and backward clock steps mixed in, at most burst plus rate times elapsed time calls for one key are let through. |
| TokenBucket.HighWaterIsLatest | src/message/message-router.ts:946-951 | The elapsed time of the bound ends at the latest time of any call for the key. |
| TokenBucket.BurstIsAllowed | src/message/message-router.ts:941-962 | As many calls as the burst allows are all let through, whenever they come. |
| TokenBucket.TokensKept | src/message/message-router.ts:947-958 | Over every run, calls let through plus tokens left are at least the smaller of the burst and the tokens at the start plus the rate times the time to the latest call. |
| TokenBucket.TokenComesBack | src/message/message-router.ts:947-962 | After every run, the next call for a key is let through once the time of one token has passed since the latest call for it, and so is the first call of a key, for a burst of at least 1. |
| TokenBucket.BurstComesBack | src/message/message-router.ts:947-962 | A key left alone for the time of a whole burst can spend its whole burst again, at whatever times from then on. |
| PendingQueue.PendingTable.QueueMessage | src/database/index.ts:469-508 | Inserts a new row, or renews target, data, status and deadline of a known one and keeps its attempts and next retry. |
| PendingQueue.PendingTable.SetStatus | src/database/index.ts:582-602 | Sets the status of one row and changes nothing else. |
| PendingQueue.PendingTable.SchedulePendingRetry | src/database/index.ts:604-621 | Makes the row pending, counts one attempt and sets the next retry. |
| PendingQueue.PendingTable.HandleNak | src/message/message-router.ts:591-618 | A NAK counts two attempts and delays the row by the backoff of one more attempt. |
| PendingQueue.PendingTable.DeleteExpired | src/database/index.ts:623-630 | Keeps exactly the pending rows whose deadline is ahead. |
| PendingQueue.PendingTable.GetRetryable | src/database/index.ts:518-526 | The due rows and no others, each once, by next retry. |
| PendingQueue.PendingTable.Retry | src/message/message-router.ts:377-430 | A pass without interruption, over the table in place, treats every due row by its own attempts and success, in whatever order, and then cleans up. |
| RetryBound.PassIsRetry | src/message/message-router.ts:377-430 | Such a pass is a run of the steps that RetryBound interleaves, so the two models agree. |
| RetryBound.HandoverIsRun | src/message/message-router.ts:1468-1487 | A handover without interruption is a run of the interleaved steps, one for every row, that leaves the table the handover method leaves. |
| PendingQueue.PendingTable.GetPendingForPeer | src/database/index.ts:567-580 | At most twenty waiting rows of the peer, each once, none older left out, and none left out when there are fewer. |
| PendingQueue.PendingTable.Handover | src/message/message-router.ts:1468-1487 | Exactly those rows are delivered or rescheduled; every other row is unchanged. |
| PendingQueue.BackoffDoubles | src/message/message-router.ts:934-936 | The delay is a second before the first attempt, doubles with every attempt, and stays at a minute from where it would exceed it. |
| PendingQueue.RetryLeavesTheFuture | src/message/message-router.ts:377-430 | After a pass every row is pending with deadline and next retry ahead; the rows gone are exactly those delivered, given up or out of time. |
| PendingQueue.RetriedRows | src/message/message-router.ts:384-430 | A due row that a pass leaves has one more attempt, at most eight, and waits for the backoff of the attempts before; nothing else of it and no other row changes. |
| PendingQueue.QueuedRow | src/database/index.ts:469-508 | A queued id is pending with the new target, data and deadline; a new row is due at once, a known one keeps attempts, next retry and age; no other row changes. |
| PendingQueue.NakCountsTwice | src/message/message-router.ts:591-618 | A NAK adds two attempts, delays the row by two to sixty seconds and changes nothing else of it. |
| PendingQueue.FourNaks | src/message/message-router.ts:591-618 | Four NAKs use up all attempts: the next pass that finds the row due drops it without transmitting it. |
| PendingQueue.HandoverRows | src/message/message-router.ts:1468-1487 | A row handed over is delivered if it was sent, otherwise pending with one more attempt and a retry between one and sixty seconds ahead; target, data, age and deadline stay, and every other row is as before. |
| PendingQueue.OnlySentAreDropped | src/message/message-router.ts:1468-1487 | A clean-up at the time of the handover drops a row handed over if and only if it was sent, a later one if besides its deadline has passed. |
| RetryBound.RetryBound | src/message/message-router.ts:377-430 | Over every run at await level, with any number of passes side by side and NAKs, ACKs, handovers and re-queues anywhere, passes transmit a row at most eight times plus once for each re-queue of a row just delivered, each read while another pass was going to transmit it, and each transmission that a pass broke off. |
| RetryBound.StepKeeps | src/message/message-router.ts:384-430 | Every such step keeps transmissions plus outstanding reads within what attempts, deliveries and the three counts account for. |
| RetryBound.EightTransmissions | src/message/message-router.ts:523-531 | At most eight times when passes run one at a time, break off no transmission, and nobody queues a row just delivered, whatever else runs inside and between passes. |
| RetryBound.EightHoldsIff | src/message/message-router.ts:523-531 | Eight is the limit in all runs of a class if and only if the class permits none of the three. |
| RetryBound.BoundIsReached | src/message/message-router.ts:523-531 | For all numbers of re-queues, overlaps and broken transmissions a run with just these reaches the bound; so each of them alone exceeds eight. |
| XorMetric.LexicographicCompare | src/message/message-router.ts:1555-1570 | The sign of the first differing byte is the sign of comparing the padded XOR numbers, for ids of any lengths. |
| XorMetric.BigDistance | src/protocols/sync.ts:284-298 | The loop computes the padded big-endian XOR number of a pair. |
| XorMetric.CompareBytes | src/routing/index.ts:408-418 | Zero exactly for equal arrays; for equal lengths the sign is that of comparing the numbers. |
| XorMetric.TotalPreorder | src/message/message-router.ts:1555-1570 | The order is a total preorder on ids of mixed lengths. |
| XorMetric.PaddingIsIrrelevant | src/message/message-router.ts:1560-1564 | Padding to any larger common width does not change the order. |
| XorMetric.AsCloseOnlyItself | src/message/message-router.ts:1555-1570 | Ids of one length are equally close to a target if and only if they are the same. |
| XorMetric.ThreeAgree | src/protocols/sync.ts:284-298 | For ids of one length the three computations give one order and the same ties. |
| XorMetric.SyncAgreesIff | src/protocols/sync.ts:284-298 | For ids of given lengths the sync order is the router's order on all such ids if and only if both pairs have the same width or one has none. |
| XorMetric.SyncDiffersOnMixedLengths | src/protocols/sync.ts:284-298 | For mixed lengths the sync distance can order the other way round: a concrete case. |
| XorMetric.FirstByteDecides | src/routing/index.ts:408-418 | The first differing byte decides between two numbers of equal length. |
| ReplicaSelection.Compare | src/message/message-router.ts:1504-1510 | Negative exactly for the higher score, or at equal scores the smaller distance to the target. |
| ReplicaSelection.BetterIsPreorder | src/message/message-router.ts:1504-1510 | That comparison is a consistent order, so sorting by it means something. |
| ReplicaSelection.SelectReplicaPeers | src/message/message-router.ts:1489-1532 | Distinct eligible peers, at most n: the best candidates, best first, then bootstrap peers in order; with fewer than n no eligible peer of either kind is left out. |
| ReplicaSelection.ChooseBest | src/message/message-router.ts:1504-1511 | The n best available candidates by score, then distance; no candidate left out is better than one chosen. |
| ReplicaSelection.FillUp | src/message/message-router.ts:1517-1529 | The loop adds the first fallback peers up to n. |
| ReplicaSelection.FallbackIs | src/message/message-router.ts:1517-1529 | The fallback peers are the eligible bootstrap peers not chosen yet, each once, by first occurrence. |
| ReplicaSelection.SelectionIs | src/message/message-router.ts:1489-1532 | Best candidates and fallback together have all the promised properties. |
| ReplicaSelection.SelectionIsWellChosen | src/message/message-router.ts:1489-1532 | Spelled out: no chosen peer is the target, the node itself or scored -40 or below; those of the routing table are available, come by score and then by XOR distance, and no available one left out is better; the others are bootstrap peers, none of which is left out while there is room. |
| RoutingTable.RoutingModule.GetBucketIdForPeer | src/routing/index.ts:219-263 | The scan for the first non-zero byte gives the specified bucket, 255 for ids that are not hex, of another length, or the own id. |
| RoutingTable.LargerBucketIsCloser | src/routing/index.ts:241-249 | For ids of one length of at most 32 bytes a larger bucket number means strictly smaller XOR distance to the own id. |
| RoutingTable.BucketIsLogarithm | src/routing/index.ts:241-262 | For ids of one length the bucket number is the number of leading zero bits of the XOR distance, which lies between the two powers of two that this says, and 255 when all bytes are the same. |
| RoutingTable.DigitsAre | src/routing/index.ts:219-239 | Hex digits of either case stand for their place in the row of digits, and no other character is one. |
| RoutingTable.PairIs | src/routing/index.ts:241-242 | A pair of digits stands for sixteen times the first plus the second. |
| RoutingTable.PartitionIsDisjointUnion | src/routing/index.ts:136-170 | With the tables in agreement, the keys of the flat table are the union of the bucket keys, and no peer is in two buckets. |
| RoutingTable.AddKeeps | src/routing/index.ts:136-170 | Adding a peer keeps the agreement. |
| RoutingTable.UpdateKeeps | src/routing/index.ts:190-213 | Updating a peer keeps it. |
| RoutingTable.WithoutKeeps | src/routing/index.ts:175-185 | Removing any peers keeps it. |
| RoutingTable.WithoutIs | src/routing/index.ts:175-185 | Removing peers takes them out of both tables and leaves every other entry as it is. |
| RoutingTable.OptimizeKeeps | src/routing/index.ts:353-380 | Removing what is stale by the buckets' own timestamps keeps it. |
| RoutingTable.EvictKeeps | src/routing/index.ts:268-294 | Evicting a peer whose ping failed keeps it. |
| RoutingTable.EvictedIs | src/routing/index.ts:283-294 | An evicted peer leaves the flat table and its bucket; no other peer, bucket or entry changes. |
| RoutingTable.RunKeeps | src/routing/index.ts:136-213 | The tables agree after every run of add, update, remove, clean-up, optimization and eviction at any time, when the own id has at most 32 bytes or is no hex string. |
| RoutingTable.NoBucketFor | src/routing/index.ts:242-247 | With a longer own id some peer has no bucket. |
| RoutingTable.PartitionIff | src/routing/index.ts:136-213 | The tables agree after every run if and only if the own id has at most 32 bytes or is no hex string. |
| RoutingTable.BucketHolds | src/routing/index.ts:150-157 | After every run the bucket of a known peer holds the entry of the operation that inserted it or of its last update since. |
| RoutingTable.OptimizeDropsIff | src/routing/index.ts:353-380 | After every run the next optimization drops a peer if and only if that entry is older than five minutes. |
| RoutingTable.OnlyUpdateRefreshesBucket | src/routing/index.ts:152-157 | A peer added again just now is dropped by the next optimization when its first addition is stale; a peer updated just now stays. |
| RoutingTable.RunPlaced | src/routing/index.ts:136-213 | After every run and for every own id, a bucket has only peers of its own that are in the flat table. |
| RoutingTable.RoutingModule.AddPeer | src/routing/index.ts:136-170 | The two tables in place become the specified ones; an eviction is begun exactly beyond twenty peers (save for the empty id), for a peer seen least recently. |
| RoutingTable.RoutingModule.Oldest | src/routing/index.ts:272-281 | Finds an entry of a bucket with the least timestamp. |
| RoutingTable.RoutingModule.FinishEviction | src/routing/index.ts:283-294 | Removes the peer from its bucket and the flat table unless the ping succeeded. |
| RoutingTable.RoutingModule.RemovePeer | src/routing/index.ts:175-185 | The loop removes the peer from both tables and nothing else. |
| RoutingTable.RoutingModule.UpdateEntry | src/routing/index.ts:190-213 | Refreshes both entries of a known peer, adds an unknown one. |
| RoutingTable.RoutingModule.CleanupStaleEntries | src/routing/index.ts:335-348 | Removes exactly the peers whose flat entry is older than the threshold, and counts them. |
| RoutingTable.RoutingModule.OptimizeBuckets | src/routing/index.ts:353-380 | The nested loops remove from both tables exactly what is stale in some bucket. |
| RoutingTable.RoutingModule.GetAllPeers | src/routing/index.ts:396-400 | In every state that a run can reach, the peers of all buckets, each once; those of the flat table when the two agree. |
| RoutingTable.RoutingModule.FindClosestPeers | src/routing/index.ts:385-394 | In every state that a run can reach: fails exactly when some id in the buckets has another length than the target; otherwise the count nearest of them, nearest first, or all. |
| DeltaLog.NodeState.SetState | src/protocols/sync.ts:62-64 | Replaces the state and keeps the history. |
| DeltaLog.NodeState.ApplyDelta | src/protocols/sync.ts:89-104 | The loop over the keys applies the delta, and the history becomes the last hundred entries of the log. |
| DeltaLog.NodeState.GetDeltasSince | src/protocols/sync.ts:106-110 | The deltas of the last hundred log entries that are newer than the given time, in order. |
| DeltaLog.NodeState.GetRecentDeltas | src/protocols/sync.ts:112-114 | The newest deltas: as many as the limit for a positive one, or all there are, and what the slice gives otherwise; without a replaced state, folding them over the current state changes nothing. |
| DeltaLog.ReplayCatchesUp | src/protocols/sync.ts:89-110 | With ascending timestamps, a peer with the state of any moment from t on that folds the deltas newer than t has the current state, when these are at most a hundred and the state was not replaced among them. |
| DeltaLog.WindowCoversIff | src/protocols/sync.ts:101-110 | The history still answers for t if and only if at most a hundred entries are newer than t. |
| DeltaLog.OldestTells | src/protocols/sync.ts:101-110 | It does when the oldest entry kept is no newer than t or the history is not full. |
| DeltaLog.UncoveredReplayIff | src/protocols/sync.ts:101-110 | When more are newer, the result is right if and only if whatever the lost deltas wrote is written again by those sent or had that value before. |
| DeltaLog.OverlapIsHarmless | src/protocols/sync.ts:89-95 | Deltas already in a state may be applied again if all later ones follow. |
| DeltaLog.LoggedEndIsHarmless | src/protocols/sync.ts:112-114 | Folding any end of the log over the current state leaves it unchanged. |
| DeltaLog.EarlyReplayIff | src/protocols/sync.ts:106-110 | A peer whose state is older than t ends up right if and only if the deltas between do not show. |
| DeltaLog.CatchesUpIff | src/protocols/sync.ts:106-110 | Replay is right whatever the deltas hold if and only if every delta since the peer's state is newer than t. |
| DeltaLog.SameMillisecondIsMissed | src/protocols/sync.ts:106-110 | A delta applied in the millisecond of the request is not sent: a concrete run. |

## Left out

- Network.FifoDelivery: a copy on the wire may have any payload, since encryption is not modelled, and which payload was accepted is not stated; that a message naming a modelled node as its sender comes from that node is an assumption, since the router itself does not verify the sender; messages whose caller preset a sequence number are not in a send log.
- Network.AtMostOnce: between the timestamp check and the transaction of a plain store-and-forward message the source awaits; the model takes the two together.
- Counters.CountersNeverAhead: needs all peers of the run to be nodes and all drafts to be without clock and sequence, since a clock that arrives is merged unchecked.
- Curve.ModInverse: takes a positive modulus, which is all the source calls it with.
- RetryBound.RetryBound: counts transmissions by retry passes while the row is in the table; a pass that transmits what it read of a row already removed counts for no row.
- Router.MessageRouter.Receive: rate limits and handover come before it; whether a relay envelope was dealt with is a parameter. How ACK and callback of each accepted message go is a parameter too, and may be any: also a failing ACK for a message that gets none. ACKs for messages that the gates turn away are not modelled, since nothing but the end of the receive follows them.
- PendingQueue.PendingTable.Retry: is a pass without interruption, which RetryBound cuts at its awaits; the clock is read once in a call, and the fallback relay of a failed entry is the outcome `not sent`.
- PendingQueue.PendingTable.GetRetryable: the status `processing` is never written by the source and is not in the model; rows with equal keys come in any order.
- Reordering.ReorderingIsRepaired: is about whole receives of one peer's messages with ACKs and callbacks that succeed; needs a node whose counter for the peer is not ahead of the first message, since otherwise nothing is accepted (StaleClocks.CounterAheadBlocks).
- TokenBucket.WindowBound: tokens are real numbers, so rounding of floating-point refills is not modelled.
- ReplicaSelection.SelectReplicaPeers: ids that do not parse, for which the source throws, and negative counts are not modelled.
- RoutingTable.RoutingModule.FindClosestPeers: a negative count is not modelled; peers with equal bytes come in any order.
- RoutingTable.RoutingModule.AddPeer: the source's ping always answers true, so buckets are not bounded by twenty and no such bound is stated.
- DeltaLog.NodeState.ApplyDelta: callers that change the object returned by getState in place, and the metadata of peers, are not modelled.
- Streams.HandleNodeStream: a handler is an outcome per offered frame; responses written to the stream are not modelled.
- Framing.SplitMessages: message decoding is a parameter, a partial function from frames to messages.
- Delivery liveness: one counter is shared by all destinations and ACKs, so a receiver can see gaps that are never filled; nothing is promised about eventual delivery.
- A receive starts after the rate limits and the handover of pending messages; those two are modelled on their own.
- libp2p, dialing, timeouts and the transport: transmission is a step that puts a message on the wire, or an outcome.
- AES-GCM, SHA, HKDF, Ed25519 signatures, key file formats and msgpack.
- SQLite: tables are maps by primary key and statements are updates of them; full-text search, contacts, metadata and key storage are not in the model.
- Replica bookkeeping and the replica-ACK half of the retry pass, whose recorded targets a later assignment overwrites.
- Message history rows, peer score updates, events and metrics, which no modelled decision depends on except the scores in the selection of replicas.
- Non-integer sequence numbers, prototype keys of JavaScript objects and values of the wrong type.
- selectKClosestPeers of the sync protocol: its comparator is inconsistent for ties; its distance is XorMetric.BigDistance.
- selectOptimalPeers, handshake, route announcements, session manager, connection health monitor, HTTP and WebSocket API, CLI and configuration.
