# groupnet: a verified model

groupnet keeps groups of nodes coordinated: an external compare-and-swap anchor elects hosts, write
feeds tell peers what a node wrote, acknowledged messages are retried until their receipt is known,
and a router cuts frames into fragments for links with small MTUs. This project models the stateful
cores of those protocols in Dafny 4.11 and proves what they promise over whole runs.

Code that the source changes in place is a class here, each method proved equal to a specification
function; the theorems are about those functions and about runs made of them.

- **External anchor** (`AnchorRules`, `AnchorClaimant`, `AnchorStore`, `AnchorRuns`, `AnchorSafety`,
  `AnchorTightness`, `AnchorCeiling`, `AnchorRounds`). Any number of claimants over one versioned
  register. Store answers may be lost, writes may land late, nodes may restart and forget. Epochs are
  unique, and leases are disjoint in true time exactly when no two wall clocks are further apart than
  the steal margin. What a round writes, reads and reports is determined, and a lost answer costs
  nothing if it is read back in time.
- **Write feed and barriers** (`FeedWire`, `Feed`, `Peers`, `FeedAccount`, `FeedSafety`, `FeedLoss`,
  `FeedRetirement`, `FirstSight`, `Subscriptions`, `Acks`, `Barriers`, `Ids`). A writer is a map from
  epochs to lives. Subscribers see any lossy, repeated and reordered selection of its frames,
  interleaved with other peers'. No write is lost without a gap, and a reached barrier means that everything owed was applied
  or gapped, exactly for the writers none of whose sealed lives is followed by a life with a write and
  then one more.
- **Acknowledged messaging** (`Receipts`, `Received`, `MessagingRuns`, `MessagingSafety`,
  `MessagingExact`, `MessagingSweeps`, `MessagingCauses`, `Sends`, `PacketCodec`). The application may
  act on a receipt with a clock it read any time before. A frame is handed on at most once in every run exactly when its
  last arrival is within a retention window of its first; if no action uses a clock read older than an
  earlier sweep, exactly when consecutive arrivals are. A send sees one verdict.
- **Fragmentation** (`Fragments`, `Reassembly`, `ReassemblyRuns`). Memory is bounded for arbitrary
  packets, and a genuine frame comes back intact through reordering, repetition and other traffic.
- **Smaller cores**: the per-member deadline index (`Membership`), rendezvous placement
  (`Placement`), the gossip frames (`FieldCodec`, `GossipWire`) and the byte layouts of all formats
  (`WireLayouts`, `Utf8Text`).

## Assumptions of the run models

- Each locked section or await-free segment is one atomic step. Clocks are integer milliseconds.
- Anchor: version tags are fresh (the tag of a version is its position in the history), the object is
  never deleted, a load returns the version standing at one instant, wall clocks are true time plus a
  constant offset and never reach `u64::MAX`, and the round's engine instant is read no later than its
  wall instant. A lease is the true-time interval from that instant to its reported end. A release
  happens after the engine demoted the node (crates/groupnet-runtime/src/anchor.rs:343), so it ends the
  releaser's own leases; that the engine ignores an activation report still queued at that moment is
  assumed, not modelled. Epoch uniqueness assumes that no record reaches `u64::MAX`, where the source's
  increment saturates; `CeilingSharesAnEpoch` shows it fails there, and `EpochsFollowHints` derives the
  assumption from a run's own hints and length.
- Feed: a frame is genuine when some moment of one of the writer's lives advertised it. A write whose
  key the subscriber cannot decode is owed to nobody, as the source skips it.
- Messaging: frames read the clock under the endpoint's lock, one after the other; sweeping the table
  and meeting it are two steps. An action on a receipt lands anywhere among them, with any clock read
  since its record was admitted. Payload digests stand for payloads.
- Reassembly: the timeout is counted from the first fragment on a clock that all packets share; the
  first fragment finds a free slot; whatever else reaches the same assembly is a fragment of the same
  frame.
- Placement: token scores are an arbitrary function, so every result holds for every hash.
- Names are byte strings. The codecs demand that they are well-formed UTF-8, as the source's string
  type does.

## Model

| member | source | states |
|---|---|---|
| `AnchorRules.SupersedeAllocatesIffBelowCeiling` | crates/groupnet-core/src/anchor.rs:180-215 | a claim entitled to supersede bids strictly above the record it replaces exactly when that record is below `u64::MAX`, and never below the hint |
| `AnchorRules.YieldRetriesWhenEntitled` | crates/groupnet-core/src/anchor.rs:92-215 | a yielded claim's retry instant is the first at which the same record could be superseded |
| `AnchorRules.CeilingEpochIsReissued` | crates/groupnet-core/src/anchor.rs:180-215 | a concrete record at the ceiling whose thief is awarded the very epoch it steals |
| `AnchorRules.RenewalMovesExpiryIff` | crates/groupnet-core/src/anchor.rs:219-276 | a paced renewal moves the expiry strictly forward exactly when the old expiry is below the ceiling and the lease is non-empty or already past; the read-back verdict confuses the two records exactly when it does not move |
| `AnchorClaimant.ClaimantTask.DecidePosture` | crates/groupnet-runtime/src/anchor.rs:478-497 | renew, wait or claim from the hold and the published leadership together, dropping a spent hold, as `PostureOf` says; the `AnchorRounds` lemmas say which it is without naming it |
| `AnchorClaimant.ClaimantTask.Round` | crates/groupnet-runtime/src/anchor.rs:434-451 | one prompted round changes hold, retry instant and phase exactly as `BeginRound`, whose requests `RoundStoresIff`, `RoundLoadsIff` and `RoundKeepsHoldIff` determine |
| `AnchorClaimant.ClaimantTask.Loaded` | crates/groupnet-runtime/src/anchor.rs:525-655 | every answer to a load (claim, abdication, read-back) is turned into the next write, activation or observation exactly as `OnLoad` |
| `AnchorClaimant.ClaimantTask.Answered` | crates/groupnet-runtime/src/anchor.rs:565-594 | stored, mismatched and unknown store answers are handled exactly as `OnStore` |
| `AnchorClaimant.ClaimantTask.RecordWin` | crates/groupnet-runtime/src/anchor.rs:597-607 | a win records the hold and reports a lease counted from the round's start |
| `AnchorClaimant.ClaimantTask.Release` | crates/groupnet-runtime/src/anchor.rs:671-682 | the hold is given up and its record stamped as expiring now, on the node's own version only |
| `AnchorStore.MemAnchor.Load` | crates/groupnet-consistency/examples/anchored-ownership.rs:84-91 | returns the standing record with its version, for any sequence of accepted writes |
| `AnchorStore.MemAnchor.Store` | crates/groupnet-consistency/examples/anchored-ownership.rs:93-112 | a write is applied under a fresh version exactly when its precondition matches the standing version, and otherwise changes nothing |
| `AnchorSafety.RunKeepsSound` | crates/groupnet-runtime/src/anchor.rs:434-682 | one invariant over every run of any number of claimants: every version in the register was planned on its predecessor, every hold and lease names a version its node wrote, whatever answers were lost, writes landed late or nodes restarted |
| `AnchorSafety.ChainEpochs` | crates/groupnet-core/src/anchor.rs:180-215 | along the register's history epochs never decrease and an epoch met twice names one host |
| `AnchorSafety.EpochsAreUnique` | crates/groupnet-runtime/src/anchor.rs:565-655 | in every run below the epoch ceiling: register epochs never decrease, each names one host for ever, and no two nodes are activated for the same epoch |
| `AnchorSafety.FenceOutlivesVersion` | crates/groupnet-core/src/anchor.rs:92-96 | a version that lawfully succeeds the standing one keeps every earlier lease fenced: no other node's version is planned before that lease has ended in true time, on any clocks within the margin |
| `AnchorSafety.RunKeepsGuarded` | crates/groupnet-runtime/src/anchor.rs:434-682 | every lease, every undelivered win and every release in flight stays fenced from the successor's lease, through lost answers, late landings, read-backs and restarts |
| `AnchorSafety.LeasesAreDisjoint` | crates/groupnet-runtime/src/anchor.rs:434-682 | with all pairwise wall-clock offsets within `steal_margin_ms`, leases issued to two different nodes never overlap in true time, in any run |
| `AnchorTightness.SkewAboveMarginOverlaps` | crates/groupnet-core/src/anchor.rs:92-96 | a run that makes two leases overlap, for any pair of clocks further apart than the margin |
| `AnchorTightness.DisjointIffSkewBounded` | crates/groupnet-runtime/src/anchor.rs:434-682 | lease disjointness over all runs holds if and only if every pair of clocks is within the margin |
| `AnchorTightness.CeilingSharesAnEpoch` | crates/groupnet-core/src/anchor.rs:205-205 | a run in which two nodes are activated for epoch `u64::MAX`, so the ceiling hypothesis of uniqueness is needed |
| `AnchorCeiling.EpochsFollowHints` | crates/groupnet-core/src/anchor.rs:180-215 | in every run no epoch exceeds the greatest hint by more than the number of actions, so hints that far below `u64::MAX` keep the register below the ceiling |
| `AnchorRounds.RoundStoresIff` | crates/groupnet-runtime/src/anchor.rs:434-525 | a round writes if and only if the engine shows its node as host of the epoch it holds and at most half a lease is left; then exactly that epoch, stamped one lease ahead, over its own version |
| `AnchorRounds.RoundLoadsIff` | crates/groupnet-runtime/src/anchor.rs:434-451 | a round reads the register if and only if it holds nothing, was overtaken, or its record ran out while the engine does not show it as host, and no yielded claim's retry instant is still ahead |
| `AnchorRounds.RoundKeepsHoldIff` | crates/groupnet-runtime/src/anchor.rs:478-497 | the hold, the retry instant and the phase a round leaves, in the same terms |
| `AnchorRounds.ReadBackAdoptsIff` | crates/groupnet-runtime/src/anchor.rs:565-655 | a load makes its node host if and only if it reads back the very record whose fate was unknown, with the lease counted from the round's start and the version that was read; any other read-back leaves nothing held |
| `AnchorRounds.LosersAreTold` | crates/groupnet-runtime/src/anchor.rs:525-655 | a load that leads to no write and no win tells the engine the epoch and host the register names |
| `AnchorRounds.RefusedRenewalYields` | crates/groupnet-runtime/src/anchor.rs:565-655 | a refused renewal gives its hold up, reads the register and reports the successor, over both segments |
| `AnchorRounds.YieldStaysAway` | crates/groupnet-runtime/src/anchor.rs:434-563 | after a yielded claim, rounds read the register again exactly from the instant the standing record could be taken |
| `AnchorRounds.NoRoundSticks` | crates/groupnet-runtime/src/anchor.rs:434-655 | after every segment a claimant rests, or is suspended on exactly the answer it asked for |
| `AnchorRounds.DueHostRenews` | crates/groupnet-runtime/src/anchor.rs:434-607 | in a run, a due node that holds the standing version and is shown as its host extends register, hold and lease by one lease under the same epoch |
| `AnchorRounds.LostAnswerIsReadBack` | crates/groupnet-runtime/src/anchor.rs:565-655 | a store answer lost and read back before anybody else writes leaves exactly the world the answer would have left |
| `AnchorRounds.ReleaseLetsOthersIn` | crates/groupnet-runtime/src/anchor.rs:671-682 | a landed release ends the node's leases at once and lets every other node in exactly from the steal margin past its stamp |
| `FeedWire.RoundTripsIffWellFormed` | crates/groupnet-consistency/src/wire.rs:49-105 | an advertised frame decodes back to itself exactly when it is well formed (lengths fit, positions start at 1, an empty window starts its life, the end fits 64 bits) |
| `FeedWire.AcceptedBytesAreCanonical` | crates/groupnet-consistency/src/wire.rs:66-100 | every accepted byte string is the encoding of the frame it is taken for |
| `FeedWire.ImpossibleWindowsAreRefused` | crates/groupnet-consistency/src/wire.rs:82-100 | windows that start at zero, are empty past the start, or end past the last number are refused |
| `FeedWire.Encode` | crates/groupnet-consistency/src/wire.rs:49-63 | the loop over the keys writes exactly `Encoded` |
| `FeedWire.DecodeKeys` | crates/groupnet-consistency/src/wire.rs:72-80 | the key loop stops at the first truncated key and otherwise returns every key and the remaining bytes |
| `FeedWire.Decode` | crates/groupnet-consistency/src/wire.rs:66-100 | the offset-driven decoder computes exactly `Decoded` |
| `Feed.FrameOfLaterLife` | crates/groupnet-consistency/src/feed.rs:149-157 | a frame advertised at one moment stays a genuine window of the life as it goes on, so stale gossip never lies |
| `Feed.Ring.EncodedLenIsExact` | crates/groupnet-consistency/src/feed.rs:123-127 | the running byte count is the length of the real encoding |
| `Feed.Ring.Push` | crates/groupnet-consistency/src/feed.rs:105-121 | keeps the ring a suffix of everything published with exact byte accounting, within both bounds, evicting no more than the fewest oldest writes |
| `Feed.Ring.Publish` | crates/groupnet-consistency/src/feed.rs:310-337 | returns the next token of the life and appends one write, or changes nothing once sealed |
| `Feed.Ring.Seal` | crates/groupnet-consistency/src/feed.rs:363-381 | ends the life at the token just past its last write and changes nothing else |
| `Feed.Ring.RetireThrough` | crates/groupnet-consistency/src/feed.rs:129-147 | after retirement a position of the window is kept if and only if the token is of another life, lies before it, or it is the newest; the start is `RetiredFirst` |
| `Feed.Ring.Advertise` | crates/groupnet-consistency/src/feed.rs:149-157 | the frame is a genuine window of the counted length, exceeds the byte budget only with at most one key, and decodes back to itself exactly when its counts and its end fit their fields |
| `Peers.PeerWrites.Reconcile` | crates/groupnet-consistency/src/peers.rs:169-252 | cursor, queue and gap count after one frame are exactly `Reconciled` of the old ones |
| `Peers.PeerWrites.Drain` | crates/groupnet-consistency/src/peers.rs:224-239 | the loop queues the visible decodable writes in order and skips the others silently |
| `Peers.PeerWrites.Scan` | crates/groupnet-consistency/src/peers.rs:391-404 | an advertised entry that decodes moves that peer's cursor and the shared queue as `Scanned`, which `FirstScanReplays` determines for a peer met for the first time; an absent or malformed one changes nothing |
| `FeedSafety.ReconcileKeepsTracked` | crates/groupnet-consistency/src/peers.rs:169-252 | one genuine frame, however stale, keeps the subscriber's account of the writer complete, ordered and truthful |
| `FeedSafety.DeliveryEndsAtLatest` | crates/groupnet-consistency/src/peers.rs:157-252 | the final cursor is the latest of the start and every frame's own end, seal included |
| `FeedSafety.OrderAndRepetitionDoNotMatter` | crates/groupnet-consistency/src/peers.rs:169-252 | two subscribers that saw the same set of frames, in any order and any number of times, end at one cursor |
| `FeedLoss.DeliveryStandsAtLatest` | crates/groupnet-consistency/src/peers.rs:157-252 | the cursor after any genuine frames, as a function of the start and the frames' own ends |
| `FeedLoss.EventsFollowFrames` | crates/groupnet-consistency/src/peers.rs:169-252 | which writes a delivery's gaps cover and which its renewals jump over is decided by the start and the frames alone, both ways |
| `FeedLoss.WritesAreSentExactly` | crates/groupnet-consistency/src/peers.rs:169-252 | for every writer history and every lossy, repeated, reordered sequence of its frames: a decodable write between start and end that no gap covers was sent if and only if no frame took the subscriber from a delivered seal straight past its life; events strictly increase, so it was sent once, with its own key |
| `FeedLoss.NoWriteIsLostIff` | crates/groupnet-consistency/src/peers.rs:169-252 | for all starts and all genuine frames every decodable write up to the cursor was sent or lies under a queued gap, if and only if the writer has no sealed life followed by a life with such a write and a further life |
| `FeedLoss.ExposedIsLost` | crates/groupnet-consistency/src/peers.rs:185-193 | for every such history the two frames that lose the write: neither sent nor gapped |
| `FeedLoss.UnseenLifeIsLost` | crates/groupnet-consistency/src/peers.rs:185-193 | a concrete history in which a renewal silently skips a write |
| `FeedRetirement.RetirementCostsNobodyPastIt` | crates/groupnet-consistency/src/feed.rs:129-147 | over any frames of a life, retiring before each through a token the subscriber has already passed changes no event and no cursor, so adds no gap |
| `FeedRetirement.RetirementCommutes` | crates/groupnet-consistency/src/feed.rs:129-147 | acknowledgements that retire a ring late, twice or in another order leave the same frame |
| `FeedRetirement.RetiredIsGenuine` | crates/groupnet-consistency/src/feed.rs:129-157 | a retired ring still advertises a genuine window of its life |
| `Subscriptions.ScanIsSeparate` | crates/groupnet-consistency/src/peers.rs:391-404 | scanning one peer moves that peer as if it were followed alone, and nobody else |
| `Subscriptions.QueueSplitsByPeer` | crates/groupnet-consistency/src/peers.rs:361-404 | after scans of any peers in any order, one peer's share of the merged queue and its cursor are those of a subscriber following it alone |
| `FirstSight.FirstScanReplays` | crates/groupnet-consistency/src/peers.rs:387-404 | a first scan queues exactly the frame's decodable keys in order, the i-th under `first_seq + i`, then its seal, and leaves the cursor past them |
| `FirstSight.AttachReplaysNothing` | crates/groupnet-consistency/src/peers.rs:153-166 | a subscriber attached at a frame gets nothing from that frame |
| `Acks.Frontier.Advance` | crates/groupnet-consistency/src/frontier.rs:41-50 | raises one peer's watermark to the later token and never un-reaches anything |
| `Acks.LedgerReadsBack` | crates/groupnet-consistency/src/acks.rs:378-409 | for every watermark map whose names fit their length prefix, in whatever order it is listed, decoding one writer returns exactly that writer's watermark, or nothing |
| `Acks.ShownLedgerAcknowledgesIff` | crates/groupnet-consistency/src/acks.rs:166-173 | a shown ledger acknowledges exactly the tokens its table has reached, the last one included |
| `Acks.EncodeLedger` | crates/groupnet-consistency/src/acks.rs:378-388 | writes every watermark once, in some order, whatever the names |
| `Acks.DecodeOne` | crates/groupnet-consistency/src/acks.rs:390-409 | the offset loop finds the first mark of the writer, or nothing in truncated bytes |
| `Acks.AckLedger.Record` | crates/groupnet-consistency/src/acks.rs:120-138 | raises the writer's watermark, and reports an already covered token exactly when it is |
| `Acks.AckLedger.RecordAndPublish` | crates/groupnet-consistency/src/acks.rs:120-138 | a ledger is gossiped exactly when the token raises the watermark, and lists the raised table |
| `Acks.CountRoster` | crates/groupnet-consistency/src/acks.rs:252-259 | splits the selected members into those whose shown ledger covers the token and those missing |
| `Acks.AppliedByRoster` | crates/groupnet-consistency/src/acks.rs:324-376 | selects the roster without the writer, sorted and without repetition; every view polled before the last was incomplete, and the last is complete or the deadline's |
| `Barriers.ApplyAll` | crates/groupnet-consistency/src/frontier.rs:41-50 | applying a queue front to back leaves exactly the watermarks of its events |
| `Barriers.ReachedMeansApplied` | crates/groupnet-consistency/src/frontier.rs:53-68 | once a follower's frontier reached a token, every write up to it that the follower was owed has been applied or gapped if the writer's history is unbroken, whatever other peers' events were interleaved; otherwise applied, gapped or jumped over by a renewal |
| `Barriers.ReadBarrierHoldsIff` | crates/groupnet-consistency/src/frontier.rs:53-68 | reaching a token means having applied or gapped everything owed up to it, for all followers, tokens and writes, if and only if the history is unbroken |
| `Barriers.RecordAll` | crates/groupnet-consistency/src/acks.rs:120-138 | every ledger the apply loop gossips lists the watermarks of some prefix of what it applied, and the last one shows every watermark above the origin as it stands at the end |
| `Barriers.CompleteRosterHasApplied` | crates/groupnet-consistency/src/acks.rs:324-376 | when a roster wait completes, every selected member has applied or remediated under a gap every owed write up to the token, however stale the gossiped ledger it was judged by, if the writer's history is unbroken; otherwise a renewal may have jumped over it |
| `FirstSight.NeverAttachedIsOwedAll` | crates/groupnet-consistency/src/peers.rs:387-404 | a follower that never attached is owed exactly the decodable writes from its first frame's `first_seq` on |
| `FirstSight.FirstSeenWritesAreApplied` | crates/groupnet-consistency/src/frontier.rs:53-68 | its read barrier covers all of them, on unbroken histories |
| `Receipts.CompletesIffTerminal` | crates/groupnet-messaging/src/codec.rs:150-167 | an acknowledgement resolves a send exactly when its outcome is terminal for the record |
| `Receipts.DeadlineNeverMovesBack` | crates/groupnet-messaging/src/codec.rs:112-146 | with a clock that does not go back, no operation brings a record's deadline forward |
| `Receipts.DeadlineStaysAhead` | crates/groupnet-messaging/src/codec.rs:112-146 | whatever clock read an operation uses, the deadline stays past every instant that both it and a refresh at that read lie past |
| `Receipts.SweptIsNotDue` | crates/groupnet-messaging/src/codec.rs:134-146 | what retirement and expiry keep lies strictly past the clock, and what they drop was terminal and due |
| `Receipts.TerminalOutcomeStays` | crates/groupnet-messaging/src/codec.rs:112-146 | a terminal outcome survives every operation, and a receipt held by the application is then inert |
| `Receipts.RetentionOutlastsEverySend` | crates/groupnet-messaging/src/config.rs:57-142 | in a valid configuration every admissible send's retry horizon covers its timeout and ends strictly inside the retention window |
| `Receipts.HorizonIsTheTimeout` | crates/groupnet-messaging/src/config.rs:57-142 | a send is refused exactly when too large or out of bounds, and its horizon is its own timeout rounded up to whole milliseconds |
| `Receipts.AbandonedIsInterrupted` | crates/groupnet-messaging/src/codec.rs:134-146 | undecided work is never evicted: past its deadline it becomes an interruption kept for one more window |
| `Received.Record.Act` | crates/groupnet-messaging/src/codec.rs:112-122 | the first terminal outcome is kept, the deadline refreshed, and the recorded outcome acknowledged |
| `Received.Record.Handle` | crates/groupnet-messaging/src/lib.rs:304-328 | a receipt action records first and acknowledges then, and does neither once terminal |
| `Received.Records.Insert` | crates/groupnet-messaging/src/received.rs:63-74 | admits a record with exactly one heap entry, at its deadline |
| `Received.Records.Settle` | crates/groupnet-messaging/src/received.rs:80-98 | looking at one due entry leaves what the sweep would leave unchanged and lowers the number of due entries |
| `Received.Records.Sweep` | crates/groupnet-messaging/src/received.rs:79-100 | for every clock value and every earlier clock read: the heap loop ends, retires and drops exactly the records whose entry is due, queues the others of those again at their deadline, and keeps one entry per record |
| `Received.LazyIsFullIff` | crates/groupnet-messaging/src/received.rs:76-100 | sweeping only due entries leaves the records and states that retiring and expiring the whole table would, if and only if no record's deadline has passed while its entry is still ahead |
| `Received.Records.Track` | crates/groupnet-messaging/src/worker.rs:129-182 | an arrival is admitted, replayed with its recorded outcome, refused for room or ignored as a mismatch exactly as `Tracked` decides on the lazily swept table, from every valid table |
| `Received.Records.HandleAt` | crates/groupnet-messaging/src/lib.rs:304-328 | acting on a receipt whose record is still in the table, with any clock read, changes that row only and keeps the index valid |
| `Received.Records.HandleLate` | crates/groupnet-messaging/src/lib.rs:304-328 | acting on a receipt whose record has left the table leaves the table alone |
| `MessagingRuns.ArrivalIsTracked` | crates/groupnet-messaging/src/worker.rs:129-182 | the run model's arrival step changes the table exactly as the endpoint's tracking does, and logs exactly the hand-off or acknowledgement its decision calls for |
| `MessagingRuns.ActionIsHandled` | crates/groupnet-messaging/src/lib.rs:304-328 | the run model's action step changes its record's own row as `Records.HandleAt` does, and no row once the record left the table |
| `MessagingRuns.MeetLogsTheDecision` | crates/groupnet-messaging/src/worker.rs:129-182 | an admission is handed on under a new record, a replayed outcome acknowledged again, everything else silent |
| `MessagingCauses.RetryIsAnswered` | crates/groupnet-messaging/src/worker.rs:144-164 | while a decided record is kept, every retry of its frame is acknowledged with its verdict and handed on to nobody |
| `MessagingCauses.FirstWordCounts` | crates/groupnet-messaging/src/lib.rs:304-328 | the application's first word on an undecided record in time is recorded and acknowledged; on a decided record nothing happens, and past the deadline an interruption is recorded in silence |
| `MessagingCauses.VerdictsAreCaused` | crates/groupnet-messaging/src/codec.rs:97-146 | over every run, whatever a record holds or an endpoint acknowledges was said by the application about that record, or is an interruption |
| `MessagingCauses.UnwelcomeFramesChangeNothing` | crates/groupnet-messaging/src/worker.rs:144-170 | a known identity under another body and an unknown one without room change nothing and get no answer |
| `MessagingCauses.FramesBeyondLimitsLeaveNoTrace` | crates/groupnet-messaging/src/worker.rs:86-98 | frames beyond the payload or horizon limit leave no trace, and best-effort ones no record |
| `MessagingCauses.RecordsAreBounded` | crates/groupnet-messaging/src/worker.rs:165-170 | over every run at most `received_records` identities are kept |
| `MessagingSafety.RunKeepsSafe` | crates/groupnet-messaging/src/worker.rs:71-182 | one invariant over every run, however stale the clocks actions use: a record is kept for a whole retention window after its admission, evicted records are terminal, and no decided record ever says anything else |
| `MessagingSafety.HandOffsAreARetentionApart` | crates/groupnet-messaging/src/received.rs:63-100 | in every run two hand-offs of one identity lie at least a retention window apart, whatever else arrives, whatever the application does and however stale the clock it does it with |
| `MessagingSafety.RetriesAreHandedOnOnce` | crates/groupnet-messaging/src/worker.rs:127-182 | a frame retried within its horizon, over delays that differ by less than `retention_ms - retry_horizon_ms`, is never handed on twice |
| `MessagingSafety.EachRecordHasOneVerdict` | crates/groupnet-messaging/src/codec.rs:97-161 | from an acknowledgement that decides a send on, the same record never acknowledges anything else and holds that outcome |
| `MessagingExact.ShortGapsHandOnOnce` | crates/groupnet-messaging/src/received.rs:79-100 | in runs whose actions use no clock read older than an earlier sweep, arrivals of one frame that follow each other within the retention window hand it on at most once |
| `MessagingExact.PromptAtMostOnceIffGapsAreShort` | crates/groupnet-messaging/src/worker.rs:127-182 | over those runs a schedule of arrivals is handed on at most once if and only if no two consecutive arrivals are a retention window or more apart |
| `MessagingExact.AtMostOnceIffWithin` | crates/groupnet-messaging/src/lib.rs:304-328 | over all runs, with clock reads as stale as the race before the record's lock allows, a schedule is handed on at most once if and only if its last arrival comes within a retention window of its first |
| `MessagingExact.LateActionLosesTheRecord` | crates/groupnet-messaging/src/lib.rs:313-319 | the race: an action that read the clock at the first arrival brings a refreshed deadline back, and the next arrival is handed on again |
| `MessagingSweeps.SerializedSweepsAreFull` | crates/groupnet-messaging/src/received.rs:76-100 | over every run whose clock reads come in order, each lazy sweep leaves what a full one would |
| `MessagingSweeps.LateActionHidesARecord` | crates/groupnet-messaging/src/lib.rs:313-319 | a run with a late action after which a lazy sweep overlooks a record a full one would drop |
| `Sends.Outstanding.Reserve` | crates/groupnet-messaging/src/lib.rs:555-574 | takes a slot exactly while fewer than the limit are taken |
| `Sends.Outstanding.Acknowledge` | crates/groupnet-messaging/src/worker.rs:50-69 | resolves a send exactly on a decisive acknowledgement from its own destination, to success unless it rejects and then with its reason, and frees the slot so none is resolved twice |
| `Sends.SendSeesOneVerdict` | crates/groupnet-messaging/src/worker.rs:50-182 | over every run that meets either exact condition above, all acknowledgements that could settle a send, be it one or many, settle it the same way, and an `Applied` send succeeds only if the receiver recorded `Applied` |
| `Sends.SuccessWasSaid` | crates/groupnet-messaging/src/worker.rs:50-182 | over every run, an acknowledgement that lets an `Applied` send succeed goes back to the application's own `applied` on that record |
| `PacketCodec.RoundTripsIffRepresentable` | crates/groupnet-messaging/src/codec.rs:424-532 | a packet has an encoding exactly when payload, horizon and group are representable, and then comes back from it |
| `PacketCodec.AcceptedBytesAreCanonical` | crates/groupnet-messaging/src/codec.rs:279-349 | every accepted byte string is the encoding of the packet it is taken for |
| `PacketCodec.BadAcknowledgementsAreNamed` | crates/groupnet-messaging/src/codec.rs:325-347 | the error each malformed acknowledgement is refused with |
| `PacketCodec.BadDataIsNamed` | crates/groupnet-messaging/src/codec.rs:287-316 | the error each malformed data packet is refused with, in the order of the checks |
| `PacketCodec.BadGroupIsNamed` | crates/groupnet-messaging/src/codec.rs:302-314 | the error each malformed group name is refused with |
| `Fragments.HeaderReadsBack` | crates/groupnet-network/src/wire.rs:69-79 | a fragment header and body are read back from their bytes |
| `Fragments.HeaderWritesBack` | crates/groupnet-network/src/wire.rs:69-79 | any 28 bytes are the encoding of the header read from them |
| `Fragments.AllChunksJoin` | crates/groupnet-network/src/wire.rs:512-532 | the chunks of a frame put together again are the frame |
| `Fragments.FragmentIterator.Next` | crates/groupnet-network/src/wire.rs:512-532 | yields the fragments in order, each once, then nothing |
| `Fragments.AdmissionIsExact` | crates/groupnet-network/src/router.rs:409-427 | an MTU in range is admitted if and only if every legal frame can be cut for it within the receiver's limits |
| `Fragments.FragmentsFitTheMtu` | crates/groupnet-network/src/wire.rs:491-532 | over an admitted link every sealed fragment of every legal frame is representable and fits the MTU |
| `Reassembly.Assembler.Join` | crates/groupnet-network/src/wire.rs:457-461 | the loop concatenates the parts in index order |
| `Reassembly.Assembler.Absorb` | crates/groupnet-network/src/wire.rs:426-462 | creating, filling, abandoning and finishing an assembly is exactly `Absorbed` |
| `Reassembly.Assembler.Receive` | crates/groupnet-network/src/wire.rs:399-462 | a received packet changes the pending map and returns a frame exactly as `Received` |
| `Reassembly.ReceivedKeepsSound` | crates/groupnet-network/src/wire.rs:399-462 | whatever bytes arrive: every assembly's `retained` is the sum of its parts and at most its total, `missing` its empty slots and at least one, at most `max_pending` exist, and a completed frame has exactly its declared length |
| `Reassembly.WholeFramesPass` | crates/groupnet-network/src/wire.rs:406-410 | an unfragmented frame is returned as it is within the limit and dropped beyond it, and only timed-out assemblies go |
| `Reassembly.JunkIsIgnored` | crates/groupnet-network/src/wire.rs:411-425 | bytes under neither magic, or with a header out of bounds, return nothing and touch no assembly |
| `Reassembly.ReceivedTouchesOne` | crates/groupnet-network/src/wire.rs:399-462 | no assembly outlives its timeout, and a packet touches no assembly of another link, session, sender or frame |
| `Reassembly.ContradictionAbandons` | crates/groupnet-network/src/wire.rs:437-449 | a fragment that contradicts or would overfill its assembly ends it without a frame |
| `Reassembly.MemoryIsBounded` | crates/groupnet-network/src/wire.rs:399-462 | all assemblies together hold at most `max_pending * max_frame` bytes |
| `ReassemblyRuns.RunKeepsSound` | crates/groupnet-network/src/wire.rs:399-462 | the account and the memory bound hold after every sequence of arbitrary packets |
| `ReassemblyRuns.AdmittedFramesMatch` | crates/groupnet-network/src/router.rs:409-427 | a link admitted under the router's bounds cuts every legal frame so that a receiver under the same bounds takes it |
| `ReassemblyRuns.FragmentsArePlausible` | crates/groupnet-network/src/wire.rs:406-425 | every fragment the sender produces passes the receiver's checks and reaches its own assembly |
| `ReassemblyRuns.FrameComesBack` | crates/groupnet-network/src/wire.rs:399-532 | all fragments of a frame, in any order, with any repetitions and any other traffic in between, return nothing until the last one missing and then exactly the original bytes; frames that travelled whole come through in between |
| `ReassemblyRuns.WholeFrameComesThrough` | crates/groupnet-network/src/wire.rs:399-410 | anywhere in any packet sequence an unfragmented frame is returned as it is and disturbs no assembly |
| `ReassemblyRuns.NothingOutlivesItsTimeout` | crates/groupnet-network/src/wire.rs:406-407 | after any packet sequence no assembly is past its timeout at the last packet |
| `Membership.Member.PutEntry` | crates/groupnet-core/src/membership.rs:331-345 | stores the entry and keeps the deadline index the exact inverse of the entries |
| `Membership.Member.UnlistDue` | crates/groupnet-core/src/membership.rs:375-382 | takes one key out of one slot, and the slot out when it was the last |
| `Membership.Member.TakeDueEntries` | crates/groupnet-core/src/membership.rs:349-365 | removes exactly the live entries expired and the tombstones due for reaping by the instant, returns them in strictly increasing key order with their values, and keeps the index the inverse of the rest |
| `Membership.Member.NextEntryDue` | crates/groupnet-core/src/membership.rs:369-371 | the true minimum over all entries' deadlines |
| `Membership.IndexAgreesWithScanIff` | crates/groupnet-core/src/membership.rs:132-138 | the index removes what a full scan would if and only if the clock is before `Time::MAX` or no entry is never due |
| `Placement.NodeScore` | crates/groupnet-core/src/placement.rs:73-79 | an upper bound of the node's token scores that one of its tokens attains |
| `Placement.Owners` | crates/groupnet-core/src/placement.rs:88-101 | the first `replicas` of a ranking that holds exactly the eligible members, best first |
| `Placement.Owner` | crates/groupnet-core/src/placement.rs:107-121 | the member that beats every other, or none among no members |
| `Placement.RankingGoesByScoreThenName` | crates/groupnet-core/src/placement.rs:88-101 | a better score ranks first, and of two equal ones the lesser name |
| `Placement.OrderIsUnique` | crates/groupnet-core/src/placement.rs:88-101 | the same members have only one ranking |
| `Placement.LeavingOnlyDeletes` | crates/groupnet-core/src/placement.rs:88-101 | the ranking without a node is the ranking with it, that node deleted; read backwards, joining only inserts |
| `Placement.LeavingMovesOnlyItsOwnKeys` | crates/groupnet-core/src/placement.rs:88-101 | when a node leaves, every other owner of a key still owns it |
| `Placement.RaisingNeverLoses` | crates/groupnet-core/src/placement.rs:73-101 | raising a node's weight never moves it down the ranking |
| `Placement.OwnerHeadsTheRanking` | crates/groupnet-core/src/placement.rs:103-121 | at unit weights the single owner is the first of the ranked owners |
| `FieldCodec.EncodeList` | crates/groupnet-core/src/wire.rs:348-383 | the loop over a vector writes its count and every item in order |
| `FieldCodec.DecodeList` | crates/groupnet-core/src/wire.rs:479-544 | the counted loop returns every item and the rest, or nothing at the first malformed one |
| `GossipWire.Encode` | crates/groupnet-core/src/wire.rs:334-399 | appends exactly `Encoded` for each of the eleven kinds |
| `GossipWire.Decode` | crates/groupnet-core/src/wire.rs:454-552 | the cursor-driven decoder computes exactly `Decoded` |
| `GossipWire.LeadReadsBack` | crates/groupnet-core/src/wire.rs:403-433 | an election body comes back under the kind that names it |
| `GossipWire.RoundTripsIffWellFormed` | crates/groupnet-core/src/wire.rs:334-614 | for all eleven kinds a frame comes back from in front of any bytes if and only if it is well formed |
| `GossipWire.AcceptedBytesBeginWithTheFrame` | crates/groupnet-core/src/wire.rs:454-602 | whatever is accepted begins with the very encoding of the frame it is taken for |
| `GossipWire.PeekAgreesWithDecode` | crates/groupnet-core/src/wire.rs:607-614 | a peek returns the decoded frame's group for every decodable byte string |
| `GossipWire.DeltaLength` | crates/groupnet-core/src/wire.rs:622-657 | a delta frame's encoded length is the fixed overhead plus every member header and entry length |
| `WireLayouts.FeedFrameLayout` | crates/groupnet-consistency/src/wire.rs:49-63 | epoch, first sequence number, count and seal flag at their fixed places |
| `WireLayouts.FeedKeyLayout` | crates/groupnet-consistency/src/wire.rs:49-63 | each key behind its length, the first right after the count |
| `WireLayouts.MarkLayout` | crates/groupnet-consistency/src/acks.rs:378-388 | writer behind its length, then epoch, then sequence number |
| `WireLayouts.FragmentHeaderLayout` | crates/groupnet-network/src/wire.rs:69-79 | magic, identity, index, count and total, high byte first |
| `WireLayouts.DataLayout` | crates/groupnet-messaging/src/codec.rs:424-487 | every field of a data packet at its place, with the byte of each delivery |
| `WireLayouts.AcknowledgementLayout` | crates/groupnet-messaging/src/codec.rs:503-532 | the byte of each outcome and of each rejection behind the identity |
| `WireLayouts.GossipFrameLayout` | crates/groupnet-core/src/wire.rs:282-399 | version, the byte of each kind, group and target before the contents |
| `WireLayouts.DigestLayout` | crates/groupnet-core/src/wire.rs:349-357 | a digest row's fields in order |
| `WireLayouts.MetaLayout` | crates/groupnet-core/src/wire.rs:440-448 | a metadata row's fields in order |
| `WireLayouts.EntryLayout` | crates/groupnet-core/src/wire.rs:374-380 | an entry row's fields in order |
| `WireLayouts.MemberLayout` | crates/groupnet-core/src/wire.rs:366-381 | a member row's fields in order, then its entries |
| `WireLayouts.LeadLayout` | crates/groupnet-core/src/wire.rs:403-433 | an election body's epoch first, then its names in order |
| `WireLayouts.LowByteFirst` | crates/groupnet-core/src/wire.rs:661-667 | words are little-endian |
| `Utf8Text.TextIsScalars` | crates/groupnet-core/src/wire.rs:454-552 | the text the codecs accept is exactly the encodings of character sequences |

## Left out

- The group engine: election by quorum, liveness, membership merge, hosted commit, handoff and replication.
- Tokio tasks, channels, cancellation and poisoned locks; the retry timer's own schedule is an arbitrary set of attempts within the horizon.
- Cluster-secret sealing, tunnels, replay windows and advert freshness of the router.
- RPC, capability and floor entries, configuration error texts and formatting.
- Feed.Ring: the source's saturating byte sums and 64-bit sequence overflow are not modelled; counts are unbounded, and `Advertise` takes the window's start to be a machine word.
- Peers.PeerWrites: the lag report and the initial attach to every present peer are not modelled as methods; runs start from arbitrary cursors.
- AnchorClaimant.ClaimantTask: the select loop over prompts and leadership edges is an arbitrary interleaving of rounds, releases and restarts.
- Membership.Member: the cached content hash and the version high-water mark are not modelled.
- Placement.Owners: the hash functions themselves and their spread.
- PacketCodec.RoundTripsIffRepresentable: the source's check that the total length fits the platform's word is not modelled.
