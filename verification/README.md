# ZhiGuang: counting, feeds, follow graph and concurrency protocols

A verification project beside the ZhiGuang backend. It models the parts of the repository whose
correctness depends on many steps working together, and proves what those steps guarantee
together. Redis, Kafka and MySQL are maps, logs and tables; every Lua script is one atomic step.
`dafny verify dfyconfig.toml` checks everything.

**Counting pipeline** (`bitmap`, `like_store`, `counter_keys`, `batching`, `apply_script`,
`counter_flush`, `counter_bridge`, `counting*`, `repair_queue`). A sharded bitmap is the truth. Toggles emit +1 and
-1 events, a consumer gathers them into batches per partition, and a script applies a batch behind
an offset watermark. `counting.dfy` is the whole system as a state machine; `counting_refinement.dfy` proves
that in order-preserving runs the counter is a set cardinality, `counting_drift.dfy` accounts for
every way a counter can leave the truth and shows that a repair undoes all of them,
`counting_watermark.dfy` says exactly which runs count every record once, and
`counting_progress.dfy` that what users asked for is what is counted in the end. `counter_bridge.dfy`
shows that the fetch loop, the batches and the script are steps of that machine.

**Ordered pages** (`ordered`, `recency`, `decimal`, `sorted_set`, `liker_scan`, `likers`,
`timeline_merge`, `timeline`, `relation_list`, `client_walks`). Three paginated lists with composite
text cursors, tie slack, merging and cache-plus-database tails. Each is compared with a simple specification, a
sorted list cut at a cursor, and a client that sends back the cursor texts is shown to get
everything once.

**Fan-out** (`trimmed_box`, `fanout`, `fanout_runs`, `follower_pages`). Trimmed boxes hold the greatest entries ever
added, over whole runs of posts, follows and unfollows, so redelivery is harmless; a push is bounded against
any list service; and delivery to all followers has an exact condition.

**Follow graph** (`follow_graph`, `follow_counts`). Transactions with failing statements, the
outbox they leave, and an at-least-once consumer, up to the counts read by others.

**Concurrency protocols** (`version_cache`, `redis_lock`, `read_through`, `draft`,
`sliding_window`, `token_bucket`). Interleaved readers, writers and requests as state machines over
single steps, with the loss of leases, entries, writes and processes as steps of their own.

Methods of classes and methods with loops follow the imperative code and are proved against
specification functions; the main results are lemmas about those functions. Where a claim one would
like to make is false of the code, the code is kept and there is a lemma with a concrete input, and,
where it exists, the exact condition:

- An error reply of the apply script keeps the increments made before the offending event
  (`ApplyExactly`); the batches the consumer builds contain none (`ApplyConsecutive`).
- A skip ahead of an unflushed batch loses that batch (`SkipBeforeFlushLosesTheBatch`), and this is the
  only way the fetch loop loses a message (`CountedIffNoSkipPassesPending`). More generally records are
  missed exactly in runs with holes (`CompleteIffNoHoles`); two flush workers that reorder the batches
  of a partition, or a skip that overtakes a batch queued for them, are such runs.
- A popped dirty member is lost on lock contention (`LostExactlyWhen`). The comment at
  internal/counter/consumer.go:509 describes the opposite; the model follows the code.
- A celebrity verdict that comes from the count alone reaches nobody (`CountVerdictReachesNobody`;
  exactly when a post can be read is `ReadableExactlyWhen`).
- A newer post does change later pages when the trim that comes with it cuts off an entry they hang on
  (`PublishingKeepsLaterPagesIff`, `PushingKeepsLaterPagesIff`).
- The demotion line is 80% rounded down: `DemotedExactlyWhen` gives it as 5 * (count + 1) <= 4 * threshold.
- A crash, or an id that cannot be stored, blocks an idempotency key until it expires (`OrphanBlocks`); the
  comment at internal/knowpost/write_service.go:102 expects a second draft before that.
- The second cancel of a pair shares the dedupe key of the first (`SecondCancelIsDropped`).
- The first INCR of a version equals the default: invalidation works in every run exactly when the
  counter exists (`FreshIffCounterExists`).
- A slow or unanswered `Get` can bring an old version back after `Drop`, although the comment at
  internal/cache/version.go:32 promises read-your-writes on the instance (`OwnWriteIsSeenIff`).
- Ties and widths: `ExactIffWithinReach` and `WalksExactIffTieOrder` say exactly when pages are right.
  Shared rate-limit members: `AdmittedIffFewMembers`. A lost lease, an expired idempotency key and a
  refill slower than the key's expiry have their own results.

That changes of one user's bit of one counter enter the log in toggle order is a hypothesis
(`InOrder`), since the Kafka writer balances by least bytes; nothing is asked of the order of others.

## Model

| member | source | states |
|---|---|---|
| ApplyScript.CounterRedis.ApplyPartitionBatch | internal/counter/consumer_watermark.go:30-74 | The script loop over flattened keys and arguments leaves the database and the reply of the event-by-event specification `Apply`, including both error replies and the writes made before them |
| ApplyScript.CounterRedis.AdvanceAppliedOffset | internal/counter/consumer_watermark.go:84-95 | The skip script only ever raises the watermark and touches nothing else |
| ApplyScript.ApplyConsecutive | internal/counter/consumer_watermark.go:35-73 | A batch of consecutive offsets never meets an error reply; it counts exactly its events behind the watermark, leaves other partitions and all markers alone, and moves the watermark to the larger of the old one and its last offset |
| ApplyScript.WatermarkNeverFalls | internal/counter/consumer_watermark.go:69-73 | For any events whatever, no execution lowers the watermark, and a successful reply is the new watermark |
| ApplyScript.ApplyExactly | internal/counter/consumer_watermark.go:35-73 | For any events whatever: without an offending one (behind the watermark but not behind an earlier such event, or without a key) the execution counts the events behind the watermark and moves it to the last of them; otherwise the first offending event decides the error reply, what was counted before it stays, and the watermark does not move |
| Counting.ApplyBatchEffect | internal/counter/consumer_watermark.go:35-73 | Executing any stretch of the log, fresh or stale, changes each counter by the clamped fold of its part behind the watermark, and not at all under a rebuild marker |
| CountingRefinement.CounterIsUsersAtWatermark | internal/counter/consumer_watermark.go:35-73 | From the empty system, over every run of toggles, publishing that keeps the order of changes of one bit (in any order otherwise), retried and overlapping batches and skips that jump over no usable record: the counter is the number of users whose bit was set after exactly the events up to the watermark, and the number of set bits is the counter plus what is in flight |
| CountingRefinement.ClampNeverFires | internal/counter/consumer_watermark.go:57-61 | In such a run the reset of negative counters to zero never changes anything |
| CountingRefinement.DeltasCountUsers | internal/counter/bitmap_toggle.go:52-71 | Events are emitted only on real changes, so over any history their deltas add up to the number of users whose bit is set |
| CountingRefinement.InvStep | internal/counter/bitmap_toggle.go:37-74 | Every such step keeps the refinement invariant |
| CountingRefinement.PublishStep | internal/counter/bitmap_toggle.go:52-71 | Publishing a change past earlier changes of other entities, metrics or users keeps it too |
| CountingProgress.LastToggleDecides | internal/counter/bitmap_lua.go:27-59 | In every run, in order or not, a bit stands as its last toggle asked |
| CountingProgress.CanAlwaysDrain | internal/counter/consumer.go:277-317 | From every state that in-order runs reach, publishing, batches and skips alone lead to a state with nothing left to publish or to apply |
| CountingProgress.QuietCountsAreRight | internal/counter/bitmap_toggle.go:37-74 | In such a state a counter is the number of users whose last toggle was an add |
| CountingProgress.MarkHoldsBack | internal/counter/consumer_watermark.go:52-56 | From the marking of an entity on, until the marker is lifted or a repair writes, no step of any run moves its counters |
| CountingProgress.UnmarkedIsCounted | internal/counter/consumer.go:558-566 | Once the marker is lifted, the next batch counts for the entity exactly what is new in it |
| CountingDrift.DriftAccount | internal/counter/failure.go:15-30 | Every step of the unrestricted system changes the drift of a counter (counter plus in-flight deltas minus set bits) by exactly its account: a lost publish, a batch under a rebuild marker, a skipped offset, a clamp, or a repair; no other step changes it |
| CountingDrift.DriftOfRun | internal/counter/consumer.go:534-583 | Over any run the drift is the sum of the accounts of its steps |
| CountingDrift.RepairRestores | internal/counter/consumer.go:534-583 | A repair, from any earlier drift and with any steps between its snapshot and its write that leave the entity alone, makes the counter the number of set bits; the drift is then what is in flight, and zero exactly when nothing is |
| CountingWatermark.CountedAtMostOnce | internal/counter/consumer_watermark.go:35-73 | For any sequence of batch executions and skips, in any order and with any repetition, the watermark never falls, the offsets counted strictly rise, and each counter is the fold of the records at those offsets |
| CountingWatermark.CompleteIffNoHoles | internal/counter/consumer_watermark.go:45-50 | Every usable record below the watermark has been counted if and only if no step jumped over one: the script refuses stale offsets but not holes |
| CountingWatermark.HolelessRunIsOneFold | internal/counter/consumer_watermark.go:35-73 | Any overlapping cover of the log without holes leaves the same counters as one left-to-right fold |
| CountingWatermark.SkipBeforeFlushLosesTheBatch | internal/counter/consumer.go:360-374 | When a malformed message moves the watermark before the older pending batch is flushed, that flush counts nothing; in the other order it counts all that is new in it |
| RepairQueue.Repairer.RepairDirtyMembers | internal/counter/consumer.go:499-532 | What is left in the queue after one round: the members not popped, and of the popped ones those that failed for another reason than the lock and could be put back |
| RepairQueue.LostExactlyWhen | internal/counter/consumer.go:504-516 | A popped member that was not rebuilt leaves the queue for good if and only if another repairer held its lock or putting it back failed |
| Batching.CounterBatch.AddEvent | internal/counter/consumer.go:675-711 | A batch takes a message if and only if its fields are usable and it continues the batch (same partition, next offset); a refusal changes nothing |
| Batching.AggregationConsumer.HandleMessage | internal/counter/consumer.go:360-409 | One message loses and reorders nothing: the batch handed on followed by the pending one is the old pending one plus the message if usable, and other partitions keep theirs; and exactly when the message is skipped, so that the watermark moves past it before that batch is flushed |
| Batching.AggregationConsumer.TakeExpiredBatch | internal/counter/consumer.go:341-358 | Hands on one batch that waited a whole flush interval; it returns none only if no pending batch is due, and drops only empty ones |
| Batching.AggregationConsumer.ConsumeLoop | internal/counter/consumer.go:170-218 | Over every sequence of messages and timer wake-ups, a trace of turns in order of effect, each with the skip it makes and the batch it hands on. Nothing is lost: the batches of a partition followed by its pending one are exactly its usable messages in order. Nothing is late: a wake-up hands on a due batch exactly when the first message of some pending batch was taken in a flush interval ago or earlier, and a message hands on the batch it continues exactly when it fills it |
| Batching.AggregationConsumer.ConsumeTick | internal/counter/consumer.go:177-181 | A timer wake-up hands on a batch if and only if some pending batch has waited for the flush interval, and then one of those; it loses and reopens none |
| Batching.TicksDrain | internal/counter/consumer.go:177-181 | In any such trace, wake-ups between two times, as many as partitions are due at the later one, leave no batch pending that was due at the earlier one |
| Batching.AggregationConsumer.NextBatchDeadline | internal/counter/consumer.go:421-438 | The time the loop sleeps until: a wake-up finds a due batch if and only if it comes at that time or later |
| Batching.HeldIsGapless | internal/counter/consumer.go:360-409 | Pending and handed-on batches of every trace hold usable messages of one partition at consecutive offsets |
| Batching.CntKeys | internal/counter/consumer.go:728-743 | The keys of a batch in member order, and an index for exactly the members that parse back |
| Batching.LayOut | internal/counter/consumer.go:277-317 | The flattened keys and arguments: watermark key, counter keys, their rebuild markers in the same order, and four arguments per event |
| Batching.LayoutRightIff | internal/counter/consumer.go:277-317 | The script reads every event with its own entity's counter and marker if and only if no entity type begins with a colon |
| CounterKeys.ParsedMemberJoins | internal/counter/model.go:118-136 | A member that parses is the join of its parts, and counter key and rebuild marker of the parts are those of the member |
| CounterKeys.MemberParsesIff | internal/counter/model.go:118-132 | The member of a non-empty type and id parses back if and only if the type does not begin with a colon |
| CounterFlush.ApplyBatch | internal/counter/consumer.go:277-317 | Laying out and executing a batch: if no entity type begins with a colon, there is no error reply, each event behind the watermark is counted for its own entity under its own marker, and the watermark becomes the larger of the old one and the last offset. For every entity, the fields like, fav, follower, following and posts move by the clamped deltas of its events with index 0, 1, 2, 3 and 4 |
| CounterFlush.ExecutionCounts | internal/counter/consumer_watermark.go:35-95 | Executing any trace of skips and batches counts exactly the messages that were behind the watermark when their batch came, each for its own entity |
| CounterFlush.CountedIffNoSkipPassesPending | internal/counter/consumer.go:360-409 | From fetching to counting, for any fetches in log order and any stretches fetched again: nothing is counted twice, and everything handed on behind the first watermark is counted if and only if no skip moved the watermark over a pending message behind it |
| CounterFlush.EveryUsableMessageIsCountedIff | internal/counter/consumer.go:360-409 | Fetching each message once: everything handed on is counted if and only if no message was skipped while its partition had a pending batch |
| CounterBridge.ToggleIsCountedAsItself | internal/counter/bitmap_toggle.go:52-68 | What a toggle publishes is usable, and the consumer counts it as the change of that very metric if and only if it is one of the five; an unknown name is sent with index 0 |
| CounterBridge.SameBatch | internal/counter/consumer.go:277-317 | A batch of the consumer is, event by event, the batch that the counting machine applies |
| CounterBridge.TurnIsSteps | internal/counter/consumer.go:170-218 | In any state of the counting machine, executing a turn of the fetch loop is enabled steps of the machine and leaves its database |
| CounterBridge.TurnIsInOrder | internal/counter/consumer.go:360-409 | If the loop reads the log in order, any stretches again, and this turn skips nothing over a pending batch, those steps jump over no usable record |
| CounterBridge.LoopCountsUsers | internal/counter/consumer.go:170-218 | So through the real loop, batches and script, interleaved with toggles and publishing that keeps the order of changes of one bit: after every turn each counter is the number of users as of the watermark, and the set bits are the counter plus what is in flight |
| Bitmap.GetAfterSet | internal/counter/bitmap_lua.go:34-46 | SETBIT changes the one bit at its offset and no other, growing the string with zero bytes |
| Bitmap.BitOfUser | internal/counter/model.go:78-91 | Where the bit of a user lies: 65536 users to a shard, eight to a byte, the first of them at its high end |
| Bitmap.BitCountCounts | internal/counter/sds_rebuild.go:93-127 | BITCOUNT of a string is the number of offsets whose bit is set |
| Bitmap.BitCountShards | internal/counter/sds_rebuild.go:93-127 | The SCAN loop over all shards of an entity totals the number of users whose bit is set |
| LikeStore.Store.Toggle | internal/counter/bitmap_lua.go:27-59 | One toggle changes exactly one user's bit, reports a change only if there was one, and changes the time index together with the bit |
| LikeStore.OneBitChanged | internal/counter/model.go:83-91 | Chunk and bit of a user are its own: writing them changes nobody else's membership |
| LikeStore.Store.RebuildTimeIndex | internal/counter/likers.go:519-555 | The rebuild adds every listed liker that the index lacks and reports how many |
| LikeStore.RebuiltIndexIsTheBitmap | internal/counter/likers.go:506-555 | After a rebuild the index lists exactly the users of the scanned chunks whose bit is set, no entry it had is lost or rescored, and rebuilding again changes nothing |
| LikerScan.AppendLikersFromChunk | internal/counter/likers.go:446-479 | Decoding one chunk appends its set users behind the cursor in ascending order until enough are found |
| LikerScan.ScanLikerChunks | internal/counter/likers.go:317-361 | The chunked scan returns the first limit+1 users behind the cursor, in ascending order, whose bit is set |
| LikerScan.ListedMembers | internal/counter/likers.go:317-361 | The listing the scan is compared with holds exactly the users of a range whose bit is set, ascending |
| LikerScan.WalkListsEveryLiker | internal/counter/likers.go:289-361 | Chaining the returned cursors lists every such user exactly once, for every bitmap and page size |
| Likers.FilterLikerPage | internal/counter/likers.go:248-277 | Tied members up to the cursor are skipped and what does not parse is dropped, up to limit+1 items |
| Likers.PackLikerPage | internal/counter/likers.go:482-506 | The first limit+1 decodable members |
| Likers.ReadLikersByTime | internal/counter/likers.go:176-246 | Rank continuation if the cursor member is still there, otherwise the score range |
| Likers.GetLikers | internal/counter/likers.go:117-174 | The whole call: cursor text, clamped limit, time index, or bitmap scan, with hasMore and the next cursor |
| Likers.TimeCursorRoundTrip | internal/counter/likers.go:75-108 | A time cursor is read back as the position it was made from |
| Likers.UIDCursorRoundTrip | internal/counter/likers.go:75-108 | A uid cursor is read back as the user it was made from |
| Likers.FirstPageIsExact | internal/counter/likers.go:176-187 | The first page is the head of the index |
| Likers.PagesAreAsLongAsAsked | internal/counter/likers.go:154-162 | No page is longer than the limit asked for (20 when none is, 50 at most), one that announces more is exactly that long, and the first page of an index holds that many members or all there are |
| Likers.RankPageIsExact | internal/counter/likers.go:188-204 | A continuation by rank is exactly what follows the cursor, for any number of ties |
| Likers.ScorePage | internal/counter/likers.go:206-246 | A continuation by score is a prefix of what follows the cursor, and how long a prefix depends on the number of tied members skipped |
| Likers.ScorePageExactIff | internal/counter/likers.go:206-246 | The score path gives the full page if and only if at most 16 tied members are skipped, or the rest is short enough |
| Likers.WalkListsEveryMember | internal/counter/likers.go:117-246 | On a fixed index, first page and continuations list every member exactly once |
| Timeline.CursorRoundTrip | internal/fanout/timeline_reader.go:69-91 | A timeline cursor is read back as the position it was made from |
| Timeline.MergeTimelines | internal/fanout/timeline_reader.go:302-330 | Merging keeps the first entry of each post and sorts by score, then id, descending |
| TimelineMerge.MergedKeepsFirst | internal/fanout/timeline_reader.go:302-330 | Whatever scores the copies of a post carry, the merge keeps exactly the entry read first for each id, newest first |
| Timeline.HomeTimeline | internal/fanout/timeline_reader.go:119-170 | One call answers the merged reads cut at the cursor; an unreadable cursor is an error, a failed pull serves the inbox alone |
| Timeline.HomeTimelineIsExact | internal/fanout/timeline_reader.go:119-170 | With at most 16 ties at the cursor per source, one score per post and equal id widths among ties, the page is exactly the first entries (20 when no limit is given) of the sorted, deduplicated union behind the cursor, with an exact hasMore and next cursor |
| Timeline.PublishingKeepsLaterPagesIff | internal/fanout/fanout_service.go:147-159 | A post newer than a cursor, published into a celebrity box that is trimmed in the same step, leaves a page behind the cursor as it is if and only if the box had room, or the entry cut off is read from another source, or does not lie behind the cursor, or is neither on the page nor the only one behind it |
| Timeline.PushingKeepsLaterPagesIff | internal/fanout/fanout_service.go:225-237 | The same for a push into the reader's own inbox |
| Timeline.UnequalWidthsHideTheNewest | internal/fanout/timeline_reader.go:119-170 | When more ids tie than a read takes and the highest stands by its bytes behind those read, the first page lacks the newest entry: the width hypothesis is needed |
| TimelineMerge.FewTiesMakeItExact | internal/fanout/timeline_reader.go:105-170 | The merge of bounded reads delivers the true first entries when each source has few ties at the cursor |
| TimelineMerge.ExactIffWithinReach | internal/fanout/timeline_reader.go:105-170 | A page of any sources is exact if and only if each entry it should show, and the one behind them, is held by some source with fewer than limit + 17 entries above it at or below the score of the cursor |
| TimelineMerge.OneSourceExactIff | internal/fanout/timeline_reader.go:105-170 | For one source: exact if and only if at most 16 entries tie before the cursor, or ties and remainder fit into one read, or nothing remains |
| TimelineMerge.TiesBeyondTheSlackLoseThePage | internal/fanout/timeline_reader.go:104-105 | With as many ties before the cursor as a read fetches, a page is empty whatever follows: the tie hypothesis is needed |
| TimelineMerge.WalkListsEverythingOnce | internal/fanout/timeline_reader.go:119-170 | Chained cursors list every post of the union exactly once |
| Decimal.EqualWidthOrder | internal/fanout/timeline_reader.go:302-330 | Redis orders ties by member bytes, the reader by number: the two agree on ids of equal width |
| RelationList.CursorRoundTrip | internal/relation/list.go:116-140 | A list cursor is read back as the position it was made from |
| RelationList.ReadCursorPageFromZSet | internal/relation/list.go:217-266 | The cached part of a page: tied members up to the cursor skipped by member bytes, at most limit items |
| RelationList.MergeDBTail | internal/relation/list.go:192-215 | The database tail, without what is already listed |
| RelationList.GetListWithCursor | internal/relation/list.go:146-188 | The whole call with a warmed cache, including the cursor error, the empty first page and a failed database read |
| RelationList.ListIsExact | internal/relation/list.go:146-266 | If the cache holds any prefix of the database order, wherever it ends and for any number of ties, a page is exactly the next rows of the full list; without the database it is a prefix of them |
| RelationList.FailedReadServesTheCache | internal/relation/list.go:190-201 | When the database read fails, a page is exactly the next cached rows behind the cursor: as many as asked for or all there are, and fewer only after a composite cursor with more than 8 tied rows up to it |
| RelationList.NothingCached | internal/relation/list.go:160-188 | If the cache has expired between its warming and the read, the first page is empty whatever the table holds, and every other page is exact |
| RelationList.FirstPagesExactIffPrefix | internal/relation/list.go:146-188 | All first pages are exact if and only if the cache holds a prefix of the database list |
| RelationList.WalkListsEveryRow | internal/relation/repository.go:152-177 | Chained cursors list every row of the database exactly once |
| RelationList.WalksExactIffTieOrder | internal/relation/list.go:217-266 | With a cache that holds a prefix of the database list, walks with pages of every size list every row once if and only if cached members order against tied rows by bytes as they do by number |
| RelationList.UnequalWidthsListTwice | internal/relation/list.go:217-266 | With a cached prefix and tied ids of different width, a concrete walk goes round in circles |
| ClientWalks.TimelineClientSeesEverything | internal/fanout/timeline_reader.go:69-170 | A client that keeps sending back the cursor text until hasMore is false gets the sorted, deduplicated union of all sources, each post once |
| ClientWalks.LikerClientSeesTheIndex | internal/counter/likers.go:75-246 | Over the cursor texts, a client gets every member of the time index once, newest first |
| ClientWalks.LikerClientSeesTheBitmap | internal/counter/likers.go:75-361 | Over the cursor texts and without a time index, a client gets every user of the scanned chunks whose bit is set once, by ascending id |
| ClientWalks.RelationClientSeesEveryRow | internal/relation/list.go:101-266 | Over the cursor texts, a client gets every row of the database once, newest first, however little of it the cache holds |
| TrimmedBox.AddTrimKeepsTop | internal/fanout/fanout_service.go:147-159 | One add-then-trim step keeps a box at the n greatest entries ever added |
| TrimmedBox.BoxHoldsTop | internal/fanout/fanout_service.go:225-237 | After any sequence of such steps a box holds exactly the n greatest entries ever added |
| TrimmedBox.TopIsUnique | internal/fanout/fanout_service.go:147-159 | Only one box can hold the top of a set of entries |
| TrimmedBox.OrderAndDuplicatesDoNotMatter | internal/fanout/fanout_service.go:114-122 | Steps that add the same entries, in any order and however often, leave the same box |
| TrimmedBox.RescoringMatters | internal/fanout/fanout_service.go:147-159 | A member added with two scores shows that the order matters without one score per member |
| Fanout.FanoutService.IsCelebrity | internal/fanout/celebrity.go:59-82 | The verdict from set and count, with the demotion below 80% of the threshold |
| Fanout.FanoutService.PushToFollowers | internal/fanout/fanout_service.go:162-222 | Terminates against any list service; reaches the followers of the specification run, and lists the author when it stops early and the mark succeeds |
| Fanout.FanoutService.FanoutPost | internal/fanout/fanout_service.go:123-144 | Author box first, then verdict, then push, as one state change |
| Fanout.FanoutService.OnFollow | internal/fanout/relation_hooks.go:22-58 | The backfill of a new follower's inbox from the author's box, unless the verdict is to pull |
| Fanout.FanoutService.OnUnfollow | internal/fanout/relation_hooks.go:71-98 | The cleanup of the inbox by the author's box |
| Fanout.FanoutService.RemovePost | internal/fanout/fanout_service.go:239-253 | A removed post leaves its author's box; inboxes stay as they are |
| FanoutRuns.AuthorBoxKeepsTop | internal/fanout/fanout_service.go:123-159 | Over any run of posts, follows, unfollows and removals by anybody, the box of an author who removes nothing holds the newest authorBoxMax of what it was given before and everything that author has published |
| FanoutRuns.AuthorBoxIsOwn | internal/fanout/fanout_service.go:147-159 | In any run, nothing but the author's own posts and removals changes the author's box |
| FanoutRuns.InboxKeepsTop | internal/fanout/fanout_service.go:225-237 | Over any run, the inbox of a user who unfollows nobody holds the newest timelineMax of what it was given before and everything pushed or backfilled to that user |
| FanoutRuns.InboxIsOwn | internal/fanout/relation_hooks.go:22-98 | An inbox changes only by a push that reaches its owner, and by the owner's own unfollows and follows of authors who are not pulled |
| FanoutRuns.FollowDeliversTheNewest | internal/fanout/relation_hooks.go:34-46 | At any point of any run a follow delivers the newest posts, up to both bounds, of everything the author ever published, and nothing under a verdict to pull |
| FanoutRuns.DemotedExactlyWhen | internal/fanout/celebrity.go:64-72 | A verdict takes an author off the set exactly when 5 * (count + 1) <= 4 * threshold and both Redis calls succeed (80% of the threshold, rounded down), and no other author |
| FanoutRuns.BandKeepsTheMode | internal/fanout/celebrity.go:45-49 | Between that line and the threshold the verdict is what the set says: listed authors stay pulled, others stay pushed |
| FanoutRuns.ListedStaysListed | internal/fanout/celebrity.go:59-82 | A listed author stays listed through any run in which no verdict on that author finds the count below that line |
| Fanout.FanoutService.FollowedCelebrities | internal/fanout/timeline_reader.go:241-279 | With a faithful list service: the first maxPull celebrities among the first 20000 followed authors, in list order |
| Fanout.PushIsBounded | internal/fanout/fanout_service.go:171-214 | However the list service answers with pages of at most the batch size, a push writes at most min(threshold, maxFans) - 1 + batchSize inboxes, and it ends in promotion exactly when the limit is reached |
| Fanout.PushStopsAtTheSmallerBound | internal/fanout/fanout_service.go:188-210 | With pages of at most the batch size, a push lists the author exactly when it reached the threshold or the guard, and goes less than a page beyond either |
| Fanout.FaithfulRun | internal/fanout/fanout_service.go:171-214 | With a faithful list service a push reaches the prefix of the followers that ends with the page crossing the limit |
| Fanout.ShownExactlyWhen | internal/fanout/fanout_service.go:123-237 | After a published post the author's trimmed box shows it, and an inbox shows it (holds it, or is full of newer entries) exactly if the push reached it or it did before |
| Fanout.ReadableExactlyWhen | internal/fanout/fanout_service.go:123-222 | By what boxes and set hold afterwards, all followers can read a post, from the inbox or from the box of an author in the set, if and only if all had it before, or the author stays in the set, or no count ruled out the push and an early stop could be recorded or missed only followers who had it |
| Fanout.PulledExactlyWhen | internal/fanout/timeline_reader.go:226-279 | A followed author of the set is among those pulled if and only if fewer than maxPull celebrities and fewer than 20000 authors stand before in the following list |
| Fanout.CountVerdictReachesNobody | internal/fanout/celebrity.go:77-81 | A verdict from the count alone, for an author outside the set: a follower can read the post only if the inbox showed it before |
| Fanout.PushedOnce | internal/fanout/fanout_service.go:225-237 | Each reached inbox gets the post once, however often its owner is listed, and no other inbox changes |
| Fanout.RedeliveryChangesNoInbox | internal/fanout/fanout_service.go:114-122 | A redelivered post leaves every inbox as it was |
| Fanout.BackfillCatchesUp | internal/fanout/relation_hooks.go:34-46 | After the backfill the inbox is the one of somebody to whom the author's latest posts had been pushed |
| Fanout.FollowThenUnfollow | internal/fanout/relation_hooks.go:22-98 | Following and unfollowing restores the inbox if the backfill fits in |
| Fanout.UnfollowRemovesTheListed | internal/fanout/relation_hooks.go:71-98 | Unfollowing removes exactly the entries whose post the author's box still lists |
| FollowerPages.RelationListIsFaithful | internal/relation/list.go:146-266 | The follower list, paged by its cursor texts, is a faithful list service: every page holds the next rows and the cursor stands behind them |
| FollowerPages.PostReachesTheTable | internal/fanout/fanout_service.go:123-222 | A published post against the follower table, end to end: all follower rows can read it exactly under that condition |
| FollowerPages.ReadablePostIsListed | internal/fanout/timeline_reader.go:119-279 | A post in the inbox, or in the box of a celebrity whom the scan reaches, is on the pages of that follower's home timeline |
| FollowGraph.RelationService.Follow | internal/relation/follow.go:17-77 | All-or-nothing under any failing statement; after success the relation is active, rows and event change only on a transition to following, and the result says whether there was one |
| FollowGraph.RelationService.Unfollow | internal/relation/follow.go:107-154 | All-or-nothing under any failing statement; after success the relation is not active, and rows and event change only on a transition to not following |
| FollowGraph.RelationService.Finish | internal/outbox/transaction.go:46-67 | The event is written last, and a failing write or commit leaves no trace of the transaction |
| FollowGraph.TablesAndOutboxAgree | internal/relation/follow.go:44-145 | In every run the two tables mirror each other, relation ids in the outbox are unique, and the events of each pair alternate from Created and end in Created exactly while the relation is active |
| FollowGraph.LastCallDecides | internal/relation/follow.go:17-154 | After any run of calls, some rolled back, a user follows another in both tables exactly when the last call for the pair that went through was a follow |
| FollowGraph.RowKeepsFirstID | internal/relation/repository.go:35-75 | In every run a row exists exactly for pairs with an event, and keeps the relation id of the first one through every later follow and unfollow |
| FollowGraph.DegreeFromLog | internal/relation/repository.go:41-96 | A user's out- or in-degree in the tables is the number of its Created events less that of its Canceled events |
| FollowCounts.KeysTellEventsApart | internal/relation/event_processor.go:118-172 | Dedupe keys are equal only for equal events; all cancels of one pair are equal events |
| FollowCounts.UserCounter.ApplyFollowDeltaOnce | internal/counter/user_counter.go:67-104 | Mark and both increments happen together or not at all |
| FollowCounts.UserCounter.Process | internal/relation/event_processor.go:89-131 | One delivery: nothing happens when the list caches fail, otherwise the event is counted unless it is marked |
| FollowCounts.UserCounter.FollowerCount | internal/counter/user_counter.go:43-56 | The count read by others is unknown when missing and never negative |
| FollowCounts.SumsAgree | internal/counter/user_counter.go:67-74 | The following counts of all users and their follower counts add up to the same number in every state, under any deliveries and any expiry of marks |
| FollowCounts.CountsOfSeen | internal/relation/event_processor.go:89-131 | Whatever the order and repetition of deliveries, a count depends only on the set of events seen |
| FollowCounts.CountsAreDegrees | internal/relation/event_processor.go:89-131 | Once every event of a run has been delivered, each count is at least the degree in the tables, and equal to it if and only if no relation of that user was canceled twice |
| FollowCounts.SecondCancelIsDropped | internal/relation/event_processor.go:118-118 | Follow, unfollow, follow, unfollow leaves a count of one with nobody followed |
| VersionCache.Versions.Get | internal/cache/version.go:49-75 | The local version if kept, else the one in Redis, else the default; what is returned is kept |
| VersionCache.Versions.Invalidate | internal/knowpost/cache.go:34-54 | One increment, with results below 1 replaced by 1, the new version's page deleted and the local version dropped, also when Redis fails |
| VersionCache.ReadsAreFresh | internal/cache/tiered.go:95-201 | Under any interleaving of readers, writers, instances and evictions, a read that took a version beyond the default from Redis answers with data no older than the commits before the increment its version followed, and no cache holds older data under such a version |
| VersionCache.StepKeepsInv | internal/cache/version.go:49-75 | Every single step keeps the invariant behind this |
| VersionCache.CounterNeverReturnsToDefault | internal/knowpost/cache.go:34-43 | Once the counter exists, every increment leads beyond the default version |
| VersionCache.FreshIffCounterExists | internal/knowpost/cache.go:34-43 | Every read of every run is no older than the increment its version followed, if and only if the counter exists with a value of at least 1 from the start |
| VersionCache.FirstIncrementDoesNotInvalidate | internal/knowpost/cache.go:34-43 | For every other counter a run in which the first increment makes the default version and a slow loader's old data is served after it |
| VersionCache.OwnWriteIsSeenIff | internal/cache/version.go:49-83 | After a writer's increment and its Drop on an instance, in any run, the instance never keeps a version below that increment's for its readers, if and only if that one is the default or no Get keeps there a version taken before the increment or left by a failed Redis read |
| VersionCache.VersionShowsTheWrite | internal/cache/tiered.go:95-201 | A read under the version of an increment, or a later one, sees everything committed before that increment |
| VersionCache.NewPageIsUpToDate | internal/knowpost/cache.go:34-54 | In any run after an increment, also the one that makes the default version, the page of its version in L2 shows what was committed before, unless a reader fills in what it had loaded earlier |
| VersionCache.FilledIsServed | internal/cache/tiered.go:95-201 | A loaded page, once filled in, is what later readers of its version are served without a load: from L2 in any run that keeps the page, and from L1 on the instance that has read it |
| RedisLock.Lock.TryAcquire | pkg/redislock/lock.go:94-117 | The lock is taken exactly when nobody's lease is running |
| RedisLock.Lock.Renew | pkg/redislock/lock.go:199-216 | A lease is extended exactly for its owner |
| RedisLock.Lock.Release | pkg/redislock/lock.go:158-168 | A lease is ended exactly by its owner |
| ReadThrough.Tiered.GetL2 | internal/cache/tiered.go:152-170 | Failed reads, empty values and undecodable bytes are misses, the sentinel is never copied into L1, hits are |
| ReadThrough.Tiered.LoadAndFill | internal/cache/tiered.go:173-201 | One load and its writes; failed writes and failed encodings do not fail the read |
| ReadThrough.AtMostOneOwner | pkg/cacheutil/cache_readthrough.go:56-93 | In no state of any run do two readers own an unexpired lease |
| ReadThrough.OnlyLoadedDataIsServed | internal/cache/tiered.go:95-201 | In every run, with leases lost, entries evicted, writes failed and readers crashed at will, caches hold only encoded results of loads or the sentinel, and every answer is the outcome of some load or a failure |
| ReadThrough.OneLoadForEverybody | pkg/cacheutil/cache_readthrough.go:56-93 | While leases outlast the work and no entry or write is lost, at most one load succeeds and every reader that does not fail answers with its outcome |
| ReadThrough.LostLeaseLoadsTwice | pkg/redislock/lock.go:173-196 | A lease that runs out during a load lets two loads succeed with different outcomes: the lease hypothesis is needed |
| ReadThrough.StoredIsFound | internal/cache/tiered.go:152-201 | A stored outcome is what every later look into L2 finds, in any run that keeps the entry: a value is handed on, and a cached "not found" is the answer; nobody goes on to a load |
| ReadThrough.FilledIsFound | internal/cache/tiered.go:95-120 | A value copied into L1 is what the next reader of the instance answers with |
| ReadThrough.RenewedLeaseLasts | pkg/redislock/lock.go:173-216 | After a renewal, in any run shorter than the lease in which the owner does not release it, the lock stays with its owner whatever others do |
| ReadThrough.ReleasedIsFree | pkg/redislock/lock.go:94-168 | After the owner's release the next reader to try gets the lock |
| Draft.OneDraftPerKey | internal/knowpost/write_service.go:52-174 | Until the key expires, over any interleaving of requests with failed inserts, failed final writes and crashes: at most one draft is inserted, every success answers with its id, and no request meets a dirty value |
| Draft.SavedIsAnswered | internal/knowpost/write_service.go:98-172 | Once an id is stored, whatever requests do before and after without the key expiring, the key reads as the one draft's id, every request that looks succeeds with it, and so does every request that has still to try its claim |
| Draft.UndoneIsFree | internal/knowpost/write_service.go:86-95 | Once a failed insert is undone, the key stays free until the next request to claim it, and that one inserts |
| Draft.DirtyKeyIsReclaimed | internal/knowpost/write_service.go:164-171 | A dirty value is deleted by the request that finds it, and the next claim inserts |
| Draft.FreeKeyIsClaimed | internal/knowpost/write_service.go:52-120 | On a free key a request whose steps succeed inserts one draft, stores its id and answers with it |
| Draft.OrphanBlocks | internal/knowpost/write_service.go:149-157 | A marker left by a crash, a failed undo or an id that could not be stored blocks the key until it expires: nothing is inserted and whoever looks has to try again |
| Draft.UndoTouchesOnlyOwnMarker | internal/knowpost/write_service.go:33-38 | The delete script removes the request's own marker and never an id or another's marker |
| Draft.StepKeepsInv | internal/knowpost/write_service.go:124-174 | Every step before the expiry keeps the invariant behind this |
| Draft.ExpiryAllowsASecondDraft | internal/knowpost/write_service.go:24-24 | An expiry during a slow insert lets a second draft be inserted: the hypothesis is needed |
| SlidingWindow.RateLimiter.Call | pkg/middleware/ratelimit.go:47-69 | One script call: prune, count, admit or reject, and the remaining quota |
| SlidingWindow.AdmittedIffRoom | pkg/middleware/ratelimit.go:47-69 | Over any run with time not going back and distinct members, a request is admitted if and only if fewer than max were admitted in the window that ends with it |
| SlidingWindow.NeverTooMany | pkg/middleware/ratelimit.go:47-69 | No interval of the window's length, wherever it lies, contains more than max admissions |
| SlidingWindow.RejectedOnlyWhenFull | pkg/middleware/ratelimit.go:59-63 | A rejection means that exactly max admitted requests lie in the window that ends now |
| SlidingWindow.ExpiryChangesNothing | pkg/middleware/ratelimit.go:61-67 | The expiry of the key never changes a verdict or what is kept |
| SlidingWindow.AdmittedIffFewMembers | pkg/middleware/ratelimit.go:47-92 | Whatever members requests bring, over any run with time not going back: a request is admitted if and only if fewer than max different members were admitted in the window that ends with it |
| SlidingWindow.SharedMembersSlipThrough | pkg/middleware/ratelimit.go:71-92 | So requests that share a member overwrite each other and all pass |
| TokenBucket.TokenBucketKey.Take | internal/relation/service.go:19-40 | One script call: refill in whole seconds up to capacity, take a token or not, and the expiry only after success |
| TokenBucket.AdmissionsAreBounded | internal/relation/service.go:19-40 | Over any stretch of any run, the calls admitted within the seconds from a to b are at most capacity + rate * (b - a) when 60 * rate >= capacity |
| TokenBucket.SpentIsPaidFor | internal/relation/service.go:26-39 | Admissions plus what is left never exceed the starting level plus what the rate adds, expiry included |
| TokenBucket.LevelGrowsByRate | internal/relation/service.go:26-31 | Between two calls the level grows by exactly what the rate pays for, up to the capacity, expiry included |
| TokenBucket.RefusedUntilRefilled | internal/relation/service.go:26-36 | After a refused call the next one is admitted exactly when capacity and rate are positive and a later second has begun |
| TokenBucket.BoundIffRefillBeatsExpiry | internal/relation/service.go:19-40 | Every run keeps the bound if and only if 60 * rate >= capacity: a slower refill is beaten by the expiry handing out a full bucket |

## Left out

- HTTP handlers, routing, configuration, metrics, authentication, search, object storage and the frontend: wiring and foreign libraries.
- Redis and network errors that are returned to the caller: the caller retries the same step; errors the code swallows are modelled as inputs.
- JSON decoding of messages: a message body is unreadable or has fields. Floating-point scores: exact integers.
- The likers scan cache (internal/counter/likers.go:364-412) and the feed fragment caches (internal/knowpost/feed_service.go:540-578): they can mix pages that do not belong together, so the scan is modelled without them.
- SCAN duplicates and shard keys of entity ids that contain a colon: each shard is listed once.
- Flush retries, dead-letter records and replay (internal/counter/consumer.go:220-262, internal/counter/failure.go:60-206): a retry is another execution of the same batch, which the runs allow anywhere; a batch given up after the last retry is one that is never executed, and leaves a hole if later ones are; replaying records is not modelled.
- Expiry of boxes, of list caches and of dedupe marks in the degree theorem: an expired box is an empty one; `FollowCounts.SumsAgree` allows marks to expire, `FollowCounts.CountsAreDegrees` does not.
- The list caches as written by the event consumer (internal/relation/event_processor.go:134-152): their content depends on delivery order; only their failure matters here.
- Posts published while an author was a celebrity, after a demotion: not covered by `Fanout.ReadableExactlyWhen`, which is about the post being published.
- Cache warming of relation lists (the tie order of the warming query) and offset pagination: `RelationList.ListIsExact` takes the cache content as given.
- Entries trimmed off a box or older than the celebrity boxes' bound: pages are exact with respect to what the boxes hold.
- CreateDraft without an idempotency key, and inserts that commit but report an error: `Draft` treats a failed insert as not done.
- The loops of CacheReadThrough and claimDraftIdempotency as sequential code: each iteration waits for other processes, so their iterations are steps of the machines in `ReadThrough` and `Draft`.
- The queue between the fetch loop and the flush workers: in `CounterFlush` a batch is executed in the turn that hands it on; what a delay or reordering costs is stated by `CountingWatermark.CompleteIffNoHoles`.
- Tickers, goroutine scheduling and the watchdog's timing: steps are taken in any order, renewals are steps, time is a logical clock.
- The ban list and the fail-open path of the rate limiter, and the randomness of its members: distinct members are a hypothesis.
- DirectPollConsumer, PollConsumer and RedisBloom: not wired in, or a foreign module.
- Fanout.FanoutService.FollowedCelebrities: says what is found only for a list service that pages faithfully; for others it says only that the bound holds.
- Likers.ReadLikersByTime: the choice between rank and score is made on one state of the index, although the code reads the rank and the range in two commands.
