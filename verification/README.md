# The delivery pipeline of GO-CHAT, modelled and proved

GO-CHAT delivers a message along one pipeline: the gateway's `Send` appends it to a partitioned inbox log, a persist
worker turns the record into rows in one MySQL transaction, a transactional outbox hands it to the push partitions of
the gateways that have its readers online, and clients fetch what they missed by `after_seq`. What the pipeline promises
holds over whole runs, in which processes crash, replies get lost, leases run out while their owner is still at work, and
consumers are given records again. This project models the pipeline and proves those promises.

Protocols are state machines: a datatype of states, an `Enabled`/`After` pair for the steps, one inductive invariant, and
lemmas about every run. Code that changes state step by step is a class or a method with a loop, proved against a
specification; where a protocol has such code, its methods move a ghost state along the steps of the machine, or a lemma
shows that what the method leaves behind is what a step leaves (`Claim`, `Persist`), so that what is proved of every run
holds of what the methods do.

| file | content |
|---|---|
| `Common.dfy` | names, `Option`, `Result`, an arbitrary hash |
| `OutboxRows.dfy` | the outbox table, its row transitions, `Claim` and the fenced updates |
| `Shards.dfy` | shards of conversations and the slots that own them |
| `OutboxProtocol.dfy` | the outbox protocol as a state machine, and the invariant that every step keeps |
| `OutboxRuns.dfy` | what follows for every run: head-of-line safety, push order, no silent loss, retry accounting, progress |
| `StaleOwner.dfy` | a run in which a stale owner breaks the order of pushes |
| `Presence.dfy`, `Publisher.dfy` | the presence registry, route lookup, and the publish attempt as it runs |
| `MessageStore.dfy` | the message tables, the persist transaction statement by statement, and the repository |
| `Ingress.dfy`, `IngressWorkers.dfy` | `Send` to tables as a state machine; `Send`, the idempotency store and the persist worker as they run |
| `Pipeline.dfy` | both machines on the same tables: order and accounting from the inbox log to the push log |
| `Segments.dfy`, `SegmentGenerator.dfy` | the segment id generator as a state machine; repository and generator as they run |
| `History.dfy` | history paging both ways, catch-up, and the server's cursor |
| `Cursors.dfy`, `ConversationList.dfy` | opaque cursors, and the conversation list they page through |
| `TokenBucket.dfy` | the distributed token bucket and the expiry of its key |
| `Gateway.dfy` | the gateway's connections, its memory of delivered ids, and the push worker |

`dafny verify dfyconfig.toml` checks the whole project.

## How the world is modelled

- Kafka partitions and topics are append-only sequences (or, for the inbox's dead letters, a set of named offsets). An
  append that reports success happened; one that reports an error happened at that step or never. The publish contract
  "nil means appended" is an assumption about the broker, and is not derived through the circuit breaker.
- MySQL is a set of keyed rows. A row lock excludes other holders, unique keys are enforced at the insert, nothing of a
  transaction shows before its commit, and any statement may fail. A commit or an update that reports an error may have
  taken effect.
- Redis is maps whose keys are gone once the clock has passed their expiry. A script is atomic; a script whose reply is
  lost may have run.
- Clocks are parameters of the operations. The outbox compares timestamps of the workers' clocks and of the database;
  the protocol has one clock that never goes back, and every timestamp a worker uses may lag behind it.
- CRC32 and Kafka's key hash are arbitrary functions of the conversation id. Payloads are immutable; an outbox row
  carries the fact that its payload does not decode.
- Every call outside, and every look at a context that may be cancelled, is drawn from a `Common.Environment`, whose
  ghost counter goes up exactly when the draw is an error; the gateway's clients, the commits, the dead-letter topic, MySQL
  and Redis have environments of their own where a contract tells them apart. Contracts compare the counter before and
  after: what a method does if no call reported an error is pinned down, and an error answer is tied to a call that did.
  A call that reports an error may have taken effect. The brokers' appends of an outbox worker are counted the same way.
- The two machines of the write path and of the outbox share the message tables. `Pipeline` runs them together and shows
  that each keeps what the other relies on.

## What turned out to matter

- Push order is not unconditional. A conversation reaches the push log in seq order if and only if every append finds its
  row not yet terminal, or no later seq of its conversation in the log (`OutboxRuns.PushOrderIff`). It follows that order
  holds whenever appends are made by the owner still in `locked_by` (`OutboxRuns.PushOrder`); a stale owner is harmless
  as long as its row is unfinished. `StaleOwner.StaleAppendBreaksOrder` gives a run in which seq 2 precedes seq 1. Even
  then nothing is appended more than one past the terminal prefix (`OutboxRuns.PushWithinFrontier`).
- A gateway's index by user stays exact if and only if a connection id is new or belongs to the same user
  (`Gateway.RegisterKeepsInverse`, `Gateway.UnregisterKeepsInverse`); the count of active connections needs a new id.
- A conversation-list cursor goes on behind its row if and only if the row's id is positive
  (`ConversationList.CursorResumesIff`), because the query drops the condition for any other id.
- The expiry of a token bucket's key cannot be told if `perSecond * ttl >= capacity`. For whole capacities the exact
  condition allows for the one millisecond after which Redis drops a key (`TokenBucket.ExpiryUnseenIff`).
- Permanent business errors are documented as not retried by the persist worker, but the transaction wraps every error as
  an internal one, which counts as transient (internal/infrastructure/mysql/repository/message_repository.go:223). The model follows the code: any failure is
  retried up to the bound and then dead-lettered.
- A client with nothing stored, at `after_seq = 0`, does not start a forward query: the code pages backward instead
  (internal/message/service.go:163-166). The catch-up theorems are about `after_seq > 0`, which is when that query runs.
- A refused call of the token bucket renews the expiry of its key, and so can keep a key whose loss would have filled the
  bucket. `TokenBucket.RefusalsUnseenIff` has the exact condition under which callers cannot tell.
- Storing `nextMin`, `nextMax` and `nextReady` counts as one step of the id generator, and so does the swap under its mutex.
  `Segments.TornSwap` says exactly what a swap that interleaves with the stores would hand out.

## Model

| member | source | states |
|---|---|---|
| OutboxRuns.HeadOfLineSafety | internal/infrastructure/mysql/repository/outbox_repository.go:50-284 | at every moment of every run, with any number of owners, expired leases, stale owners, crashes and concurrent Persist, the terminal rows of a conversation are exactly seqs 1..t, only seq t+1 can be locked, retrying or waiting for the dead-letter topic, later rows are untouched, t never decreases and terminal rows never change |
| OutboxRuns.InvGivesQueueShape | internal/infrastructure/mysql/repository/outbox_repository.go:82-100 | the invariant gives the shape of the queue: terminal prefix, one head, untouched rest |
| OutboxRuns.PushOrderIff | internal/worker/outbox/publisher.go:279-295 | in every run each conversation's pushes are in seq order if and only if every append finds its row unfinished, or nothing later of its conversation logged |
| OutboxRuns.StepOrderIff | internal/worker/outbox/publisher.go:279-295 | a step leaves an ordered log exactly when it finds one and its append is safe in that sense |
| OutboxRuns.PushOrder | internal/worker/outbox/publisher.go:279-295 | in particular, the log is in order in every run whose appends are made by the owner still in locked_by |
| OutboxRuns.PushWithinFrontier | internal/worker/outbox/publisher.go:259-301 | whatever any owner appends is at most one past the terminal prefix, and exactly the head if the owner still holds the row |
| StaleOwner.StaleAppendBreaksOrder | internal/worker/outbox/publisher.go:279-301 | without fenced appends the order can break: a reachable state in which seq 2 was appended before seq 1 |
| OutboxRuns.NoSilentLoss | internal/worker/outbox/publisher.go:259-301 | a Published row had one attempt that wrote every partition of its route lookup with exactly that partition's users; a Dead row has a dead-letter record with its final retry count |
| OutboxRuns.MarkFailedIsAtomic | internal/infrastructure/mysql/repository/outbox_repository.go:204-251 | the separate read and update act as one step: the count read is still the row's whenever the update applies |
| OutboxRuns.RetryAccounting | internal/infrastructure/mysql/repository/outbox_repository.go:216-250 | retry_count is the number of applied failures and at most maxRetries; a waiting row is put off from its n-th failure by 2, 4, 8, 16, 32 and then always 64 backoffs and by less than a quarter more; the dead-letter path is never left |
| OutboxRuns.ClaimWaitsForBackoff | internal/infrastructure/mysql/repository/outbox_repository.go:98-100 | no claim comes before the 2, 4, 8, 16, 32 or 64 backoffs of the n-th failure have passed |
| OutboxRuns.LeaseExcludes | internal/infrastructure/mysql/repository/outbox_repository.go:98-131 | in every run, once a row is claimed at some time, no claim takes it before that time plus the lease, unless a holder marked it in between |
| OutboxRuns.OneHolderPerRow | internal/worker/outbox/publisher.go:230-252 | two attempts never hold the same row |
| OutboxRuns.HeadBecomesClaimable | internal/infrastructure/mysql/repository/outbox_repository.go:82-131 | the head of an unfinished conversation falls due within a lease or 80 backoffs, and can then be claimed by any idle owner |
| OutboxRuns.FrontierCanAdvance | internal/worker/outbox/publisher.go:259-301 | from every state of the invariant, and for every answer of the route lookup, the head of an unfinished conversation can still be finished with all of its partitions written: nothing blocks it for ever |
| OutboxRuns.RunMovesForward | internal/infrastructure/mysql/repository/outbox_repository.go:186-284 | over any stretch of a run rows only move forward and logs only grow |
| OutboxRuns.RunKeepsInv | internal/infrastructure/mysql/repository/outbox_repository.go:50-284 | every state of every run satisfies the invariant |
| OutboxProtocol.StepKeepsInv | internal/infrastructure/mysql/repository/outbox_repository.go:50-284 | Persist, Claim, every act of a publish attempt, clock ticks and crashes keep the invariant |
| OutboxProtocol.ActKeepsInv | internal/worker/outbox/publisher.go:259-434 | any act of an attempt, by a stale owner too, keeps it |
| OutboxProtocol.ClaimKeepsInv | internal/infrastructure/mysql/repository/outbox_repository.go:59-146 | a Claim transaction keeps it |
| OutboxProtocol.PersistKeepsInv | internal/infrastructure/mysql/repository/message_repository.go:192-203 | a new row from Persist keeps it |
| OutboxProtocol.FailureOpensWindow | internal/infrastructure/mysql/repository/outbox_repository.go:225-241 | an applied failure counts once and either opens the backoff window or, as the last one, keeps the row for its owner on the dead-letter path |
| OutboxRows.OutboxRepository.Claim | internal/infrastructure/mysql/repository/outbox_repository.go:50-151 | hands out only due heads, each once, and serves every candidate that is free and due, whatever stale list of candidates it is given; their rows are locked by this owner until now plus the lease, which is 5 seconds if none is given, and no other row changes; a corrupt payload goes to the dead-letter path |
| OutboxProtocol.ClaimIsStep | internal/infrastructure/mysql/repository/outbox_repository.go:59-150 | a Claim transaction of an idle owner is a Claim step of the protocol with the same table, and each record starts an attempt with its retry count and in the phase that its status says |
| OutboxRows.OutboxRepository.Head | internal/infrastructure/mysql/repository/outbox_repository.go:84-97 | the row read under the lock is the lowest non-terminal seq, if there is one |
| OutboxRows.CandidateIffDueHead | internal/infrastructure/mysql/repository/outbox_repository.go:153-183 | the candidate query finds a conversation if and only if its head is due |
| OutboxRows.DelayExact | internal/infrastructure/mysql/repository/outbox_repository.go:235-240 | the n-th failure waits 2, 4, 8, 16, 32 and from then on 64 backoffs |
| OutboxRows.OutboxRepository.MarkPublished | internal/infrastructure/mysql/repository/outbox_repository.go:186-200 | applies exactly for the owner in locked_by, ends the row as Published at this time, unlocks it, and changes nothing else |
| OutboxRows.OutboxRepository.ReadRetries | internal/infrastructure/mysql/repository/outbox_repository.go:205-214 | the fenced read of retry_count |
| OutboxRows.OutboxRepository.UpdateFailed | internal/infrastructure/mysql/repository/outbox_repository.go:216-250 | the fenced update from that count: 2, 4, 8, 16, 32 or 64 backoffs and the jitter from now, unlocked, or, at the bound, the dead-letter path with the lock kept for a lease |
| OutboxRows.OutboxRepository.RetryDlq | internal/infrastructure/mysql/repository/outbox_repository.go:254-269 | puts off and unlocks a row that waits for the dead-letter topic, for its owner only, by the given time or a second |
| OutboxRows.OutboxRepository.MarkDead | internal/infrastructure/mysql/repository/outbox_repository.go:272-284 | ends such a row, for its owner only |
| Shards.OutboxShardsForWorker | internal/message/outbox_shard.go:20-29 | the slot's list holds exactly the shards of 0..1023 congruent to the slot, ascending; a slot out of range gets none |
| Shards.OneSlotPerConversation | internal/message/outbox_shard.go:14-29 | for any number of slots the shard of every conversation has exactly one owner |
| OutboxProtocol.SlotsClaimApart | internal/worker/outbox/publisher.go:95-118 | Claim transactions of publishers with different slots hand out records of different conversations, whatever the two tables and candidate lists |
| Presence.PresenceRegistry.Register | internal/infrastructure/redis/presence_registry.go:38-59 | a registered connection is reachable until its key, its score or its user's set runs out, and for its user only; the user's other devices stay listed with their own scores under the renewed set; other users keep what they had |
| Presence.PresenceRegistry.Heartbeat | internal/infrastructure/redis/presence_registry.go:62-79 | a heartbeat extends a route that is still there and does not revive one that has run out; the user's other devices and other users are left as by Register |
| Presence.PresenceRegistry.Remove | internal/infrastructure/redis/presence_registry.go:82-93 | a removed connection is reachable no more; others keep what they had |
| Presence.PresenceRegistry.OnlineConnectionsBatch | internal/infrastructure/redis/presence_registry.go:111-224 | returns live routes of requested users only, and all of them given that a connection id is listed for one user; its clean-up drops stale entries only |
| Presence.PresenceRegistry.TrimAndRange | internal/infrastructure/redis/presence_registry.go:134-162 | the first pipeline finds exactly the unexpired members |
| Presence.PresenceRegistry.Lookups | internal/infrastructure/redis/presence_registry.go:173-188 | every connection id is looked up, and once |
| Presence.PresenceRegistry.ReadRoutes | internal/infrastructure/redis/presence_registry.go:196-222 | keys that match end up in the answer, the others are dropped from their set |
| Publisher.RouteTargets | internal/worker/outbox/publisher.go:305-355 | a user is in partition p's list if and only if it is a member with a live route whose partition is p and in range; lists are ascending and never empty |
| Publisher.GroupByPartition | internal/worker/outbox/publisher.go:327-344 | the grouping loop keeps exactly the routes in range |
| Publisher.SortTargets | internal/worker/outbox/publisher.go:345-354 | each partition's users, ascending, none lost |
| Publisher.Worker.PublishOne | internal/worker/outbox/publisher.go:259-301 | every way through is a list of acts of this attempt in the protocol; if no call to the database reports an error, a holder whose lookup and appends went well leaves the row published, or dead on the dead-letter path; after a failed lookup or append its failure is counted; a worker that lost its row changes nothing |
| Publisher.Worker.PublishTargets | internal/worker/outbox/publisher.go:279-295 | each partition is written once, and the loop ends at the first failure |
| Publisher.Worker.MarkFailed | internal/worker/outbox/publisher.go:372-389 | if no call to the database reports an error, a holder's failure raises retry_count by one and leaves the row free and inside its backoff window, or, at the bound, dead with its dead-letter record, or put off after a failed dead-letter append |
| Publisher.Worker.PublishEvent | internal/worker/outbox/publisher.go:265-300 | the same for publishOne past the dead-letter branch: success only if the lookup and every append went well |
| Publisher.FailureSettled | internal/infrastructure/mysql/repository/outbox_repository.go:216-250 | the counted failure and the dead-letter step after it give exactly these outcomes |
| Publisher.Worker.PublishDlq | internal/worker/outbox/publisher.go:391-434 | if no call to the database reports an error, a holder's row is ended if the dead-letter record was appended, and put off by one backoff if not |
| Publisher.ActsKeepInv | internal/worker/outbox/publisher.go:259-434 | whatever a worker's attempt does keeps the protocol's invariant |
| MessageStore.TransactionsAreAtomic | internal/infrastructure/mysql/repository/message_repository.go:113-210 | under every interleaving of statements, rollbacks and duplicate keys, a commit is one whole transaction on the tables as they are, and no other step shows |
| MessageStore.TxRunKeepsInv | internal/infrastructure/mysql/repository/message_repository.go:113-210 | after any interleaving the seqs of each conversation are exactly 1..last_seq, each used once, last_message_id names the row at last_seq, no two messages share a key, and outbox rows match messages one to one |
| MessageStore.InsertKeepsInv | internal/infrastructure/mysql/repository/message_repository.go:136-204 | one transaction keeps that invariant and never changes or removes a message |
| MessageStore.InsertIsOutboxStep | internal/infrastructure/mysql/repository/message_repository.go:192-203 | a committed transaction is a Persist step of the outbox protocol |
| MessageStore.MessageRepository.Persist | internal/infrastructure/mysql/repository/message_repository.go:101-226 | a successful call returns the row that holds its key; a failed one left no trace or committed and lost the reply; what was written is, column by column, the next seq, the message, the conversation's last message and a pending outbox row in the shard of the checksum modulo 1024; if neither a statement nor the commit reports an error it fails only for a missing or closed conversation or a taken message id |
| MessageStore.MessageRepository.PersistLocked | internal/infrastructure/mysql/repository/message_repository.go:125-224 | the part under the row lock, with the look-up after a duplicate key: if no call reports an error it succeeds exactly when the key has its row already or the message id is free |
| MessageStore.MessageRepository.FindByKey | internal/infrastructure/mysql/repository/message_repository.go:38-54 | finds the row of a key if and only if there is one |
| Ingress.ExactlyOnce | internal/message/service.go:82-121 | for any number of sends of one key, with Redis failures, expiry and releases, at most one message, seq and outbox row exist, every message comes from a record of its key, and every accepted answer has a record of that very key in the inbox |
| Ingress.CommitSafety | internal/worker/persist/worker.go:127-291 | every offset below the committed one is named by a dead-letter record, or there is a message with exactly its sender and its client message id |
| Ingress.OneMessageEach | internal/worker/persist/worker.go:182-251 | two records behind the committed offsets, not dead-lettered, have one message each, and share it exactly when both sender and client message id are the same |
| Ingress.SeqsFollowTheLog | internal/worker/persist/worker.go:97-119 | messages of one conversation whose records were not dead-lettered get seqs in the order of their first records |
| Ingress.CommittedCanAdvance | internal/worker/persist/worker.go:124-142 | from every state steps lead to one in which the next record is handled and committed, with a message of its sender and client message id if its conversation is open |
| Ingress.RunKeepsInv | internal/worker/persist/worker.go:65-291 | every run of senders, expiring keys and redelivering consumers keeps the invariant behind these |
| Ingress.StepKeepsInv | internal/worker/persist/worker.go:65-291 | each single step keeps it |
| Ingress.PersistCallIsStep | internal/worker/persist/worker.go:225-251 | whatever a call to the repository's Persist leaves behind is what a step of the consumer that made it leaves |
| IngressWorkers.IdempotencyStore.Acquire | internal/infrastructure/redis/lua/acquire_message_idem.lua:8-19 | sets the key only if it is not there, with the three-way answer |
| IngressWorkers.IdempotencyStore.Conclude | internal/infrastructure/redis/lua/release_message_idem.lua:7-16 | only the holder of the nonce moves the key to accepted or removes it |
| IngressWorkers.System.Acquire | internal/infrastructure/redis/idempotency_store.go:42-61 | the call with its fresh nonce, as a step of the machine |
| IngressWorkers.System.MarkAccepted | internal/infrastructure/redis/idempotency_store.go:64-75 | only a key that still holds this call's nonce becomes accepted |
| IngressWorkers.System.Release | internal/infrastructure/redis/idempotency_store.go:78-89 | only a key that still holds this call's nonce is removed |
| IngressWorkers.MessageService.Send | internal/message/service.go:52-122 | an accepted answer means a record of this key is in the inbox; a call appends at most its own record, to the partition that its conversation hashes to; each error of its checks has exactly its cause; if no call outside reports an error it appends exactly when nobody holds the key |
| IngressWorkers.MessageService.AcquireKey | internal/message/service.go:82-98 | the fast idempotency check: its exact answer if Redis answers, and if it does not, the fallback exactly when it is configured |
| IngressWorkers.MessageService.PublishAndConclude | internal/message/service.go:100-121 | append first, then accept; success if no call reports an error; the key is released after an append that failed |
| IngressWorkers.PersistWorker.Handle | internal/worker/persist/worker.go:146-259 | the offset is committed only once a dead-letter record names it or a message of its sender and client message id is there; a valid record is dead-lettered only after maxRetries + 1 transactions or a permanent error; if no call outside reports an error it is committed: with its message as the next of an open conversation if there was none, and with a dead-letter record if that cannot be |
| IngressWorkers.PersistWorker.PersistWithRetry | internal/worker/persist/worker.go:213-251 | the bounded retry loop ends with a row after at most maxRetries + 1 transactions, on the dead-letter path after exactly as many or a permanent error, or stopped; if no call reports an error it ends with a row exactly when the key has one or the draft can be inserted |
| IngressWorkers.PersistWorker.DlqAndCommit | internal/worker/persist/worker.go:262-291 | no commit without a dead-letter record, and both done exactly if neither call reports an error |
| IngressWorkers.PersistWorker.Run | internal/worker/persist/worker.go:101-142 | the partition's goroutine never skips an offset, and everything below the committed one is handled |
| Pipeline.EndToEndOrder | internal/message/service.go:100-121 | when Send, persist workers and outbox publishers run together and no append is late, of two messages of a conversation whichever has a record in the inbox log before every record of the other, and is not dead-lettered, has all of its pushes before any push of the other |
| Pipeline.PushedInSeqOrderIff | internal/worker/outbox/publisher.go:279-295 | in every joint run all pushes of a message come before those of a later seq of its conversation if and only if every append was safe |
| Pipeline.FencedRunsAreSafe | internal/worker/outbox/publisher.go:279-295 | appends made by the owner still in locked_by are all safe, whatever is persisted meanwhile |
| Pipeline.NothingIsLost | internal/worker/persist/worker.go:146-291 | a record behind the committed offset is named by a dead-letter record, or the message of its sender and client message id has an outbox row, which ends as Published only with every partition of a route lookup written, and as Dead only with a dead letter |
| Pipeline.OutboxStepsKeepTables | internal/infrastructure/mysql/repository/outbox_repository.go:50-284 | claims, fenced updates and crashes keep outbox rows and messages matched one to one in the shared tables |
| Pipeline.FrontIsOutboxStep | internal/infrastructure/mysql/repository/message_repository.go:192-203 | every action of senders and persist workers is a step of the outbox machine on the same tables |
| Pipeline.RunKeepsInv | internal/worker/persist/worker.go:65-291 | every state of every joint run satisfies the invariants of both machines |
| Ingress.ReachableIffRun | internal/worker/persist/worker.go:65-291 | the states that the classes of the write path move through are exactly those that runs of the machine end in |
| Segments.IdsAreUnique | internal/infrastructure/idgen/segment/generator.go:127-258 | in every run of any number of instances, with conflicts, lost replies, failed prefetches, overwritten buffers and restarts, no id is issued twice, each lies in a segment of its issuer, and the ids of one instance strictly increase |
| Segments.CasTiling | internal/infrastructure/mysql/repository/segment_repository.go:26-55 | under arbitrary interleavings of reads and conditional updates the segments taken are disjoint and cover exactly the range from the first max_id + 1 to the current one |
| Segments.TilingExact | internal/infrastructure/mysql/repository/segment_repository.go:36-54 | consecutive segments cover each id of the range once and no other |
| Segments.NextIdPossible | internal/infrastructure/idgen/segment/generator.go:127-136 | from every reachable state steps lead to one in which a given running instance has issued another id |
| Segments.TornSwap | internal/infrastructure/idgen/segment/generator.go:193-258 | a swap that mixed two segments would hand out only its own ids if and only if nobody else took a segment in between |
| Segments.StepKeepsInv | internal/infrastructure/idgen/segment/generator.go:108-258 | every step keeps the invariant behind these |
| SegmentGenerator.SegmentRepository.Allocate | internal/infrastructure/mysql/repository/segment_repository.go:26-55 | a segment that nobody had before, of the step that was read, ending at the row's max_id; a conflict means that another instance took one; an internal error exactly for a missing biz_tag or a call that reported one |
| SegmentGenerator.SegmentRepository.Update | internal/infrastructure/mysql/repository/segment_repository.go:36-54 | the conditional update applies exactly when max_id and version are as read, and then takes max_id + 1 to max_id + step and moves both |
| SegmentGenerator.Generator.Next | internal/infrastructure/idgen/segment/generator.go:127-136 | hands out an id that nobody was given before and that is larger than all its own; it succeeds whenever the current or the next segment has stock |
| SegmentGenerator.Generator.TryNext | internal/infrastructure/idgen/segment/generator.go:139-151 | takes the cursor's id if and only if the segment has stock |
| SegmentGenerator.Generator.MaybePrefetchLocked | internal/infrastructure/idgen/segment/generator.go:155-170 | starts one load exactly when the used share reaches the ratio and none runs or is ready |
| SegmentGenerator.Generator.LoadNext | internal/infrastructure/idgen/segment/generator.go:188-210 | fills the next buffer with a segment nobody had, or leaves it alone, in at most maxRetries + 1 attempts; if no call reports an error it gives up only for a missing biz_tag or after losing every one of its attempts to another instance |
| SegmentGenerator.Generator.SwitchSegment | internal/infrastructure/idgen/segment/generator.go:218-250 | never swaps out a segment with stock, succeeds if next is ready, and gives up only with the segment used up and after a load was under way or started, which may end at any moment in between; it reports a cancelled context only if there was one |
| SegmentGenerator.Generator.NewGenerator | internal/infrastructure/idgen/segment/generator.go:108-124 | an instance exists only with a first segment, and fails to come about only as loadNext does |
| History.CatchUpComplete | internal/message/service.go:184-199 | paging forward until HasMore is false while messages keep arriving yields exactly the consecutive seqs from max(after, bound) + 1 to the last seq at the final read, in a bounded number of pages |
| History.ResyncExact | internal/message/service.go:185-191 | ResyncRequired is raised exactly when the client's cursor is below the bound, and only on the first page |
| History.WalkBackComplete | internal/message/service.go:169-182 | paging backward ends, and lists every message with bound < seq < start exactly once downwards, unaffected by appends and although the filter comes after the limit |
| History.BackwardPageExact | internal/message/service.go:169-182 | one backward page, filter included, is the next visible stretch |
| History.AfterPageExact | internal/infrastructure/mysql/repository/message_repository.go:73-86 | one forward page holds exactly the next seqs |
| History.ListAfter | internal/infrastructure/mysql/repository/message_repository.go:73-86 | the forward query: the lowest seqs above the bound, ascending, none left out |
| History.ListBefore | internal/infrastructure/mysql/repository/message_repository.go:56-71 | the backward query: the highest seqs below the bound, descending, none left out |
| History.HistoryService.ListHistory | internal/message/service.go:142-199 | each error has exactly its cause, Unavailable a failed call to MySQL; the page is the first messages above both bounds of the member that the query asks for, in its direction, up to a limit of 20 by default and 100 at most, with none left out; the cursor is recorded exactly as promised unless Redis reports an error |
| History.HistoryService.RecordCursor | internal/message/service.go:205-218 | the server's cursor moves to the end of the page, or to the client's for an empty one, not on a resync, and otherwise fails to only if Redis reports an error |
| History.CursorStore.AdvanceCursor | internal/infrastructure/redis/lua/advance_cursor.lua:6-12 | the stored cursor is always the maximum of the values ever recorded |
| History.FilterVisible | internal/message/service.go:174-180 | the filter keeps what is above the bound, in order |
| Cursors.CursorRoundTrip | internal/conversation/service.go:199-218 | parsing a printed cursor gives back its id and timestamp, for all 64-bit pairs, and no printed cursor is empty |
| Cursors.OpaqueRoundTrip | internal/user/cursor.go:12-22 | the same for the bare id |
| Cursors.DecodeEncode | internal/conversation/service.go:200-204 | unpadded URL-safe base64 (section 5 of RFC 4648) gives back any bytes |
| Cursors.IntRead | internal/conversation/service.go:212-216 | decimal printing gives back any 64-bit number and holds no separator |
| Cursors.ParseIntIff | internal/conversation/service.go:212-216 | a number is refused exactly if it has no digit after its sign, a character that is no digit, or a value that 64 bits do not hold |
| Cursors.DecodeIff | internal/conversation/service.go:200-204 | text is refused exactly if it holds a character outside the URL-safe alphabet and line ends, or a last group of a single letter |
| Cursors.ParseCursorIff | internal/conversation/service.go:199-218 | a cursor is read exactly if it decodes to two numbers around its first separator |
| Cursors.EncodeExact | internal/conversation/service.go:200-204 | three bytes are printed as the four base-64 digits of the number that they make |
| Cursors.SymbolsAreUrlSafe | internal/conversation/service.go:200-204 | the digits are those of Table 2 in section 5 of RFC 4648 |
| ConversationList.ListShowsEveryRowOnce | internal/conversation/service.go:132-164 | following the cursors over an unchanged set of positive-id rows shows every row once, newest first, in at most as many pages as rows and one more |
| ConversationList.WalkComplete | internal/infrastructure/mysql/repository/conversation_repository.go:110-132 | from any cursor, exactly the rows past it, once and in order |
| ConversationList.CursorResumesIff | internal/infrastructure/mysql/repository/conversation_repository.go:116-120 | a row's cursor goes on right behind the row if and only if its id is positive |
| ConversationList.ListByUser | internal/infrastructure/mysql/repository/conversation_repository.go:110-132 | the first rows past the cursor in (time, id) descending order |
| ConversationList.ConversationService.List | internal/conversation/service.go:132-164 | a cursor that does not parse is refused; Unavailable means a failed call; otherwise the page is the newest rows below the cursor, by last message or creation and then id, up to a limit of 20 by default and 100 at most, with none left out, each with its unread count, and its next cursor reads as the place of its last row |
| TokenBucket.Redis.Take | internal/infrastructure/redis/lua/token_bucket.lua:9-39 | a new or expired key counts as full, any other holds what was left and came in since, up to the capacity; one token is taken if there is one, and nothing otherwise; the expiry is renewed |
| TokenBucket.WindowBound | internal/infrastructure/redis/lua/token_bucket.lua:22-36 | with a nondecreasing clock any window of d milliseconds admits at most capacity + perSecond * d / 1000 calls |
| TokenBucket.TokensExact | internal/infrastructure/redis/lua/token_bucket.lua:22-37 | while the bucket does not fill up, what a window's first call finds and what comes in equal what its calls take and leave: a refused call takes nothing |
| TokenBucket.AdmittedAgainIff | internal/infrastructure/redis/lua/token_bucket.lua:22-37 | after any number of refused calls the next one is admitted exactly when what the first of them found and what came in since make a token |
| TokenBucket.RefusedIsFree | internal/infrastructure/redis/lua/token_bucket.lua:22-37 | a refused call changes no later answer of a bucket whose key does not expire |
| TokenBucket.RefusalsUnseenIff | internal/infrastructure/redis/lua/token_bucket.lua:14-38 | for whole capacities the same holds of the store that drops keys if and only if the bucket is full by then, or a token comes in every millisecond |
| TokenBucket.WindowBoundWithExpiry | internal/infrastructure/redis/lua/token_bucket.lua:9-39 | the same for the store that drops keys, whenever perSecond * ttl >= capacity |
| TokenBucket.SameKeys | internal/infrastructure/redis/lua/token_bucket.lua:14-38 | a bucket that is full by then cannot be told from one that never expires |
| TokenBucket.ExpiryUnseenIff | internal/infrastructure/redis/lua/token_bucket.lua:14-38 | for whole capacities callers can tell the expiry if and only if the bucket is not full at the first millisecond without its key |
| Gateway.Worker.Handle | internal/worker/deliver/worker.go:91-132 | an offset is committed only if there was nothing to push, or its message was marked within the TTL, or every local connection of every target whose event can be built was tried and the failures were dead-lettered first; an error is exactly a failed commit or dead letter; without the latter the message is marked, without either the offset is committed, and a failed dead letter stops both; the sender is told that the message is persisted, other targets get it with its content, and nobody else gets anything |
| Gateway.Worker.Deliver | internal/worker/deliver/worker.go:109-128 | delivers to every target and covers failures; fails exactly with the dead-letter append, which is not made when all pushes went well |
| Gateway.Worker.PushToTargets | internal/worker/deliver/worker.go:109-123 | every connection of every positive target is tried, unless its event cannot be built, which is the case for other users than the sender when the content is not valid; the sender is told that the message is persisted, anybody else gets it with its content; the list of failures is empty exactly when all went well |
| Gateway.Worker.HandleWithRetry | internal/worker/deliver/worker.go:73-88 | an offset is left only once it is committed, and given up only after every try failed |
| Gateway.Worker.Run | internal/worker/deliver/worker.go:50-69 | everything below the committed offset is settled, and the run ends early only after enough failed calls |
| Gateway.Dedupe.Seen | internal/worker/deliver/worker.go:227-235 | answers as a memory that never purges |
| Gateway.Dedupe.Mark | internal/worker/deliver/worker.go:237-249 | marks the id, and purges only marks that have run out, only above the limit |
| Gateway.Manager.Register | internal/connection/manager.go:65-87 | the count of active connections stays exact if and only if the id is new |
| Gateway.Manager.Unregister | internal/connection/manager.go:90-107 | removes the id with its index entry |
| Gateway.RegisterKeepsInverse | internal/connection/manager.go:66-72 | the index by user stays the exact inverse if and only if the id is new or was this user's |
| Gateway.UnregisterKeepsInverse | internal/connection/manager.go:91-102 | the same for removal |
| Gateway.Manager.PushToUserWithFailures | internal/connection/manager.go:129-151 | every connection of the user is tried once, and the failures are exactly the pushes that clients did not get |

## Left out

- The clients of Kafka, MySQL and Redis, SQL text and JSON encoding: modelled as logs, rows and maps, see above.
- The circuit breaker around publishing: it returns nil for some errors of its own, so the publish contract is assumed at its interface.
- An append that reports an error and lands later than that step: in the model it lands at the step or never.
- `last_error` texts, the texts of dead-letter records and their truncation, log lines and metrics.
- `event_type`, which has one value, and the batch size and ordering of candidates in Claim: any list of candidates is allowed.
- OutboxRows.OutboxRepository.Claim: a transaction that fails and rolls back is a Claim with no step in the protocol; no method returns its error.
- The join in `dispatch` is the protocol's condition that an owner claims only when none of its attempts is running; named locks on worker slots are not modelled beyond the partition of shards.
- Rounding of DATETIME(3) columns, 64-bit overflow of seqs, ids and delays, and the precision of tokens that Lua prints and reads back.
- Publisher.RouteTargets: a Redis failure during the lookup is not a branch of this method; PublishOne takes any failed lookup as None.
- Publisher.Worker.PublishOne: its statements run without other workers in between; the interleavings are those of the protocol it follows. The same holds of the methods in IngressWorkers and Gateway, where others act between calls.
- IngressWorkers.System.Persist: runs without other writers in between; `Ingress.PersistCallIsStep` is about the tables once they were done, and the interleavings are in MessageStore and Ingress.
- Gateway.Worker.HandleWithRetry: the number of retries is a parameter, where the source goes on until it is cancelled.
- IngressWorkers.PersistWorker.Run: ends after as many calls of handle as it is given ids, where the source goes on until it is cancelled.
- Whether each user of a repeated outbox record is reached: the gateway drops a repeated message id even if the user list differs, and relies on catch-up.
- The uniqueness of nonces across processes: they are a counter per process, and accepted answers do not need it.
- SegmentGenerator.Generator.Next: runs with one caller and the background load; several callers are the machine's steps in Segments.
- Steps inside the id generator's buffer store and swap: single atomics are not modelled, see `Segments.TornSwap`.
- Partial failures inside one Redis pipeline of the presence registry, and the difference between the gateway's clock and that of Redis.
- Gateway.Manager.PushToUserWithFailures: the connections stay as they are during one record; they come and go between records.
- TokenBucket.ExpiryUnseenIff: needs a whole capacity for the direction that finds a difference; the other direction holds for every capacity (`TokenBucket.SameKeys`).
- TokenBucket.RefusalsUnseenIff: is about whole capacities; for the store that never drops a key `TokenBucket.RefusedIsFree` holds for every capacity.
- The local fallback limiter and the retry-after hint of the rate limiter.
- MarkRead, AckReceived and the read and received cursors in MySQL: conditional updates that would only add easy members.
- Creating conversations, the uniqueness of direct chats, user search, HTTP handlers, WebSocket loops, heartbeats, JWT, Argon2, configuration and migrations.
