# Verified models of OpenGuard's protocols

OpenGuard is a set of services that share a few small protocols over databases, Redis and Kafka. This
project models those protocols in Dafny and proves what they promise over whole runs.

Each protocol has two layers. The first is a state machine: its steps are the single atomic calls to a
database, to Redis or to Kafka, any number of actors take them in any order, and a call may be
answered, be applied with its answer lost, or not be applied. The theorems are invariants and
statements over every run of that machine; where a property depends on what ran before, history is
part of the state (`chain`, `past`, `attempts`, `recorded`). The second layer is the code itself as
imperative Dafny: a class with the fields the source updates, methods with the source's branches and
loops, and between any two calls an arbitrary sequence of other actors' steps. Each such method proves
that what it did is a run of the machine; runs compose (`RunAppend`), so the theorems about runs apply
to any succession of calls. Where one call is one step (`MemoryStore`, `SdkCache`, `RateLimit`) its
method is proved equal to the function the machine or the history theorem is about, and the loops of
`Luhn` and `PolicyEvaluation` compute a declarative specification.

| files | protocol |
|---|---|
| `AuditChain`, `AuditReplay`, `AuditConsumer` | HMAC hash chain of the audit log: reserve, link, compare-and-swap, insert |
| `Outbox`, `OutboxDeliveries`, `OutboxDrains`, `OutboxWork`, `OutboxRelay` | transactional outbox: row locks, retries, dead letters, how often a row is delivered, how many drains a backlog needs and how many can ever commit |
| `RefreshTokens`, `RefreshService` | refresh-token rotation with families (section 4.14.2 of RFC 9700) |
| `PolicyEvaluation`, `PolicyCache`, `PolicyIndex`, `PolicyService` | policy decision, its stale-while-revalidate cache and the index used to invalidate it |
| `PolicyChanges` | policy mutations and their events in one transaction |
| `BruteForce`, `RateLimit` | sliding windows in Redis sorted sets |
| `MemoryStore`, `SdkCache`, `SdkPolicy` | bounded and expiring caches, and what an SDK allow rests on |
| `Luhn` | the Luhn check (Annex B of ISO/IEC 7812-1) |
| `Wrappers` | optional values, facts about finite sets, digits |

What stands for the outside world: HMAC-SHA256 (RFC 2104) is any injective function whose values are
non-empty and free of `|`; a CEL expression is any partial predicate of expression and request;
parsing an IP address to its /16 is any function of the text; UUIDs, token hashes and family ids are
opaque identifiers, and new ones are fresh; clocks, lock pages, answers of Kafka, Redis and the
databases are chosen by the run. A Redis pipeline, with the clock reading before it, is one step; one
organisation has one head document. Each protocol reads one clock, and it does not run back, except in
`MemoryStore`, where it may jump.

## Where code and comments differ

The model follows the code.

- services/audit/pkg/consumer/consumer.go:112-119 promises exactly-once writes with idempotent
  redelivery. The code inserts, so a redelivered event id is refused and ends the ordered write, and
  the loop at lines 88-108 drops a batch whether or not its flush succeeded. What is stored is
  therefore a union of batch prefixes (`StoredEventsArePrefixes`), and the log replays to the head
  exactly when nothing was lost (`LogReplaysIffComplete`).
- shared/kafka/outbox/relay.go:29 speaks of exactly-once delivery. A row can be delivered again after
  an error or a rollback (`RollbackDeliversTwice`); a published row was delivered at least once, and
  exactly once if and only if it has no stray delivery (`DeliveredOnceIff`).
- services/policy/pkg/service/service.go:150 names org, subject, action and resource as the cache
  key; the code also includes the user's groups.
- services/policy/pkg/service/service.go:541-542 describes invalidation as removing all keys of an
  organisation. It reads the index and deletes in two steps, and a decision stored in between can
  survive (`SweepCanMiss`); `SweepClearsIff` says when the organisation is cleared.

## Properties that fail, and when they hold

- A published outbox row is in the topic once if and only if no delivery of it was a stray: one that
  Publish reported as an error, or whose transaction was aborted, rolled back or crashed
  (`RollbackDeliversTwice`, `DeliveredOnceIff`).
- A two-step invalidation that finds a complete index clears the organisation if and only if no
  decision stored between the steps is live at the deletion under a key that was not read; if nothing
  of the organisation was stored it always does. An index stays complete as long as no sweep misses,
  and is complete again once none has missed for a minute (`SweepCanMiss`, `SweepClearsIff`,
  `StepKeepsCovered`, `IndexRecovers`).
- The rate limit of b + 1 requests per minute: for requests at distinct milliseconds always; for all
  arrivals if and only if b is not positive (`AlwaysBoundedIff`).
- A revoked token family stays dead if and only if no call of it is past its claim and still entitled
  to issue (`RevokedFamilyComesBack`, `FamilyReopensIff`).
- A set keeps `MemoryStore` within `maxKeys` unless a fresh key meets a full store that evicts nothing,
  because `maxKeys` is less than one or the empty string is its oldest key (`SetKeepsBoundIff`,
  `EmptyKeyBreaksBound`); without the empty key every run stays within it if and only if `maxKeys` is
  at least one (`BoundHoldsIff`).
- An allow of the SDK rests on the server's own recent allow of that request, in every run, if and only
  if its subject, action and resource have no colon (`SharedKeyIsGranted`, `TrustedIff`).

## Model

| member | source | states |
|---|---|---|
| `AuditChain.MessageInjective` | services/audit/pkg/consumer/consumer.go:192 | The MACed text "id, bar, previous hash" determines both parts when the previous hash has no bar, even if the id has one. |
| `AuditChain.KeyedSeparates` | services/audit/pkg/consumer/consumer.go:191-194 | A collision-free HMAC with non-empty, bar-free output gives link hashes that separate previous hashes and id texts. |
| `AuditChain.HashesDistinct` | services/audit/pkg/consumer/consumer.go:187-199 | On a linked chain no hash, the initial empty one included, stands at two positions (least repeated pair). |
| `AuditChain.SwapFindsNothingBetween` | services/audit/pkg/consumer/consumer.go:173-213 | When the compare-and-swap finds its snapshot, nothing was committed since the reservation: the reserved range lies above the whole chain. |
| `AuditChain.ExtendLinked` | services/audit/pkg/consumer/consumer.go:187-199 | Appending a locally linked batch at the head keeps every link and the strict growth of sequences. |
| `AuditChain.SwapKeepsInv` | services/audit/pkg/repository/repository.go:77-91 | A swap, applied, lost or refused, keeps the chain linked, tiled into consecutive batches and consistent with the head document and the stored events. |
| `AuditChain.ReserveKeepsInv` | services/audit/pkg/repository/repository.go:56-75 | A reservation, applied, lost or refused, hands out a range above every reserved one with a past head as its snapshot. |
| `AuditChain.InsertKeepsInv` | services/audit/pkg/repository/repository.go:43-54 | One insert of an ordered bulk write extends exactly the inserted prefix of its own batch, or ends the write. |
| `AuditChain.RunKeepsInv` | services/audit/pkg/consumer/consumer.go:120-247 | Every interleaving of any number of consumers, with crashes and lost answers, keeps the invariant. |
| `AuditChain.ChainIsLinearised` | services/audit/pkg/consumer/consumer.go:173-216 | In every reachable state swap order, link order and sequence order agree, ranges are consecutive inside a batch, and no head value ever repeats. |
| `AuditChain.SwapAppendsBatch` | services/audit/pkg/repository/repository.go:77-91 | A swap takes effect exactly when it arrives with the present head as snapshot, and then appends its batch, hashed from that head, above every committed sequence. |
| `AuditChain.HeadNeverReturns` | services/audit/pkg/repository/repository.go:77-91 | No ABA: two moments of a run show the same head if and only if nothing was committed between them. |
| `AuditChain.StoredEventsArePrefixes` | services/audit/pkg/repository/repository.go:43-54 | Whatever crashed or failed, the hashed stored events are exactly the inserted prefixes of the committed batches, each once, with the chain's own sequence and hash. |
| `AuditReplay.ReplayDeterminesLog` | services/audit/pkg/consumer/consumer.go:187-199 | Tamper evidence: two logs that replay to the same head have the same length and the same id texts and hashes at every position. |
| `AuditReplay.LogReplaysIffComplete` | services/audit/pkg/consumer/consumer.go:187-234 | Replaying the stored events in sequence order recomputes the head if and only if every committed batch was inserted to its end. |
| `AuditConsumer.LinkEvents` | services/audit/pkg/consumer/consumer.go:187-199 | The linking loop, in place: sequences count up from the start, every hash covers the one before, and the last hash is the new head. |
| `AuditConsumer.AuditSystem.ReserveSequence` | services/audit/pkg/repository/repository.go:56-75 | Increments the counter document and reads the head in one step; the start is the value before the increment. |
| `AuditConsumer.AuditSystem.UpdateHashChainCAS` | services/audit/pkg/repository/repository.go:77-91 | Replaces the head if it still is the expected one and says whether it did; nothing else is touched. |
| `AuditConsumer.AuditSystem.InsertOne` | services/audit/pkg/repository/repository.go:43-54 | One insert; refused on a duplicate event id, which ends the write. |
| `AuditConsumer.AuditSystem.BulkWrite` | services/audit/pkg/repository/repository.go:43-54 | Inserts in order and stops at the first refusal; success means every event is stored. A run of the chain's machine. |
| `AuditConsumer.AuditSystem.ExtendChain` | services/audit/pkg/consumer/consumer.go:201-213 | With a secret the head is swapped; a mismatch retries, an error gives the batch up; without a secret there is nothing to swap. |
| `AuditConsumer.AuditSystem.Attempt` | services/audit/pkg/consumer/consumer.go:173-216 | One round of reserve, link, swap, with any steps of others between the calls, is a run of the chain's machine. |
| `AuditConsumer.AuditSystem.Flush` | services/audit/pkg/consumer/consumer.go:120-234 | A whole flush is a run of the chain's machine; success means every event of the batch is stored, hashed exactly when there is a secret. |
| `Outbox.PublishKeepsInv` | shared/kafka/outbox/relay.go:179-216 | Publishing a locked row, delivered or not, keeps locks exclusive and the staged updates equal to attempts on the locked rows. |
| `Outbox.CommitKeepsInv` | shared/kafka/outbox/relay.go:219-221 | Committing or rolling back a drain keeps every row consistent with its committed failures and deliveries. |
| `Outbox.FetchKeepsInv` | shared/kafka/outbox/relay.go:137-145 | Locking a page of unlocked eligible rows keeps locks exclusive. |
| `Outbox.StepKeepsInv` | shared/kafka/outbox/relay.go:127-241 | Every statement of every relay and writer keeps the row and lock invariants. |
| `Outbox.RowsStayConsistent` | shared/kafka/outbox/relay.go:137-241 | In every reachable state: attempts in 0..5, dead iff dead_at iff five failures committed, failed implies as many committed failures as attempts, 1 to 4, published implies delivered and one attempt more than failures, and eligible exactly until terminal. |
| `Outbox.LocksAreExclusive` | shared/kafka/outbox/relay.go:137-145 | In every reachable state no two relays hold one row. |
| `Outbox.TerminalRowsNeverChange` | shared/kafka/outbox/relay.go:137-145 | Over any run a published or dead row never changes, no row disappears, attempts never fall, and the topic log before is a prefix of the one after. |
| `OutboxDeliveries.StagedIsHeld` | shared/kafka/outbox/relay.go:137-145 | A row whose publication waits for a commit is locked by one relay, unpublished, and staged by no other. |
| `OutboxDeliveries.StepBalances` | shared/kafka/outbox/relay.go:179-222 | What any step adds to the copies of a row in the topic is what it adds to its strays, its publication and its staging. |
| `OutboxDeliveries.DeliveriesAreCounted` | shared/kafka/outbox/relay.go:127-222 | In every reachable state the copies of a row in the topic are its stray deliveries, plus one if it is published or its publication waits for a commit. |
| `OutboxDeliveries.DeliveredOnceIff` | shared/kafka/outbox/relay.go:29 | The exactly-once promise: a published row is in the topic exactly once if and only if no delivery of it was reported as an error or lost with its transaction; it is there at least once always. |
| `OutboxDeliveries.RollbackDeliversTwice` | shared/kafka/outbox/relay.go:213-221 | A concrete run: one rolled-back drain, then a committed one, and the published row is in the topic twice. |
| `OutboxDrains.ReachableIsBounded` | shared/kafka/outbox/relay.go:179-206 | Every reachable table may start a series of solo drains: undelivered rows have 0 to 4 attempts. |
| `OutboxDrains.SoloDrainDrains` | shared/kafka/outbox/relay.go:127-222 | The steps of one undisturbed, committed drain change the table exactly as the counted drains do and leave every relay idle again; an empty page does nothing. |
| `OutboxDrains.LeftDrops` | shared/kafka/outbox/relay.go:179-216 | A drain lowers the attempts left by at least one for every row of its page, whatever Publish answers. |
| `OutboxDrains.BacklogIsDrained` | shared/kafka/outbox/relay.go:135-222 | Over any series of counted drains n eligible rows are all published or dead after floor(5n/100) + 5, whatever Publish answers and however ties are ordered. |
| `OutboxDrains.OvertakersAreOld` | shared/kafka/outbox/relay.go:137-145 | With distinct creation times a row of the oldest page is never passed over. |
| `OutboxDrains.OldestFirstIsFair` | shared/kafka/outbox/relay.go:135-222 | With distinct creation times m pages of rows are all published or dead after 5m counted drains. |
| `OutboxDrains.PageForAnyTable` | shared/kafka/outbox/relay.go:137-145 | Every table has a page the query may return, so a series of drains never stalls. |
| `OutboxDrains.RoundsAreDrains` | shared/kafka/outbox/relay.go:127-222 | A run of undisturbed drains of idle relays is a series of counted drains and ends with all relays idle. |
| `OutboxDrains.RunDrainsBacklog` | shared/kafka/outbox/relay.go:135-222 | Of runs: from any reachable state with no row locked, floor(5n/100) + 5 undisturbed drains leave all n eligible rows published or dead, for any answers, lost or falsely failed ones included. |
| `OutboxDrains.RunDrainsPages` | shared/kafka/outbox/relay.go:135-222 | Of runs: with distinct creation times 5m undisturbed drains do the same for m pages. |
| `OutboxWork.AttemptsAreCommitted` | shared/kafka/outbox/relay.go:179-221 | In any interleaving the attempts recorded in the table add up to the rows of all committed drains. |
| `OutboxWork.WorkIsBounded` | shared/kafka/outbox/relay.go:127-222 | In any interleaving of any number of relays and writers, for n rows ever written the committed drains try at most 5n rows in all, so at most 5n drains ever commit. |
| `OutboxRelay.OthersLeaveHeldRows` | shared/kafka/outbox/relay.go:137-145 | Whatever other relays and writers do, a locked row and its relay's progress stay as they are. |
| `OutboxRelay.OutboxTable.WriteTx` | shared/kafka/outbox/writer.go:21-32 | The committed event row is pending with no attempts and eligible; nothing else changes. |
| `OutboxRelay.OutboxTable.UpdateRecord` | shared/kafka/outbox/relay.go:225-241 | Stages status, attempts and dead_at of one row; a failed statement aborts the transaction. |
| `OutboxRelay.OutboxTable.StageOutcome` | shared/kafka/outbox/relay.go:189-217 | A failure stages failed, or dead with dead_at at the fifth attempt; a success stages published. |
| `OutboxRelay.OutboxTable.PublishNext` | shared/kafka/outbox/relay.go:179-217 | Publishes one record and stages its outcome: one step of the machine. |
| `OutboxRelay.OutboxTable.CommitDrain` | shared/kafka/outbox/relay.go:219-221 | Commits exactly the staged updates, or nothing if the transaction is aborted or the commit fails. |
| `OutboxRelay.OutboxTable.Drain` | shared/kafka/outbox/relay.go:127-222 | A drain among any other relays is a run of the machine; if it commits, every row of its page counts exactly its one attempt, else none changes. |
| `RefreshTokens.RevokesOnFamilyAndSubnet` | services/iam/pkg/service/auth.go:196-216 | The risk score reaches the revocation threshold if and only if the browser family and the /16 subnet have both changed. |
| `RefreshTokens.ClaimKeepsInv` | services/iam/pkg/repository/repository_token.go:56-77 | The claiming UPDATE, answered, lost or refused, keeps one live credential per family and one claim per token. |
| `RefreshTokens.IssueKeepsInv` | services/iam/pkg/repository/repository_token.go:15-23 | Inserting the next token ends the call that was entitled to it, so the family stays single. |
| `RefreshTokens.StepKeepsInv` | services/iam/pkg/service/auth.go:83-142 | Every step of every login and refresh keeps the invariant. |
| `RefreshTokens.FamiliesStaySingle` | services/iam/pkg/service/auth.go:101-142 | In every interleaving: at most one of unrevoked token and in-flight refresh per family, no token claimed twice, one user and organisation per family. |
| `RefreshTokens.ClosedForever` | services/iam/pkg/service/auth.go:118-142 | A family that is fully revoked with no call past its claim stays so over every run. |
| `RefreshTokens.RevocationIsFinal` | services/iam/pkg/service/auth.go:118-142 | Once a refresh has had the family revoked with no other refresh of it in flight, every later claim of any of its tokens is refused, over every run. |
| `RefreshTokens.FamilyReopensIff` | services/iam/pkg/service/auth.go:118-142 | A fully revoked family gets a live token again in some continuation if and only if some call of it is past its claim and not judged risky. |
| `RefreshTokens.RevokedFamilyComesBack` | services/iam/pkg/service/auth.go:118-142 | A concrete run from the start: a token presented twice has its family revoked while its first refresh is past the claim, and that refresh then issues an unrevoked token of the family. |
| `RefreshService.OthersLeaveCall` | services/iam/pkg/service/auth.go:118-142 | Other calls never move this call, remove a token, un-revoke one or change its family and owner. |
| `RefreshService.TokenService.ClaimRefreshToken` | services/iam/pkg/repository/repository_token.go:56-77 | Revokes and returns the row exactly when it is unrevoked and unexpired and the answer arrives; otherwise the call is rejected. |
| `RefreshService.TokenService.RevokeRefreshTokenFamily` | services/iam/pkg/repository/repository_token.go:45-53 | If applied, every token of the family is revoked; nothing else changes. |
| `RefreshService.TokenService.RevokeRefreshTokenFamilyByHash` | services/iam/pkg/repository/repository_token.go:80-90 | If applied and the hash is known, every token of its family is revoked. |
| `RefreshService.TokenService.CreateRefreshToken` | services/iam/pkg/repository/repository_token.go:15-23 | Inserts the token of the call's family and owner with seven days to live; an existing hash is refused. |
| `RefreshService.TokenService.BeginAndClaim` | services/iam/pkg/service/auth.go:118-124 | The claim with others' steps before it; success means the presented token was unrevoked before and is revoked now. |
| `RefreshService.TokenService.DecideRisk` | services/iam/pkg/service/auth.go:126-131 | The call turns risky exactly when there is a session and the score against it reaches the threshold. |
| `RefreshService.TokenService.IssueTokens` | services/iam/pkg/service/auth.go:83-116 | Session row, then token row; success leaves one new unrevoked token of the family and owner. |
| `RefreshService.TokenService.JudgeAndIssue` | services/iam/pkg/service/auth.go:126-141 | After the claim: a risky device revokes the family, otherwise the next token is issued. |
| `RefreshService.TokenService.RefreshToken` | services/iam/pkg/service/auth.go:118-142 | One refresh is a run of the machine; an issued token replaces a used-up one of the same family and owner; a refusal leaves the family revoked if its statement applied. |
| `PolicyEvaluation.DenotesIffForms` | services/policy/pkg/service/service.go:394-415 | A glob matches exactly by its three forms: the literal, q* as prefix, q:* also without the colon. |
| `PolicyEvaluation.MatchesGlob` | services/policy/pkg/service/service.go:396-415 | The matching loop accepts a value if and only if some pattern denotes it. |
| `PolicyEvaluation.Hear` | services/policy/pkg/service/service.go:314-374 | The switch over a policy's type yields its voice: silent, allows or denies. |
| `PolicyEvaluation.Evaluate` | services/policy/pkg/service/service.go:298-388 | The evaluation loop computes the declarative decision: allow iff some policy allows and none denies, the matching ids in order, the greatest matching version. |
| `PolicyEvaluation.DecideConcat` | services/policy/pkg/service/service.go:298-388 | Decisions compose over concatenation of policy lists: matches concatenate, versions take the maximum, an explicit deny on either side denies. |
| `PolicyEvaluation.DecidePermuted` | services/policy/pkg/service/service.go:298-388 | Permuting the policies changes neither effect nor version and only permutes the matches. |
| `PolicyCache.ReadKeepsFresh` | services/policy/pkg/service/service.go:246-263 | Reading the policies makes a flight's decision one the database gives now; a failed read is the fail-closed deny. |
| `PolicyCache.StoreKeepsFresh` | services/policy/pkg/service/service.go:269-289 | Storing a decision, even over a newer one, keeps every entry within a minute and delta of the truth. |
| `PolicyCache.AskKeepsFresh` | services/policy/pkg/service/service.go:170-209 | A live hit, stale or not, is right within the bound; a miss joins or starts a flight. |
| `PolicyCache.RunKeepsFresh` | services/policy/pkg/service/service.go:170-289 | Every interleaving of evaluations, refreshes, invalidations and policy changes keeps all entries, flights and answers within their bounds. |
| `PolicyCache.AnswersAreFresh` | services/policy/pkg/service/service.go:170-289 | Every answer is the fail-closed deny of a failed read, or what the database gave this request within a minute plus delta before a cached answer, within delta before the end of the joined flight. |
| `PolicyIndex.StepKeepsCovered` | services/policy/pkg/service/service.go:269-286 | An index that lists every live decision of an organisation goes on doing so after a step if and only if the step is not a sweep that leaves a live decision behind. |
| `PolicyIndex.RunKeepsCovered` | services/policy/pkg/service/service.go:269-289 | As long as no sweep has missed a decision of an organisation, every live decision is in its index, which outlives it. |
| `PolicyIndex.IndexRecovers` | services/policy/pkg/service/service.go:269-289 | Whatever was missed before: once no sweep has missed a decision of the organisation for longer than a decision lives, its index is complete again. |
| `PolicyIndex.QuietIndexIsComplete` | services/policy/pkg/service/service.go:269-289 | Over whole runs: an index is complete if its last miss, if any, lies longer back than a decision lives. |
| `PolicyIndex.InvalidationClears` | services/policy/pkg/service/service.go:543-565 | With each invalidation one step, invalidating an organisation leaves no live decision of it. |
| `PolicyIndex.RunRevivesNothing` | services/policy/pkg/service/service.go:269-286 | Over any run a decision is live at the end only if it was live at the start or was stored in between. |
| `PolicyIndex.SweepClearsIff` | services/policy/pkg/service/service.go:543-565 | The real two-step invalidation, with any run between its steps, from a complete index: it clears the organisation if and only if no decision stored in between is live at the deletion under a key that was not read; in particular when nothing of the organisation was stored. |
| `PolicyIndex.SweepCanMiss` | services/policy/pkg/service/service.go:543-565 | A concrete race: a decision stored between the two steps survives unindexed, and a second invalidation misses it too. |
| `PolicyService.OthersLeave` | services/policy/pkg/service/service.go:211-214 | Other calls never touch this call's flight, its place in line or its sweep. |
| `PolicyService.Service.ReadPolicies` | services/policy/pkg/service/service.go:246-263 | Evaluates the present policies or fails closed and ends the flight. |
| `PolicyService.Service.StoreDecision` | services/policy/pkg/service/service.go:269-286 | The pipeline SET, SADD, EXPIRE: a minute for the decision, a day for the index. |
| `PolicyService.Service.EvaluateFromDB` | services/policy/pkg/service/service.go:246-289 | One flight, or one background refresh, with others between its calls, is a run of the machine that ends done. |
| `PolicyService.Service.Lookup` | services/policy/pkg/service/service.go:170-214 | The cache check and the singleflight join: a hit answers, a miss waits on a flight of its own key. |
| `PolicyService.Service.Await` | services/policy/pkg/service/service.go:216-242 | Delivers the joined flight's decision, or gives up. |
| `PolicyService.Service.EvaluateRequest` | services/policy/pkg/service/service.go:170-243 | One evaluation is a run of the machine whose answer meets the staleness bound. |
| `PolicyService.Service.InvalidateOrgCache` | services/policy/pkg/service/service.go:543-565 | Reads the index and deletes what it read, with others between; from a complete index the organisation is cleared iff nothing stored in between was missed. |
| `PolicyChanges.CommitKeepsInv` | services/policy/pkg/service/service.go:431-503 | Committing a staged row and its staged event together keeps events and versions in step. |
| `PolicyChanges.EventsMatchVersions` | services/policy/pkg/service/service.go:431-503 | In every reachable state a policy has one created row, one updated row per version gained and a deleted row iff it is gone, all of its organisation. |
| `PolicyChanges.VersionsOnlyGrow` | services/policy/pkg/repository/repository.go:211-273 | Over any run versions never fall and a deleted policy never returns. |
| `PolicyChanges.PolicyStore.MutateTx` | services/policy/pkg/repository/repository.go:211-273 | Stages what INSERT, UPDATE version + 1 or DELETE yields for the row, or ends the transaction when no row is affected. |
| `PolicyChanges.PolicyStore.CommitTx` | services/policy/pkg/service/service.go:448-453 | Row and event become visible together or not at all; an answer may be lost after they did. |
| `PolicyChanges.PolicyStore.PublishAndCommit` | services/policy/pkg/service/service.go:444-453 | Stages the event and commits: row and event take effect in one last step, on success or when only the answer was lost, or nothing was committed. |
| `PolicyChanges.PolicyStore.Apply` | services/policy/pkg/service/service.go:431-503 | One mutation among any others is a run of the machine; on success its last step puts the row the statement makes, an updated version one higher, and the event in place together; on failure no step of this call changes a table, unless that last step took effect and its answer was lost. |
| `BruteForce.NewerTwice` | services/threat/pkg/detector/brute_force.go:130 | Pruning early and again later is pruning once, later. |
| `BruteForce.ScoresAreHistory` | services/threat/pkg/detector/brute_force.go:124-133 | What pruning leaves of the expiring set is what it leaves of the full history. |
| `BruteForce.CountIsExact` | services/threat/pkg/detector/brute_force.go:120-143 | Over every run the ZCARD seen is the number of attempts in the full history newer than five minutes ago. |
| `BruteForce.AlertsAreDeduplicated` | services/threat/pkg/detector/brute_force.go:145-159 | Alerts are at least five minutes apart, and a consumer past the threshold and the marker knows one fired within the last five minutes. |
| `BruteForce.Detector.RemoveUpTo` | services/threat/pkg/detector/brute_force.go:130 | The removal loop leaves exactly the scores above the bound, in order. |
| `BruteForce.Detector.CountAttempt` | services/threat/pkg/detector/brute_force.go:124-142 | The pipeline adds, prunes, counts and renews the expiry. |
| `BruteForce.Detector.FireOnce` | services/threat/pkg/detector/brute_force.go:145-157 | SET NX with a lifetime: fires only when no alert is marked. |
| `BruteForce.Detector.TrackFailedAttempt` | services/threat/pkg/detector/brute_force.go:120-160 | One attempt with others between its two calls is a run; its count is exact and at the threshold an alert has fired within the last window. |
| `RateLimit.BucketIsHistory` | shared/middleware/ratelimit.go:110-120 | The pruned, expiring bucket is the full history restricted to the last minute. |
| `RateLimit.BurstIsBounded` | shared/middleware/ratelimit.go:110-126 | Over every run the admitted requests of any minute fall on at most b + 1 distinct milliseconds. |
| `RateLimit.DistinctRequestsAreBounded` | shared/middleware/ratelimit.go:110-126 | For requests at distinct milliseconds at most b + 1 are admitted in any minute. |
| `RateLimit.AlwaysBoundedIff` | shared/middleware/ratelimit.go:117 | The member is the time, so simultaneous requests count once: the bound holds for all arrivals if and only if b is not positive. |
| `RateLimit.RateLimiter.IsAllowed` | shared/middleware/ratelimit.go:110-126 | Admits exactly when the earlier requests of the last minute fall on at most b distinct milliseconds; only this address's history grows. |
| `MemoryStore.RunKeepsValid` | packages/middleware/src/stores/memory.ts:16-52 | Over any run every key stands exactly once in the insertion order. |
| `MemoryStore.SetKeepsBoundIff` | packages/middleware/src/stores/memory.ts:26-37 | A set keeps size within maxKeys if and only if the key is present, or there is room, or maxKeys is at least 1 and the oldest key is not the empty string. |
| `MemoryStore.SizeIsBounded` | packages/middleware/src/stores/memory.ts:26-37 | Without the empty key no run exceeds maxKeys, or one key where maxKeys is less than 1. |
| `MemoryStore.BoundHoldsIff` | packages/middleware/src/stores/memory.ts:12-37 | Without the empty key every run stays within maxKeys if and only if maxKeys is at least 1. |
| `MemoryStore.EmptyKeyBreaksBound` | packages/middleware/src/stores/memory.ts:27-30 | With the empty key first nothing is ever evicted: any number of distinct keys stays. |
| `MemoryStore.KeepsNewest` | packages/middleware/src/stores/memory.ts:26-37 | Distinct insertions into an empty store leave exactly the newest maxKeys, in order. |
| `MemoryStore.HitsAreTheLastSet` | packages/middleware/src/stores/memory.ts:16-48 | Over any run and any clock a hit is what an unbounded, never-forgetting TTL map answers: the value last set, unexpired. |
| `MemoryStore.Survives` | packages/middleware/src/stores/memory.ts:26-37 | A key with k keys behind it survives fewer than maxKeys - k fresh insertions unless deleted, cleared or read expired. |
| `MemoryStore.FreshKeySurvives` | packages/middleware/src/stores/memory.ts:26-37 | A freshly inserted key survives the next maxKeys - 1 fresh insertions unless taken out, and is answered exactly as by the unbounded map. |
| `MemoryStore.CountRoundTrip` | packages/middleware/src/stores/memory.ts:41-42 | Every count written as text is read back as itself, negative ones and NaN included. |
| `MemoryStore.IncrCountsStreak` | packages/middleware/src/stores/memory.ts:39-44 | Sequential increments of an absent key count the calls since the last gap longer than the time to live, each renewing the expiry. |
| `MemoryStore.MemoryStore.constructor` | packages/middleware/src/stores/memory.ts:12-14 | Starts empty; 10000 keys unless told otherwise. |
| `MemoryStore.MemoryStore.Get` | packages/middleware/src/stores/memory.ts:16-24 | The value unless absent or expired; an expired key is deleted. |
| `MemoryStore.MemoryStore.Set` | packages/middleware/src/stores/memory.ts:26-37 | Evicts the oldest non-empty key for a fresh key at the bound, keeps a present key's place, expires only with a non-zero ttl. |
| `MemoryStore.MemoryStore.Incr` | packages/middleware/src/stores/memory.ts:39-44 | Get, add one or start at one, set: one count up when nothing comes between. |
| `MemoryStore.MemoryStore.Del` | packages/middleware/src/stores/memory.ts:46-48 | Removes the key and its place only. |
| `MemoryStore.MemoryStore.Clear` | packages/middleware/src/stores/memory.ts:50-52 | Empties the store. |
| `MemoryStore.MemoryStore.Size` | packages/middleware/src/stores/memory.ts:54-56 | The number of keys held, expired ones included. |
| `SdkCache.RunsAgree` | sdk/cache.go:34-92 | The evicting cache lacks only entries more than a minute past their expiry. |
| `SdkCache.EvictionIsUnobservable` | sdk/cache.go:34-92 | Under any interleaving of sets, reads and eviction passes every Get and GetOrStale answers as if nothing were ever evicted. |
| `SdkCache.LocalCache.Get` | sdk/cache.go:56-65 | The value until it has expired. |
| `SdkCache.LocalCache.GetOrStale` | sdk/cache.go:67-82 | The value until a minute after it has expired. |
| `SdkCache.LocalCache.Set` | sdk/cache.go:84-92 | The key maps to the value with a full lifetime; the rest is unchanged. |
| `SdkCache.LocalCache.EvictExpired` | sdk/cache.go:42-51 | The loop deletes exactly the entries expired for more than a minute, in any order of keys. |
| `SdkPolicy.KeyInjective` | sdk/policy.go:20 | The joined key determines all four parts when organisation, subject and action have no colon. |
| `SdkPolicy.CollidesIff` | sdk/policy.go:20 | Within an organisation a request shares its key with another one if and only if its subject, action or resource has a colon. |
| `SdkPolicy.RunKeepsInv` | sdk/policy.go:19-46 | Every interleaving of calls in which no other request shares this request's key keeps its entry the server's own answer to it. |
| `SdkPolicy.UnrivalledAllowIsBacked` | sdk/policy.go:19-46 | Fail-closed: every allow of a request whose key no other request of the run shares rests on the server's own allow of it, less than ttl + 60 s old. |
| `SdkPolicy.AllowsAreTheServers` | sdk/policy.go:19-46 | Fail-closed, in a run with no colon in subjects and actions: every allow rests on the server's own allow of exactly this request, less than ttl + 60 s old. |
| `SdkPolicy.TrustedIff` | sdk/policy.go:19-46 | Fail-closed, over all runs: every allow of a request rests on the server's own recent allow of it if and only if its subject, action and resource have no colon. |
| `SdkPolicy.SharedKeyIsGranted` | sdk/policy.go:20-25 | Of two requests with one key the second is allowed on the answer to the first, which the server never gave it. |
| `SdkPolicy.Client.LookUp` | sdk/policy.go:22-25 | A hit, fresh or in grace, answers; a miss goes on to the server. |
| `SdkPolicy.Client.Receive` | sdk/policy.go:35-45 | An answer is kept and returned; an error is the fail-open setting. |
| `SdkPolicy.Client.Allow` | sdk/policy.go:19-46 | One call among any others is a run of the machine, and its answer is the recorded grant. |
| `Luhn.LuhnCheck` | services/dlp/pkg/scanner/regex.go:42-70 | The two loops accept exactly the strings of at least 13 digits whose weighted digit sum is divisible by ten. |
| `Luhn.SumUpdate` | services/dlp/pkg/scanner/regex.go:58-68 | Replacing one digit changes the sum by the difference of the two weights at its parity. |
| `Luhn.SingleErrorIsDetected` | services/dlp/pkg/scanner/regex.go:42-70 | Of two equally long digit strings differing in one digit at most one is accepted. |
| `Luhn.TranspositionDetectedIff` | services/dlp/pkg/scanner/regex.go:42-70 | Swapping adjacent digits of an accepted string is accepted if and only if they are equal or are 0 and 9. |
| `Luhn.CheckDigitIsUnique` | services/dlp/pkg/scanner/regex.go:42-70 | A payload of at least 12 digits has exactly one accepting check digit. |

## Left out

- Loss-freedom and idempotent redelivery of audit events: the code does not have them (see above).
- AuditChain: batches that mix organisations. A batch joins the chain of its first event's
  organisation, as in the code; one model instance is one chain.
- AuditChain.ReserveKeepsInv: one head document per organisation. No unique index on
  hash_chains.org_id is created (services/audit/pkg/repository/repository.go:23-30 indexes audit_events only), so two first upserts
  at once could make two; that is not modelled.
- AuditChain.ReplayDeterminesLog: the MAC covers the event id only, so payloads may differ between two
  logs with one head. Event ids are strings or absent; other JSON values, which print as text, are not
  modelled, and the 64-bit sequence counter is unbounded.
- AuditConsumer.LinkEvents: a decoded message that carries an integrity_hash of its own. Without a secret
  the code inserts it unchanged (services/audit/pkg/consumer/consumer.go:142-150, 191); the model's
  events carry none before they are linked.
- AuditConsumer.AuditSystem.Flush: message decoding, tracing, metrics, pauses between retries and the
  Kafka offset commit.
- OutboxDrains.RunDrainsBacklog: for drains that run one after another, undisturbed, and commit; for
  interleaved relays WorkIsBounded bounds the drains that can commit, but not when a backlog is done.
  No order of messages per key is claimed, because a failed row is retried after later rows.
- OutboxRelay.OutboxTable.Drain: rows that fail to scan, the notification and polling loops, and the
  error text kept in last_error.
- OutboxRelay.OutboxTable.WriteTx: the row is seen at its transaction's commit; `PolicyChanges` models
  such a transaction in full.
- RefreshTokens: password checks, lockout, MFA, signing of access tokens, row-level security, and
  DeleteRefreshToken, which no rotation calls. A login appears as the start of a new family.
- RefreshTokens.RevokesOnFamilyAndSubnet: IP parsing is a parameter; any function of the address text
  may stand for it.
- PolicyEvaluation: JSON decoding of the logic column is a datatype with an unparsable case. The cache
  is keyed by the request itself, that is, SHA-256 of its JSON form is taken to be injective.
- PolicyCache.AnswersAreFresh: `delta` is the longest time a flight takes from its read to its write;
  flights that exceed it do not store in the model.
- PolicyService: the circuit breaker, the bound on concurrent background refreshes (a refresh may be
  skipped at any hit), latency fields, and the evaluation log.
- PolicyChanges.PolicyStore.MutateTx: a statement that meets another transaction's row lock gives up
  instead of waiting; waiting is covered by the interleaving before it. Assignments have no events.
- PolicyIndex.SweepClearsIff: from an index that is complete when it is read; RunKeepsCovered and
  IndexRecovers say when it is.
- RateLimit, BruteForce, PolicyCache: a pipeline of commands, with the clock reading before it, is one
  step. go-redis does not wrap a pipeline in MULTI and EXEC, so commands of two pipelines could
  interleave, or arrive in another order than their clocks were read; the bounds are not claimed then.
- BruteForce: one key is modelled, as keys do not interact; Redis errors, the published payload and the
  threat list are left out.
- RateLimit.RateLimiter.IsAllowed: the in-memory limiter in front, which can only refuse more, and the
  fallback that admits on a Redis error.
- MemoryStore.MemoryStore.Incr: no other call between its get and its set; interleaved increments can
  lose updates. Counts are unbounded integers, and only ASCII space is skipped before a number.
- SdkPolicy: HTTP transport, retries and Close; the time an answer arrives stands for the time the
  server gave it.
- Floating-point scores, regular-expression detectors, masking, webhooks, sagas, user registration,
  HTTP handlers, telemetry and user interfaces: no invariant over runs, or only easy members.
