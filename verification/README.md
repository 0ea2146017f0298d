# Posts, related posts and revocations: a model of the event pipeline

Two services keep data about the same blog posts. The posts service writes a post and an outbox row
describing the write in one transaction. A relay moves outbox rows to Kafka at least once. The related
service consumes the events and maintains, for every post, a map from the other posts' slugs to a
similarity score. An auth service issues access and refresh tokens, and announces revocations through
an outbox and a relay of its own; the posts and related services each keep a denylist.

This project models that machinery in Dafny and proves what it keeps, in every run.

| file | content |
|---|---|
| `TitleText.dfy`, `Similarity.dfy` | title cleaning, 2-gram profiles, the cosine score kept as an exact pair of integers |
| `RelatedTable.dfy` | the three event handlers as functions, and the from-scratch view they must equal |
| `RelatedConsumer.dfy` | the consumer as imperative code: handlers with row loops, the message handler, the offset loop |
| `PostsService.dfy` | requests that write a post and its outbox row together |
| `Replay.dfy`, `SlugReuse.dfy` | what the related table holds after events, in outbox order and in any other order |
| `OutboxRelay.dfy`, `Publishing.dfy` | one relay pass as code; any number of relays as a step machine |
| `Consuming.dfy` | a consumer group as a step machine |
| `Pipeline.dfy` | both machines run together, end to end |
| `RefreshTokens.dfy` | refresh token rotation and revocation with their real, separate statements and transactions |
| `AuthRelay.dfy` | the auth service's relay pass, and its place among any number of relays |
| `Denylists.dfy` | the two denylists and their consumers, fed by one topic |
| `RevocationPipeline.dfy` | revocations end to end: auth transactions, outbox, relays without locks, log, denylists |
| `Base64.dfy`, `Decimal.dfy`, `PasswordHash.dfy` | the encoded password hash, printed and parsed |
| `Common.dfy` | small shared types and facts |

How the pieces fit: the pure functions (`RelatedTable.Apply`, `OutboxRelay.Claimed`, `Denylists.PostsHandled`,
`RefreshTokens.Stored` and so on) say what one operation does. The classes are imperative versions proved against
those functions, and the step machines use the same functions for their steps. The links are lemmas too:
`Publishing.RunOnceIsARun` for the posts relay, `AuthRelay.PassIsARun` for the auth relay,
`Pipeline.HandlingIsCheckAndApply` for the message handler, and `RefreshTokens.LoginIsARun`,
`RefreshTokens.RefreshIsARun` and `RefreshTokens.RevokeIsARun` for the auth handlers.
`Publishing` is one machine for both outboxes: `Pipeline` runs it with posts events, `RevocationPipeline` with
revocations and without locks.

## Where the code and its documentation disagree

- `README.md:177-179` says that a post's create, update and delete cannot overtake each other. They go to
  three topics (`services/posts/posts/views.py:9-11`), so order holds within one topic only.
  `Replay.LateCreateResurrects` gives an input; `Replay.ConvergedIffDeletesCameLast` and
  `Pipeline.AppliedEverythingConvergesIffDeletesCameLast` say exactly when the table still converges.
- `services/related/consumer.py:201` says a failed message is redelivered, and `README.md:248` that it blocks its
  partition. `consumer.commit()` (`services/related/consumer.py:231`) takes no offset; the model assumes, as
  kafka-python documents, that it commits every position the consumer has reached. A later success then passes
  over the failure: `Consuming.LaterSuccessPassesOverFailure`, and exactly which messages are lost:
  `Consuming.CommitSkipsExactlyOutstandingFailures`.
- `services/auth/internal/store/store.go:169` says the claim locks rows against other publishers. The query runs
  outside a transaction, so its locks end with the statement. `Publishing.ClaimsWithoutLocksOverlap` is a run in
  which two relays hold one row. `Publishing.RunsExcludeIffClaimsAreClear` says exactly when claims exclude each
  other: when no claim takes a row that is in a pass whose claim has ended. Claims that overlap in time skip each
  other's rows and are clear; where none overlap, this means that no two passes are ever open at once
  (`Publishing.UnlockedRunsExcludeIffPassesNeverOverlap`).
- `README.md:144` has the revocation in one transaction, and `services/auth/internal/store/store.go:143-147` revokes
  all the user's refresh tokens in it; yet a token stored between that update and the commit is still redeemable
  after the commit (`RefreshTokens.StoredMeanwhileSurvives`). Exactly the live tokens stored since the update
  survive (`RefreshTokens.CommitLeavesExactlyTheLater`), so none does if and only if none was stored
  (`RefreshTokens.CommitLeavesNoneIffNoneStoredSince`).
- `services/posts/posts/management/commands/consume_revocations.py:72-74` says a malformed payload is committed so as
  not to block the partition. That holds for a missing key, a wrong type and an impossible date. A record that is
  not JSON, and a row the database refuses (a date without the form of one, which is parsed to None; a null; an id
  over 64 characters) end the process with an error nobody catches, and it meets the record again.
  `Denylists.PostsDenylist.Apply` has the exact condition, `Denylists.FatalRecordBlocks` the consequence.
- `services/related/consumer.py:201` says a failed revocation is redelivered. As for posts events, a later success
  passes over it: `Denylists.RelatedAcceptsIffPassedOver` says exactly when a revoked token stays accepted.
- An update that changes a post's slug leaves the old slug in the other rows
  (`services/related/consumer.py:115-125`): `Replay.RenameBreaksTheView`, with the exact condition in
  `RelatedTable.UpdateKeepsExactIffSlugKept` and `Replay.UpdatedIsViewIffSlugKept`.

## Model

| member | source | states |
|---|---|---|
| `TitleText.EqualStripGivesEqualClean` | services/related/consumer.py:59-61 | titles equal after stripping have equal clean forms, for every lower casing that works word by word |
| `TitleText.CleanIsIdempotent` | services/related/consumer.py:59-61 | cleaning a clean title changes nothing, for every text and every lower casing that works word by word |
| `TitleText.CleanMeans` | services/related/consumer.py:59-61 | whichever way a text is stripped of punctuation, split into words, lower-cased word by word and freed of stop words, all by place and in order, the clean form is the kept words with one space between them |
| `TitleText.CleanKeepsAllButStopwords` | services/related/consumer.py:43-61 | no stop word is in a clean title, and every lower-cased word of the title that is none is in it |
| `TitleText.CharacterClasses` | services/related/consumer.py:60-61 | punctuation and whitespace are exactly the listed characters |
| `TitleText.StripMeans` | services/related/consumer.py:110 | a text is whitespace, its stripped form, and whitespace, and the stripped form has none at its ends |
| `Similarity.SimilarIsSymmetric` | services/related/consumer.py:64-72 | the score does not depend on the order of the two titles, although the sum runs over the smaller profile only |
| `Similarity.ScoreCountsMatchingPairs` | services/related/consumer.py:64-72 | the score is the number of pairs of places with the same two characters in both clean titles, over the root of the numbers of such pairs of each title with itself, and zero for a title of one character or none |
| `Similarity.ProfileCountsPlaces` | services/related/consumer.py:71-72 | a profile counts, for each 2-gram, the places in the text where it stands, overlaps included |
| `Similarity.RepeatedGramsMultiply` | services/related/consumer.py:71-72 | three occurrences against two count six times, in a worked pair of titles |
| `Similarity.SimilarIsBetweenZeroAndOne` | services/related/consumer.py:64-72 | the denominator is never zero and the score is at most one, by Cauchy-Schwarz over the two profiles |
| `Similarity.EqualCleanTitlesScoreOne` | services/related/consumer.py:64-72 | titles with the same clean form of two characters or more score exactly one |
| `Similarity.ZeroMeansNothingShared` | services/related/consumer.py:64-72 | the score is zero if and only if no two characters stand together in both clean titles |
| `Similarity.NormIsPositive` | services/related/consumer.py:66-70 | the length guard is exactly what keeps a profile's norm from being zero |
| `Similarity.EqualStripGivesEqualScores` | services/related/consumer.py:108-118 | a title edit in surrounding whitespace changes no score against any other title, on either side |
| `RelatedTable.ExactIsView` | services/related/consumer.py:75-137 | the row-by-row invariant on related maps holds if and only if the table equals the view recomputed from its own contents |
| `RelatedTable.ExactTablesAreConsistent` | services/related/consumer.py:79-86 | in an exact table no post lists itself, no key dangles, and both posts of a pair hold the same score |
| `RelatedTable.CreatedKeepsExact` | services/related/consumer.py:75-97 | a create keeps every related map exact, including a create of a known id |
| `RelatedTable.CreatedMeans` | services/related/consumer.py:75-97 | exactly which creates fail and how, that a create of a known id changes nothing, and the four fields and all the scores that a new one writes |
| `RelatedTable.UpdatedKeepsExact` | services/related/consumer.py:100-125 | an update that carries the stored slug keeps every related map exact, on both branches and for unknown posts |
| `RelatedTable.UpdateKeepsExactIffSlugKept` | services/related/consumer.py:100-125 | an applied update of a known post keeps the maps exact if and only if it keeps the slug or the post is the only one |
| `RelatedTable.UpdatedFails` | services/related/consumer.py:100-115 | exactly which updates fail and how, and that an update of an unknown post is the create |
| `RelatedTable.UpdatedMeans` | services/related/consumer.py:110-125 | what any update leaves, renames included: equal stripped titles change only the post's four fields and no related map; otherwise its scores are new and every other map keeps all it had |
| `RelatedTable.RetitledRenameLeavesOneStaleKey` | services/related/consumer.py:112-125 | from an exact table, a rename with a new title leaves the renamed row right, and every other row right but for one key, the old slug with its old score |
| `RelatedTable.SlugOnlyRenameLeavesOldKeys` | services/related/consumer.py:112-118 | from an exact table, a rename that keeps the title changes no related map, so that the others have the old slug and not the new one |
| `RelatedTable.SkippingRescoreIsSound` | services/related/consumer.py:110-118 | the early return leaves exactly the table that a full recomputation would |
| `RelatedTable.DeletedKeepsExact` | services/related/consumer.py:128-137 | a delete of a known or unknown slug keeps every related map exact |
| `RelatedTable.DeletedMeans` | services/related/consumer.py:128-137 | a delete fails only without a slug; otherwise the rows with the slug go, and the slug goes from every map that is left, and nothing else changes |
| `RelatedTable.ApplyKeepsUnique` | services/related/app.py:34 | no handler that succeeds leaves two posts with one slug |
| `RelatedTable.ApplyKeepsExact` | services/related/consumer.py:162-167 | the invariant through whichever handler the topic selects, for every payload |
| `RelatedTable.AnyCallsKeepExact` | services/related/consumer.py:184-203 | any sequence of calls, faults and rollbacks included, keeps the table exact as long as updates carry stored slugs |
| `RelatedConsumer.FallbackIdsAreDistinct` | services/related/consumer.py:170-181 | two records without the header share an event id only if topic, partition and offset agree |
| `RelatedConsumer.HeaderIdsNeverMeetFallbackIds` | services/related/consumer.py:170-181 | an id taken from the header is never equal to a fallback id |
| `RelatedConsumer.HeaderIdsAgreeIff` | services/related/consumer.py:177-180 | two messages with a header have one id if and only if the headers agree |
| `RelatedConsumer.IdsAgreeIffSameEvent` | services/related/consumer.py:170-181 | any two messages have one id if and only if they have the same header, or none and the same topic, partition and offset |
| `RelatedConsumer.NewEventsAreApplied` | services/related/consumer.py:184-198 | a message that is not the same event as any handled before it has its effect applied unless its handler faults: deduplication loses nothing |
| `RelatedConsumer.RedeliveryIsNoOp` | services/related/consumer.py:184-203 | after a success, handing in the same event again, even with another payload, succeeds and changes nothing |
| `RelatedConsumer.RelatedService.ScoreOthers` | services/related/consumer.py:121-124 | the scoring loop rewrites exactly the listed rows and collects exactly their scores |
| `RelatedConsumer.RelatedService.ForgetSlug` | services/related/consumer.py:134-137 | the loop removes the slug from every listed row and touches nothing else |
| `RelatedConsumer.RelatedService.ApplyCreated` | services/related/consumer.py:75-97 | the loop and insert produce the specified table, or the specified fault |
| `RelatedConsumer.RelatedService.ApplyUpdated` | services/related/consumer.py:100-125 | both branches and the fall-back to create produce the specified table or fault |
| `RelatedConsumer.RelatedService.ApplyDeleted` | services/related/consumer.py:128-137 | delete and clean-up produce the specified table or fault |
| `RelatedConsumer.RelatedService.Handle` | services/related/consumer.py:184-203 | effect and event id land together or not at all, the handlers' partial writes are rolled back on a fault, and the verdict is the one specified |
| `RelatedConsumer.CommittedWasAppliedOrFailed` | services/related/consumer.py:228-233 | over any stretch of one partition, everything below the committed offset was applied or failed on the way, everything from it on failed, and a commit follows a success only |
| `RelatedConsumer.RelatedService.Consume` | services/related/consumer.py:221-233 | the loop leaves exactly the tables, the committed offset and the failures that handling each message once in order gives |
| `PostsService.SlugsStayUnique` | services/posts/posts/models.py:10 | no history the service can record gives two posts one slug |
| `PostsService.RecordingKeepsConsistent` | services/posts/posts/views.py:14-21 | an event recorded in the same transaction as the write it describes keeps the posts table equal to the replay of the outbox |
| `PostsService.HistoriesDeleteLast` | services/posts/posts/views.py:61-69 | since ids are not used again, nothing about a post follows its delete in any history the service records |
| `PostsService.PostsService.Create` | services/posts/posts/views.py:37-48 | a post and its event both appear or neither does, and the outbox still rebuilds the table |
| `PostsService.PostsService.Update` | services/posts/posts/views.py:50-59 | not found, slug conflict, rollback or both writes, and the outbox still rebuilds the table |
| `PostsService.PostsService.Destroy` | services/posts/posts/views.py:61-69 | not found, rollback or both writes, and the outbox still rebuilds the table |
| `Replay.InOrderGivesView` | services/related/consumer.py:75-137 | for every history of creates, slug-keeping updates and deletes, applying the events in outbox order gives the from-scratch view of the posts table |
| `Replay.AnyOrderStaysExact` | services/related/consumer.py:75-137 | events in any order, faults and incomplete payloads included, leave exact related maps when each post has one slug |
| `Replay.AnyOrderGivesViewOfLatest` | services/related/consumer.py:75-137 | every partial or complete interleaving of creates, updates and deletes leaves the view of the posts as last written |
| `Replay.LatestIsTheWinner` | services/related/consumer.py:100-106 | a post never deleted ends as its last update left it, or as its first create when it has no update |
| `Replay.LatestHoldsTheWritten` | services/related/consumer.py:128-132 | a post is in the table if and only if it was created or updated since its last delete |
| `Replay.ConvergedIffDeletesCameLast` | services/posts/posts/views.py:9-11 | whatever the interleaving of the three topics, the table ends as the view of the posts table if and only if no delete was overtaken by another event of its post |
| `SlugReuse.ConvergedDespiteReuse` | services/related/consumer.py:128-137 | with slugs passing from deleted posts to new ones, events applied without a fault and with no delete overtaken leave the view of the posts table |
| `SlugReuse.SuccessGivesViewBySlug` | services/related/consumer.py:75-137 | events applied without a fault, in any order, leave the view of the posts as last written, where a delete removes whatever post has its slug |
| `SlugReuse.ConvergedIffLastWordsStand` | services/related/consumer.py:75-137 | with slugs used again, the table is the view of the posts table if and only if each living post has a write with its final content that no delete of its slug followed, and each write of a dead post was followed by one |
| `Replay.LateCreateResurrects` | services/posts/posts/views.py:9-11 | a create that arrives after the delete brings a deleted post back |
| `Replay.RenameBreaksTheView` | services/related/consumer.py:115-125 | a concrete rename after which the table is not the view |
| `Replay.UpdatedIsViewIffSlugKept` | services/related/consumer.py:100-125 | applying any legal update to the view gives the view if and only if the slug is kept or the post is alone |
| `OutboxRelay.ClaimTakesTheOldest` | services/relay/relay.py:64-82 | a batch is pending, unlocked, in order and within the limit, and a free row is left out only if the batch is full of older ones |
| `OutboxRelay.DeliveredRowsWereAppended` | services/relay/relay.py:93-118 | what is reported delivered is exactly what was acknowledged, and what is appended exactly what was not lost |
| `OutboxRelay.AppendedInOrder` | services/relay/relay.py:101-108 | the log gets exactly the rows that were not lost, in the order of the batch |
| `OutboxRelay.DeliveredInOrder` | services/relay/relay.py:110-118 | what is reported delivered is exactly the acknowledged rows, in the order of the batch |
| `OutboxRelay.PassLowersPendingByDelivered` | services/relay/relay.py:121-131 | a committed pass lowers the pending count by exactly the number delivered |
| `OutboxRelay.BacklogDrainsInCeilPasses` | services/relay/relay.py:121-131 | with an acknowledging broker n pending rows are gone after a number of passes if and only if it is at least n divided by the batch size, rounded up, and then each was logged once, in order |
| `OutboxRelay.Relay.PublishBatch` | services/relay/relay.py:93-118 | sends the whole batch in order and returns exactly the acknowledged rows, in order |
| `OutboxRelay.Relay.MarkPublished` | services/relay/relay.py:85-90 | marks exactly the given rows |
| `OutboxRelay.Relay.RunOnce` | services/relay/relay.py:121-131 | log, rows and returned count after a committed or rolled-back pass, and the drop in the pending count |
| `Publishing.RunsAreSafe` | services/relay/relay.py:93-131 | in every run, with locks or without, a published row is in the log and a logged id is a committed row that was sent |
| `Publishing.RunsExtend` | services/relay/relay.py:85-90 | over any stretch of a run rows are never changed or lost, the log only grows, and no published row becomes pending again |
| `Publishing.LockedRunsAreExclusive` | services/relay/relay.py:64-82 | no two open passes hold one row, and every send is recorded, outstanding or lapsed |
| `Publishing.DuplicatesAreBounded` | services/relay/relay.py:64-131 | over any number of relays a row is sent at most once more than passes that sent it and ended without recording it |
| `Publishing.ClaimsWithoutLocksOverlap` | services/auth/internal/store/store.go:169-177 | a run from the empty outbox, for any event written, after which two relays hold the same row |
| `Publishing.RunsExcludeIffClaimsAreClear` | services/auth/internal/store/store.go:169-177 | with locks or without, claims exclude each other up to a point of a run if and only if no claim before it took a row of another open pass |
| `Publishing.RunningClaimsAreSkipped` | services/auth/internal/store/store.go:171-177 | a claim that begins while another one runs takes none of its rows |
| `Publishing.UnlockedRunsExcludeIffPassesNeverOverlap` | services/auth/internal/store/store.go:169-177 | without locks, and where no claim begins while another runs, claims are exclusive up to a point of a run if and only if no two passes were open at once up to that point |
| `Publishing.FirstPublicationFollowsOutbox` | services/relay/relay.py:64-131 | with one relay whose appended and acknowledged rows are prefixes per lane, first occurrences in the log follow outbox order over any crashes and republications |
| `Publishing.RunOnceIsARun` | services/relay/relay.py:121-131 | a pass of the relay code, committed or rolled back, is a run of the machine with the same rows and the same log, whatever the other relays are in the middle of |
| `Consuming.StepKeepsExactlyOnce` | services/related/consumer.py:184-203 | under any interleaving of consumers each event id has at most one committed effect, the processed set is those ids, and the table is the replay of the effects |
| `Consuming.StepKeepsOffsetsSafe` | services/related/consumer.py:221-233 | below a committed offset every message was applied, or failed and was passed over |
| `Consuming.CommitSkipsExactlyOutstandingFailures` | services/related/consumer.py:230-231 | the unapplied messages one offset commit loses are exactly the failures since the last restart behind its positions |
| `Consuming.FailureLeavesPositionAhead` | services/related/consumer.py:199-203 | from any state, a consumer that fails on a message stands behind that message |
| `Consuming.LaterSuccessPassesOverFailure` | services/related/consumer.py:228-233 | from a fresh start: a failure, a later success and its commit skip the message that failed, which was never applied |
| `Consuming.StepKeepsInSequence` | services/related/consumer.py:228-233 | consumers that restart after each failure apply the messages of a partition in log order |
| `Pipeline.EveryRunIsSound` | services/related/consumer.py:184-233 | in every run of the whole system the posts table is the replay of the outbox, and outbox safety, exactly-once effect and offset safety hold |
| `Pipeline.RelatedTableIsTheView` | services/related/consumer.py:75-203 | in every run, a reachable table whose effects are the first k outbox rows in order is the view of the posts table after those k writes |
| `Pipeline.ReachableTablesAreExact` | services/related/consumer.py:75-203 | in every reachable state, whatever the order of arrival, every related map is exact when each post has one slug |
| `Pipeline.OnlyAFreshStartRedelivers` | services/related/consumer.py:228-233 | over any stretch of a run without a restart or a lost partition, a consumer is not handed again a message it is past |
| `Pipeline.RestartingConsumersSkipNothing` | services/related/consumer.py:221-233 | if no success is committed while a failure is outstanding, everything below a committed offset was applied |
| `Pipeline.EffectsFollowWrites` | services/posts/posts/models.py:43-46 | rows of one partition take effect in the order they were written, from outbox to table |
| `Pipeline.AppliedEverythingConvergesIffDeletesCameLast` | services/related/consumer.py:75-203 | in an orderly run with every row applied, the table is the view of the posts table if and only if no delete was overtaken |
| `Pipeline.RunsConvergeDespiteReuse` | services/related/consumer.py:75-203 | with slugs used again, an orderly run that applied every row has converged if and only if the last word on every living post stands and nothing of a dead post does, and it has if no delete was overtaken |
| `Pipeline.DeleteFreeRunsConverge` | services/related/consumer.py:100-106 | without deletes every orderly run that applied every row has converged |
| `Pipeline.HandlingIsCheckAndApply` | services/related/consumer.py:184-203 | a call of the message handler is a duplicate check and an apply step of the machine, with the same table, ids and verdict |
| `Denylists.RowOutlastsTokenIff` | services/posts/posts/jwtauth.py:106-113 | a row keeps its token out of both services through purges at any moment if and only if it does not expire before the token |
| `Denylists.PostsDenylist.Apply` | services/posts/posts/management/commands/consume_revocations.py:58-74 | raises if and only if the record is not JSON, or all its keys are there and its date is no error, and the database fails or refuses the row for a null or an over-long id; otherwise it commits, having overwritten the row or, for a payload it gives up on, changed nothing |
| `Denylists.QueuedIsRead` | services/auth/internal/store/store.go:128-132 | both services read the payload the auth service queues as the revocation it was made of |
| `Denylists.PostsReadMeans` | services/posts/posts/management/commands/consume_revocations.py:58-74 | exactly which payloads the posts handler gives up on and which end the process, and that what it stores is the payload's own fields |
| `Denylists.RelatedReadMeans` | services/related/consumer.py:147-156 | exactly which payloads the related handler reports as failed, which end its process, and which it has already |
| `Denylists.PostsDenylist.PurgeExpired` | services/posts/posts/jwtauth.py:106-113 | removes exactly the rows that expire at or before now, and returns their number |
| `Denylists.PostsDenylist.Consume` | services/posts/posts/management/commands/consume_revocations.py:47-53 | a pass crashes if and only if some message raises, at that message, and the table is the replay of the log up to the committed offset |
| `Denylists.PostsDenylist.Authenticate` | services/posts/posts/jwtauth.py:62-95 | accepts a verified token if and only if it is unexpired and not denied |
| `Denylists.RelatedDenylist.ApplyTokenRevoked` | services/related/consumer.py:140-159 | keeps the first row for a token and leaves only rows that expire later, or fails without effect, or ends in an error that is not caught |
| `Denylists.RunsKeepInv` | services/posts/posts/management/commands/consume_revocations.py:47-74 | in every run queue, log, tables and offsets agree with the tokens issued and the revocations applied |
| `Denylists.AcceptanceIsExact` | services/posts/posts/jwtauth.py:62-95 | each service accepts exactly the unexpired tokens whose revocation it has not applied |
| `Denylists.AcceptanceAtTheEdges` | services/posts/posts/models.py:87-91 | a token is refused from the very second of its expiry, and one second before it exactly when its id is denied; an empty id is never looked up by the posts service |
| `Denylists.RevokedIsNeverAcceptedAgain` | services/related/jwtauth.py:62-63 | once a service has applied a revocation it rejects the token at every later moment, over any purges and redeliveries |
| `Denylists.DenylistsAgree` | services/related/consumer.py:147-159 | the unexpired rows of both denylists are exactly the unexpired revocations applied, so services that applied the same ones agree |
| `Denylists.PurgeLeavesExactlyTheUnexpired` | services/posts/posts/jwtauth.py:106-113 | in every run, right after a purge a denylist is exactly the unexpired revocations its service has applied |
| `Denylists.CommittedMeansApplied` | services/posts/posts/management/commands/consume_revocations.py:47-74 | the posts consumer never commits past a revocation it has not applied |
| `Denylists.FatalRecordBlocks` | services/posts/posts/management/commands/consume_revocations.py:58-74 | a record that is fatal to the posts consumer is never committed, and the consumer never gets beyond it |
| `Denylists.RelatedAcceptsIffPassedOver` | services/related/consumer.py:184-233 | the related service, with the whole log committed, accepts a revoked and unexpired token if and only if it passed over every record of its revocation after a failure |
| `AuthRelay.AcknowledgedMeansAppended` | services/auth/cmd/authd/relay.go:83-87 | when the whole batch is acknowledged, the whole batch is in the log |
| `AuthRelay.AHundredAtMost` | services/auth/cmd/authd/relay.go:65 | a pass takes a hundred pending rows, or all there are |
| `AuthRelay.RevocationRelay.WriteMessages` | services/auth/cmd/authd/relay.go:83-87 | succeeds if and only if every message is acknowledged; a failed call may still have appended some |
| `AuthRelay.RevocationRelay.PublishBatch` | services/auth/cmd/authd/relay.go:64-94 | marks all rows of the batch or none, and every marked row's own payload is in the log |
| `AuthRelay.PassIsARun` | services/auth/cmd/authd/relay.go:64-94 | a pass is a run of the publishing machine without locks, with the same rows marked and the same ids logged, whatever the other relays are in the middle of |
| `RevocationPipeline.PublishedIsLoggedIsRevoked` | services/auth/cmd/authd/relay.go:64-94 | with any number of relays without locks, a marked row's payload is in the log, every record is the announcement of a committed revocation, and each of those has a row |
| `RevocationPipeline.RunsAreDenylistRuns` | services/auth/internal/store/store.go:127-159 | every run of the system feeds the denylists only genuine revocations of issued tokens, so all their theorems hold of it |
| `RevocationPipeline.DeniedMeansRevoked` | services/related/jwtauth.py:47-69 | a token is on a denylist only if its revocation committed |
| `RevocationPipeline.PublishedAndReadIsEnforced` | services/posts/posts/jwtauth.py:91-93 | once a revocation's row is marked published and the posts consumer has committed the log, every later authentication is rejected |
| `RevocationPipeline.RelatedEnforcesUnlessPassedOver` | services/related/jwtauth.py:62-63 | the related service, with the whole log committed, accepts the token of a published revocation if and only if the token lives and every record of it was passed over |
| `RefreshTokens.AuthService.ConsumeRefreshToken` | services/auth/internal/store/store.go:103-119 | succeeds if and only if the token is stored, unspent and unexpired, and spends it |
| `RefreshTokens.AuthService.StoreRefreshToken` | services/auth/internal/store/store.go:88-96 | adds a fresh token, or fails and changes nothing |
| `RefreshTokens.AuthService.RevokeAccessToken` | services/auth/internal/store/store.go:127-159 | spends all the user's tokens and queues the event, or does neither |
| `RefreshTokens.AuthService.IssueTokens` | services/auth/internal/api/api.go:187-212 | stores the token drawn and grants it, or fails and stores nothing |
| `RefreshTokens.AuthService.Login` | services/auth/internal/api/api.go:99-124 | grants only on a known user and a matching password |
| `RefreshTokens.AuthService.Refresh` | services/auth/internal/api/api.go:126-150 | refused, granted with one successor for the same user, or failed with the old token spent and no successor |
| `RefreshTokens.AuthService.Revoke` | services/auth/internal/api/api.go:152-185 | refused, failed without effect, or the user's tokens spent and the token's own id and expiry queued |
| `RefreshTokens.RunsRotate` | services/auth/internal/api/api.go:126-150 | in every run each token was stored by one request of its user, and each redeemed token is spent and was redeemed by one later request |
| `RefreshTokens.RedeemedOnceOneSuccessor` | services/auth/internal/store/store.go:98-119 | under any interleaving a token is redeemed at most once and has at most one successor, of the same user |
| `RefreshTokens.RefreshIsRefusedIff` | services/auth/internal/store/store.go:105-114 | a refresh is refused if and only if its token is unknown, revoked, or past its expiry |
| `RefreshTokens.RefreshLeaves` | services/auth/internal/api/api.go:134-149 | a refresh that is not refused spends the old token and changes no other, and the token it grants is the user's, fresh and with the given expiry |
| `RefreshTokens.RedeemedIsLiveThen` | services/auth/internal/store/store.go:106-111 | in every run a token is stored, unrevoked and unexpired at the moment it is redeemed |
| `RefreshTokens.ExpiredIsNeverRedeemed` | services/auth/internal/store/store.go:110 | in every run a token is never redeemed once its expiry has come |
| `RefreshTokens.SessionsAreConserved` | services/auth/internal/api/api.go:99-150 | each login is a live token, a request in flight, a dropped request or a token cut by a revocation, so live tokens and requests in flight never exceed logins |
| `RefreshTokens.RevocationCutsOff` | services/auth/internal/store/store.go:143-147 | from the moment the update of a revocation that does not roll back has run, no token present then is redeemed, and any later redemption goes back to a later login or a request then in flight |
| `RefreshTokens.CommittedRevokeSpends` | services/auth/internal/store/store.go:143-158 | once it has committed, every token of the user that was present at its update is spent |
| `RefreshTokens.CommitLeavesExactlyTheLater` | services/auth/internal/store/store.go:137-158 | the tokens a revocation's commit leaves live are exactly those that were live before it and were stored after its update |
| `RefreshTokens.CommitLeavesNoneIffNoneStoredSince` | services/auth/internal/store/store.go:137-158 | the commit leaves the user no live token if and only if no live token was stored since the update |
| `RefreshTokens.RevokesAreAnnounced` | services/auth/internal/store/store.go:121-159 | with update, insert and commit as separate steps, committed revocations and queued events correspond one to one, and an announced one has spent every token its update found |
| `RefreshTokens.LoginIsARun` | services/auth/internal/api/api.go:99-124 | whatever a login answers, the machine takes the steps of that answer, none for a refusal, and ends with the same tokens |
| `RefreshTokens.RefreshIsARun` | services/auth/internal/api/api.go:126-150 | whatever a refresh answers, the machine takes the steps of that answer and ends with the same tokens |
| `RefreshTokens.RevokeIsARun` | services/auth/internal/api/api.go:152-185 | whatever a revocation answers, the machine takes the steps of that answer and ends with the same tokens and the same outbox |
| `Decimal.PrintIsInjective` | services/related/consumer.py:181 | two numbers print alike only if they are equal |
| `Decimal.NoLeadingZero` | services/related/consumer.py:181 | no number but zero is printed with a leading zero |
| `Base64.DecodeOfEncode` | services/auth/internal/auth/password.go:49-50 | every byte string survives encoding and decoding, and the text holds no separator |
| `Base64.EncodeOfDecodeIff` | services/auth/internal/auth/password.go:73-80 | a text that decodes is its bytes' own encoding if and only if it has no line break and no stray low bits |
| `Base64.CharsGoInOrder` | services/auth/internal/auth/password.go:49-50 | the 64 values go through the standard alphabet in order |
| `Base64.GroupsHoldTheSameBits` | services/auth/internal/auth/password.go:49-50 | three bytes and their four characters hold the same 24-bit number, and a short group is padded with zero bits |
| `Base64.DecodeFailsIff` | services/auth/internal/auth/password.go:73-80 | a text without line breaks fails to decode if and only if it has a character outside the alphabet or one character too many |
| `PasswordHash.ParseOfEncoded` | services/auth/internal/auth/password.go:46-80 | for every salt, key and cost in range the printed string parses to exactly those values |
| `PasswordHash.VerifyOfEncoded` | services/auth/internal/auth/password.go:55-90 | verification uses the cost in the string and fails exactly when the derived keys differ |
| `PasswordHash.VerifyOfHash` | services/auth/internal/auth/password.go:38-90 | a hash verifies its own password, and another password if and only if it derives the same key |
| `PasswordHash.EncodedIsInjective` | services/auth/internal/auth/password.go:46-51 | two encodings agree only if cost, salt and key all agree |
| `PasswordHash.HashIs` | services/auth/internal/auth/password.go:23-51 | a new hash is this text: variant argon2id, version 19, cost 65536, 1 and 4, salt and a key of 32 bytes |
| `PasswordHash.ForeignHashIsInvalidIff` | services/auth/internal/auth/password.go:55-90 | a text of the right shape is refused as no hash if and only if its variant is not argon2id, its version is not 19, or its cost does not fit 32, 32 and 8 bits |
| `PasswordHash.FiveSeparators` | services/auth/internal/auth/password.go:56-59 | a text with any number of separators other than five is no hash |
| `PasswordHash.LeadingTextIsIgnored` | services/auth/internal/auth/password.go:56-59 | text before the first separator does not change what is parsed |

## Left out

- Floating point: a score is the exact pair of the dot product and the product of the squared norms, so rounding in the square root and the division is not modelled; strsimpy's own code is not part of this model.
- JSON values of the wrong type, nulls, and column length limits in post events: a payload field is present with the right type or missing, and a missing one is a fault. A wrong type that raises an error the handler does not catch ends the process, which the machine has as a restart.
- Slug renames: view theorems are for updates that keep the slug, and for one slug a post; what a rename does is stated in the exact conditions named above.
- `Replay.ConvergedIffDeletesCameLast`: is for slugs that are one post's for good; `SlugReuse.ConvergedIffLastWordsStand` is the condition for slugs used again.
- `Pipeline.AppliedEverythingConvergesIffDeletesCameLast`: likewise, with `Pipeline.RunsConvergeDespiteReuse`.
- `Pipeline.RelatedTableIsTheView`: has application in outbox order as a premise, because the three topics do not guarantee it.
- `Publishing.FirstPublicationFollowsOutbox`: assumes that within a lane what the broker takes and what it acknowledges are prefixes, and that nothing arrives after its pass ended; the producer's own retries beyond repeated arrival are not modelled.
- `Pipeline.EffectsFollowWrites`: is for one relay and for consumers that start afresh after a failure, since the code keeps no order otherwise.
- Lost updates between two consumer transactions that overlap: the effect, the event id and the commit are one step, while the duplicate check is a separate, earlier one.
- Overlapping posts requests: each request, its lookup included, is one step, so outbox order, commit order and creation time agree.
- `PostsService.PostsService.Update`: partial updates and field validation other than the unique slug are not modelled; the post's id is a ghost result.
- `RelatedConsumer.RelatedService.Consume`: reads one partition without a crash; crashes, rebalances and several partitions are in the Consuming module.
- Token ids are never empty, because `services/auth/internal/auth/tokens.go:77-90` draws each one; the posts service would not reject a token without one.
- `Denylists.RelatedAcceptsIffPassedOver`: is for one consumer and one partition of the topic, and a repeated revocation is applied again where the service's processed_events row would skip it, which changes no table.
- `Publishing.RunsExcludeIffClaimsAreClear`: a claim statement takes its row locks together when it begins; two statements that lock rows in alternation are not modelled.
- `Denylists.PostsDenylist.Authenticate`: signature, issuer, audience and required claims are taken as verified, and the expiry check and the lookup read the clock once.
- `RefreshTokens.RevocationCutsOff`: a statement that meets a locked row waits, and an update changes the rows its statement found, as Postgres does at its default isolation level.
- `RefreshTokens.AuthService.Login`: the user lookup and the password check are parameters; the timing equalisation for unknown users, and a failing user lookup, are not modelled.
- `RefreshTokens.AuthService.Refresh`: hashes stand for the tokens, assuming the hash is injective; drawing the token is a parameter.
- The key derivation is a parameter; argon2's panic on a zero cost and the constant-time comparison are not modelled. A scanned number that overflows 64 bits is rejected by its value, with the same verdict.
- Partition choice is an arbitrary function of topic and key; Kafka's replication and Postgres's isolation anomalies are not part of this model.
- HTTP routing, headers, serializers, CORS, JWKS and key handling, RSA signing, migrations, polling intervals, signals, logging and container set-up: plumbing.
